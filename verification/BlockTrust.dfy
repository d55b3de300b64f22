/** Targets on 256-bit numbers: reading and writing the compact form, and the trust a
    block adds to its chain. */
module BlockTrust {
  import opened ArithUint
  import opened CompactTarget
  import opened Limbs
  import opened Powers
  import opened Shifts

  const WIDTH: nat := 8

  lemma WidthModulus()
    ensures Modulus(WIDTH) == Pow2(256)
  {
    ModulusPow2(WIDTH);
  }

  /** Reads a compact word; both flags are computed from the mantissa as shifted. */
  method SetCompact(x: BaseUint, nCompact: nat) returns (fNegative: bool, fOverflow: bool)
    requires x.pn.Length == WIDTH && nCompact < BASE
    modifies x.pn
    ensures x.V() == Denoted(nCompact) % Pow2(256)
    ensures fNegative == (Denoted(nCompact) != 0 && SignOf(nCompact))
    ensures fOverflow == (Denoted(nCompact) >= Pow2(256))
  {
    hide Pow2, Modulus, Value;
    WidthModulus();
    var nSize := nCompact / SIZE_UNIT;
    var nWord: nat := nCompact % SIGN_BIT;
    if nSize <= 3 {
      QuotientSmaller(nWord, Pow2(8 * (3 - nSize)));
      nWord := nWord / Pow2(8 * (3 - nSize));
      x.Assign(nWord);
      SmallUnchanged(nWord);
    } else {
      x.Assign(nWord);
      x.ShiftLeft(8 * (nSize - 3));
    }
    OverflowExactly(nCompact);
    fNegative := nWord != 0 && (nCompact / SIGN_BIT) % 2 == 1;
    fOverflow := nWord != 0 && (nSize > 34 || (nWord > 0xff && nSize > 33) || (nWord > 0xffff && nSize > 32));
  }

  lemma SmallUnchanged(w: nat)
    requires w < SIGN_BIT
    ensures w % Pow2(256) == w
  {
    BytesSmall();
    BytesMonotone(3, 32);
    DivisionUnique(w, Pow2(256), 0, w);
  }

  /** Writes the compact word. The fields do not overlap, so joining them is adding. */
  method GetCompact(x: BaseUint, fNegative: bool) returns (nCompact: nat)
    requires x.pn.Length == WIDTH
    ensures nCompact == Encode(x.V(), fNegative) < BASE
  {
    hide Pow2, Modulus, Value, Leading, ByteLength, HasBits, HasBytes;
    WidthModulus();
    ValueBound(x.pn[..]);
    ghost var v := x.V();
    var bits := x.Bits();
    LengthIs(v, bits);
    var nSize := (bits + 7) / 8;
    ByteLengthHas(v);
    LeadingBound(v, nSize);
    LengthLimit(v);
    if nSize <= 3 {
      var low := x.GetLow64();
      LowIsWhole(v, nSize);
      nCompact := low * Pow2(8 * (3 - nSize));
    } else {
      var bn := new BaseUint.Copy(x);
      bn.ShiftRight(8 * (nSize - 3));
      nCompact := bn.GetLow64();
    }
    LeadingIs(v, nSize, nCompact);
    if (nCompact / SIGN_BIT) % 2 == 1 {
      nCompact := nCompact / 256;
      nSize := nSize + 1;
    }
    assert nCompact < SIGN_BIT;
    assert nSize < 256;
    var sign := if fNegative && nCompact != 0 then SIGN_BIT else 0;
    nCompact := nCompact + nSize * SIZE_UNIT + sign;
  }

  lemma LengthIs(v: nat, bits: nat)
    requires HasBits(v, bits)
    ensures (bits + 7) / 8 == ByteLength(v)
  {
    BitLengthHas(v);
    BitsUnique(v, bits, BitLength(v));
  }

  lemma LowIsWhole(v: nat, size: nat)
    requires HasBytes(v, size) && size <= 3
    ensures v % (BASE * BASE) == v
  {
    BytesSmall();
    BytesMonotone(size, 3);
  }

  lemma LeadingIs(v: nat, size: nat, word: nat)
    requires Leading(v, size) < 2 * SIGN_BIT
    requires size <= 3 ==> word == v * Pow2(8 * (3 - size))
    requires size > 3 ==> word == (v / Pow2(8 * (size - 3))) % (BASE * BASE)
    ensures word == Leading(v, size)
  {
    hide Pow2;
  }

  /** What a block adds to the trust of its chain. */
  ghost function Trust(nBits: nat, proofOfStake: bool): nat {
    var t := Denoted(nBits);
    if t == 0 || SignOf(nBits) || t >= Pow2(256) then 0
    else if proofOfStake then
      QuotientSmaller(Pow2(256), t + 1);
      Pow2(256) / (t + 1)
    else 1
  }

  /** Computes 2 to the 256 over the target plus one, without a 257-bit number. */
  method GetBlockTrust(nBits: nat, proofOfStake: bool) returns (r: BaseUint)
    requires nBits < BASE
    ensures fresh(r) && r.pn.Length == WIDTH
    ensures r.V() == Trust(nBits, proofOfStake)
  {
    hide Pow2, Modulus, Value, Denoted, SignOf;
    WidthModulus();
    r := new BaseUint(WIDTH);
    var bnTarget := new BaseUint(WIDTH);
    var fNegative, fOverflow := SetCompact(bnTarget, nBits);
    ghost var t := Denoted(nBits);
    if t < Pow2(256) { DivisionUnique(t, Pow2(256), 0, t); }
    var zero := bnTarget.IsZero();
    if fNegative || fOverflow || zero { return; }
    if proofOfStake {
      NotAllOnes(nBits);
      r := InverseOf(bnTarget);
    } else {
      r.Assign(1);
    }
  }

  /** The complement of the target over the target plus one, and one. */
  method InverseOf(bnTarget: BaseUint) returns (r: BaseUint)
    requires bnTarget.pn.Length == WIDTH && 0 < bnTarget.V() && bnTarget.V() + 1 < Pow2(256)
    modifies bnTarget.pn
    ensures fresh(r) && fresh(r.pn) && r.pn.Length == WIDTH
    ensures r.V() == Pow2(256) / (old(bnTarget.V()) + 1)
  {
    hide Pow2, Modulus, Value;
    WidthModulus();
    ghost var t := bnTarget.V();
    QuotientPlusOne(Pow2(256), t);
    var one := new BaseUint(WIDTH);
    one.Assign(1);
    r := bnTarget.Complement();
    bnTarget.Add(one);
    DivisionUnique(t + 1, Pow2(256), 0, t + 1);
    var ok := r.Divide(bnTarget);
    r.Add(one);
  }

  /** No compact word stands for the largest 256-bit number. */
  lemma NotAllOnes(n: nat)
    requires Denoted(n) < Pow2(256)
    ensures Denoted(n) + 1 < Pow2(256)
  {
    hide Pow2;
    BytesSmall();
    BytesMonotone(3, 32);
    BytesStep(31);
    if SizeOf(n) <= 3 {
      QuotientSmaller(WordOf(n), Bytes(3 - SizeOf(n)));
    } else {
      BytesStep(SizeOf(n) - 4);
      EvenMultiple(WordOf(n), Bytes(SizeOf(n) - 4), Bytes(31));
    }
  }

  lemma EvenMultiple(w: nat, b: nat, m: nat)
    ensures w * (256 * b) != 256 * m - 1
  {
    MulAssociates(w, 256, b);
    var p := w * b;
    assert w * (256 * b) == 256 * p;
  }

  lemma QuotientPlusOne(m: nat, t: nat)
    requires 0 < t && t + 1 < m
    ensures (m - 1 - t) / (t + 1) + 1 == m / (t + 1) < m
    ensures ((m - 1 - t) / (t + 1) + 1) % m == m / (t + 1)
  {
    var q, r := m / (t + 1), m % (t + 1);
    assert m == q * (t + 1) + r;
    assert (q - 1) * (t + 1) == q * (t + 1) - (t + 1);
    DivisionUnique(m - 1 - t, t + 1, q - 1, r);
    QuotientSmaller(m, t + 1);
    MulMonotone(2, t + 1, q);
    assert (t + 1) * q == q * (t + 1);
    DivisionUnique(q, m, 0, q);
  }
}
