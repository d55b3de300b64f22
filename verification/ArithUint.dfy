/** Unsigned integers of any number of 32-bit limbs, updated in place limb by limb. */
module ArithUint {
  import opened Limbs
  import opened LongDivision
  import opened Powers
  import opened Shifts

  class BaseUint {
    const pn: array<Limb>

    ghost function V(): nat
      reads pn
    {
      Value(pn[..])
    }

    ghost function M(): nat { Modulus(pn.Length) }

    constructor (width: nat)
      ensures fresh(pn) && pn.Length == width && V() == 0
    {
      pn := new Limb[width](_ => 0);
      new;
      ValueZero(pn[..]);
    }

    constructor Copy(b: BaseUint)
      ensures fresh(pn) && pn.Length == b.pn.Length && pn[..] == b.pn[..]
    {
      var a := new Limb[b.pn.Length](i requires 0 <= i < b.pn.Length reads b.pn => b.pn[i]);
      assert a[..] == b.pn[..];
      pn := a;
    }

    /** Sets the number to a 64-bit one. */
    method Assign(b: nat)
      requires pn.Length >= 2 && b < BASE * BASE
      modifies pn
      ensures V() == b
    {
      pn[0] := b % BASE;
      pn[1] := b / BASE;
      Clear(2);
      ghost var s := pn[..];
      ValueSplit(s, 2);
      ValueZero(s[2..]);
      LowValue(s);
    }

    /** Zeroes the limbs from one on. */
    method Clear(from: nat)
      requires from <= pn.Length
      modifies pn
      ensures pn[..from] == old(pn[..from])
      ensures forall j | from <= j < pn.Length :: pn[j] == 0
    {
      var i := from;
      while i < pn.Length
        invariant from <= i <= pn.Length
        invariant pn[..from] == old(pn[..from])
        invariant forall j | from <= j < i :: pn[j] == 0
      {
        pn[i] := 0;
        i := i + 1;
      }
    }

    method GetLow64() returns (r: nat)
      requires pn.Length >= 2
      ensures r == V() % (BASE * BASE)
    {
      r := pn[0] + BASE * pn[1];
      LowWords(pn[..]);
    }

    method IsZero() returns (r: bool)
      ensures r == (V() == 0)
    {
      var i := 0;
      while i < pn.Length
        invariant i <= pn.Length
        invariant forall j | 0 <= j < i :: pn[j] == 0
      {
        if pn[i] != 0 {
          NonZero(pn[..], i);
          return false;
        }
        i := i + 1;
      }
      ValueZero(pn[..]);
      return true;
    }

    /** Addition; the operand may be the number itself. */
    method Add(b: BaseUint)
      requires b.pn.Length == pn.Length
      modifies pn
      ensures V() == (old(V()) + old(b.V())) % M()
    {
      hide AddedTo, Value, Modulus;
      ghost var p, q := pn[..], b.pn[..];
      var carry := 0;
      var i := 0;
      AddStart(p, q, p);
      while i < pn.Length
        invariant i <= pn.Length && 0 <= carry <= 1
        invariant pn[i..] == p[i..] && b.pn[i..] == q[i..]
        invariant AddedTo(p, q, pn[..], carry, i)
      {
        assert pn[i..][0] == p[i..][0] && b.pn[i..][0] == q[i..][0];
        var n: nat := carry + pn[i] + b.pn[i];
        ghost var before := pn[..];
        pn[i] := n % BASE;
        AddStep(p, q, before, pn[..], carry, i);
        carry := n / BASE;
        i := i + 1;
      }
      AddDone(p, q, pn[..], carry);
    }

    /** Bitwise complement. */
    method Complement() returns (r: BaseUint)
      ensures fresh(r) && fresh(r.pn) && r.pn.Length == pn.Length
      ensures r.V() == M() - 1 - V()
    {
      r := new BaseUint(pn.Length);
      var i := 0;
      while i < pn.Length
        invariant i <= pn.Length && fresh(r.pn) && r.pn.Length == pn.Length
        invariant forall j | 0 <= j < i :: r.pn[j] == BASE - 1 - pn[j]
        invariant unchanged(pn)
      {
        r.pn[i] := BASE - 1 - pn[i];
        i := i + 1;
      }
      ComplementValue(pn[..], r.pn[..]);
    }

    method Increment()
      modifies pn
      ensures V() == (old(V()) + 1) % M()
    {
      ghost var s := pn[..];
      var i := 0;
      var more := true;
      while i < pn.Length && more
        invariant i <= pn.Length
        invariant more ==> forall j | 0 <= j < i :: s[j] == BASE - 1 && pn[j] == 0
        invariant more ==> pn[i..] == s[i..]
        invariant !more ==> i < pn.Length && s[i] < BASE - 1 && pn[i] == s[i] + 1 && pn[i + 1..] == s[i + 1..]
        invariant !more ==> forall j | 0 <= j < i :: s[j] == BASE - 1 && pn[j] == 0
        decreases more, pn.Length - i
      {
        assert pn[i..][0] == s[i..][0];
        pn[i] := (pn[i] + 1) % BASE;
        if pn[i] == 0 { i := i + 1; } else { more := false; }
      }
      IncrementValue(s, pn[..], i);
    }

    method Negate() returns (r: BaseUint)
      ensures fresh(r) && fresh(r.pn) && r.pn.Length == pn.Length
      ensures r.V() == (M() - V()) % M()
    {
      r := Complement();
      r.Increment();
    }

    /** Subtraction, modulo the modulus. */
    method Subtract(b: BaseUint)
      requires b.pn.Length == pn.Length
      modifies pn
      ensures V() == if old(V()) >= old(b.V()) then old(V()) - old(b.V()) else old(V()) - old(b.V()) + M()
    {
      hide Value, Modulus;
      var minus := b.Negate();
      ValueBound(pn[..]);
      ValueBound(b.pn[..]);
      SubtractModulo(V(), b.V(), M());
      Add(minus);
    }

    method Scale(b32: Limb)
      modifies pn
      ensures V() == (b32 * old(V())) % M()
    {
      hide ScaledTo, Value, Modulus;
      ghost var p := pn[..];
      var carry: Limb := 0;
      var i := 0;
      ScaleStart(p, b32, p);
      while i < pn.Length
        invariant i <= pn.Length
        invariant pn[i..] == p[i..]
        invariant ScaledTo(p, b32, pn[..], carry, i)
      {
        assert pn[i..][0] == p[i..][0];
        ColumnFits(carry, 0, b32, pn[i]);
        var n: nat := carry + b32 * pn[i];
        assert n < BASE * BASE;
        ghost var before := pn[..];
        pn[i] := n % BASE;
        ScaleStep(p, b32, before, pn[..], carry, i);
        carry := n / BASE;
        i := i + 1;
      }
      ScaleDone(p, b32, pn[..], carry);
    }

    /** Multiplication by a number other than this one; every column total fits in 64 bits. */
    method Multiply(b: BaseUint)
      requires b.pn.Length == pn.Length && b.pn != pn
      modifies pn
      ensures V() == (old(V()) * b.V()) % M()
    {
      hide Row, Value, Modulus;
      var a := new BaseUint.Copy(this);
      Clear(0);
      ValueZero(pn[..]);
      ProductStart(a.pn[..], b.V(), M());
      var j := 0;
      while j < pn.Length
        invariant j <= pn.Length
        invariant a.pn.Length == pn.Length && a.pn[..] == old(pn[..])
        invariant V() == (Value(a.pn[..][..j]) * b.V()) % M()
      {
        ghost var s := V();
        AddRow(a.pn[j], b, j);
        RowsSum(a.pn[..], b.V(), s, j, M());
        j := j + 1;
      }
      ValueWhole(a.pn[..]);
    }

    /** Adds x times b, moved up by j limbs. */
    method AddRow(x: Limb, b: BaseUint, j: nat)
      requires b.pn.Length == pn.Length && b.pn != pn && j < pn.Length
      modifies pn
      ensures V() == (old(V()) + Row(x, j, b.V())) % M()
    {
      hide Row, RowTo, Value, Modulus;
      ghost var p, q := pn[..], b.pn[..];
      var carry: Limb := 0;
      var i := 0;
      RowStart(p, q, x, j);
      while i + j < pn.Length
        invariant i + j <= pn.Length
        invariant pn[i + j..] == p[i + j..]
        invariant RowTo(p, q, x, j, pn[..], carry, i)
      {
        assert pn[i + j..][0] == p[i + j..][0];
        ColumnFits(carry, pn[i + j], x, b.pn[i]);
        var n: nat := carry + pn[i + j] + x * b.pn[i];
        assert n < BASE * BASE;
        ghost var before := pn[..];
        pn[i + j] := n % BASE;
        RowStep(p, q, x, j, before, pn[..], carry, i);
        carry := n / BASE;
        i := i + 1;
      }
      RowDone(p, q, x, j, pn[..], carry);
    }

    // Shifts

    method ShiftLeft(shift: nat)
      modifies pn
      ensures V() == (old(V()) * Pow2(shift)) % M()
    {
      hide Value, Modulus, Pow2, LeftLimb, Or;
      var a := new BaseUint.Copy(this);
      Clear(0);
      var k, s := shift / 32, shift % 32;
      ghost var w := a.pn[..];
      LeftNothing(w, k, s);
      var i := 0;
      while i < pn.Length
        invariant i <= pn.Length && a.pn.Length == pn.Length && a.pn[..] == w == old(pn[..])
        invariant forall m | 0 <= m < pn.Length :: pn[m] == LeftLimb(w, k, s, i, m)
      {
        LeftAt(w, k, s, i);
        if i + k + 1 < pn.Length && s != 0 {
          pn[i + k + 1] := Or(pn[i + k + 1], a.pn[i] / Pow2(32 - s));
        }
        if i + k < pn.Length {
          pn[i + k] := Or(pn[i + k], (a.pn[i] * Pow2(s)) % BASE);
        }
        i := i + 1;
      }
      LeftValue(w, pn[..], shift);
    }

    method ShiftRight(shift: nat)
      modifies pn
      ensures V() == old(V()) / Pow2(shift)
    {
      hide Value, Modulus, Pow2, RightLimb, Or;
      var a := new BaseUint.Copy(this);
      Clear(0);
      var k, s := shift / 32, shift % 32;
      ghost var w := a.pn[..];
      RightNothing(w, k, s);
      var i := 0;
      while i < pn.Length
        invariant i <= pn.Length && a.pn.Length == pn.Length && a.pn[..] == w == old(pn[..])
        invariant forall m | 0 <= m < pn.Length :: pn[m] == RightLimb(w, k, s, i, m)
      {
        RightAt(w, k, s, i);
        if i - k - 1 >= 0 && s != 0 {
          pn[i - k - 1] := Or(pn[i - k - 1], (a.pn[i] * Pow2(32 - s)) % BASE);
        }
        if i - k >= 0 {
          pn[i - k] := Or(pn[i - k], a.pn[i] / Pow2(s));
        }
        i := i + 1;
      }
      RightValue(w, pn[..], shift);
    }

    // Comparison, length and division

    method CompareTo(b: BaseUint) returns (c: int)
      requires b.pn.Length == pn.Length
      ensures c == if V() < b.V() then -1 else if V() > b.V() then 1 else 0
    {
      hide Value;
      var i := pn.Length;
      while i > 0
        invariant 0 <= i <= pn.Length
        invariant pn[i..] == b.pn[i..]
      {
        i := i - 1;
        if pn[i] < b.pn[i] {
          CompareAt(pn[..], b.pn[..], i);
          return -1;
        }
        if pn[i] > b.pn[i] {
          CompareAt(b.pn[..], pn[..], i);
          return 1;
        }
      }
      assert pn[..] == pn[0..] == b.pn[0..] == b.pn[..];
      return 0;
    }

    /** The position of the highest bit set plus one, or zero. */
    method Bits() returns (r: nat)
      ensures HasBits(V(), r)
    {
      hide Value, Pow2, HasBits;
      var pos := pn.Length;
      while pos > 0
        invariant 0 <= pos <= pn.Length
        invariant forall j | pos <= j < pn.Length :: pn[j] == 0
      {
        pos := pos - 1;
        if pn[pos] != 0 {
          var x := pn[pos];
          var nbits := 31;
          WordPower();
          while nbits > 0
            invariant 0 <= nbits <= 31
            invariant x < Pow2(nbits + 1)
          {
            TopBit(x, nbits);
            if (x / Pow2(nbits)) % 2 == 1 {
              TopLimbBits(pn[..], pos, nbits + 1);
              return 32 * pos + nbits + 1;
            }
            nbits := nbits - 1;
          }
          OneBit(x);
          TopLimbBits(pn[..], pos, 1);
          return 32 * pos + 1;
        }
      }
      NoBits(pn[..]);
      return 0;
    }

    /** Division. It fails exactly for a zero divisor, and the number is then zero. */
    method Divide(b: BaseUint) returns (ok: bool)
      requires b.pn.Length == pn.Length
      modifies pn
      ensures ok == (old(b.V()) != 0)
      ensures V() == if ok then old(V()) / old(b.V()) else 0
    {
      hide Value, Modulus, Pow2, HasBits, LowClear, Remains, Moved;
      var div := new BaseUint.Copy(b);
      var num := new BaseUint.Copy(this);
      ghost var n, d := V(), b.V();
      Clear(0);
      ValueZero(pn[..]);
      var numBits := num.Bits();
      var divBits := div.Bits();
      ZeroBits(d, divBits);
      if divBits == 0 { return false; }
      if divBits > numBits {
        SmallerByBits(n, d, numBits, divBits);
        return true;
      }
      var shift := numBits - divBits;
      ValueBound(num.pn[..]);
      Aligned(n, d, numBits, divBits, pn.Length);
      div.ShiftLeft(shift);
      ZeroClear(pn[..], shift + 1);
      ShiftSubtract(num, div, shift, n, d);
      return true;
    }

    /** The loop of the division: subtracts the divisor, moved up by shift and then ever less. */
    method ShiftSubtract(num: BaseUint, div: BaseUint, start: nat, ghost n: nat, ghost d: nat)
      requires num.pn.Length == div.pn.Length == pn.Length
      requires num.pn != div.pn && num.pn != pn && div.pn != pn
      requires start < 32 * pn.Length
      requires div.V() == Moved(d, start) && Remains(n, d, V(), num.V(), start + 1) && LowClear(pn[..], start + 1)
      modifies pn, num.pn, div.pn
      ensures d > 0 && V() == n / d
    {
      hide Value, Modulus, Pow2, LowClear, Remains, Moved, Or;
      var shift: int := start;
      while shift >= 0
        invariant -1 <= shift < 32 * pn.Length
        invariant shift >= 0 ==> div.V() == Moved(d, shift)
        invariant Remains(n, d, V(), num.V(), shift + 1)
        invariant LowClear(pn[..], shift + 1)
      {
        Step(n, d, V(), num.V(), shift);
        var order := num.CompareTo(div);
        if order >= 0 {
          num.Subtract(div);
          ghost var s := pn[..];
          SetBit(s, shift);
          pn[shift / 32] := Or(pn[shift / 32], Pow2(shift % 32));
          assert pn[..] == s[shift / 32 := pn[shift / 32]];
        } else {
          ClearDown(pn[..], shift);
        }
        if shift > 0 { Halve(d, shift); }
        div.ShiftRight(1);
        shift := shift - 1;
      }
      Found(n, d, V(), num.V());
    }
  }

  lemma ProductStart(a: seq<Limb>, b: nat, m: nat)
    requires m >= 1
    ensures (Value(a[..0]) * b) % m == 0
  {
    DivisionUnique(0, m, 0, 0);
  }

  lemma LowValue(s: seq<Limb>)
    requires |s| >= 2
    ensures Value(s[..2]) == s[0] + BASE * s[1] && Modulus(2) == BASE * BASE
  {
    assert s[..2] == [s[0], s[1]];
    assert Value([s[0], s[1]]) == s[0] + BASE * Value([s[1]]);
    assert Modulus(1) == BASE;
  }

  lemma LowWords(s: seq<Limb>)
    requires |s| >= 2
    ensures s[0] + BASE * s[1] == Value(s) % (BASE * BASE)
  {
    ValueSplit(s, 2);
    LowValue(s);
    ValueBound(s[..2]);
    DivisionUnique(Value(s), BASE * BASE, Value(s[2..]), s[0] + BASE * s[1]);
  }

  lemma {:induction false} NonZero(s: seq<Limb>, i: nat)
    requires i < |s| && s[i] != 0
    ensures Value(s) > 0
  {
    if i > 0 { NonZero(s[1..], i - 1); }
  }

  // Lengths

  lemma TopBit(x: nat, n: nat)
    requires n > 0 && x < Pow2(n + 1)
    ensures (x / Pow2(n)) % 2 == 1 ==> HasBits(x, n + 1)
    ensures (x / Pow2(n)) % 2 != 1 ==> x < Pow2(n)
  {
    var p := Pow2(n);
    QuotientBelow(x, p, 2);
    DivisionBounds(x, p);
    QuotientSmaller(x, p);
  }

  lemma OneBit(x: nat)
    requires 0 < x < Pow2(1)
    ensures HasBits(x, 1)
  {
  }

  lemma NoBits(s: seq<Limb>)
    requires forall j | 0 <= j < |s| :: s[j] == 0
    ensures HasBits(Value(s), 0)
  {
    ValueZero(s);
  }

  lemma ZeroBits(v: nat, n: nat)
    requires HasBits(v, n)
    ensures v == 0 <==> n == 0
  {
  }

  lemma SmallerByBits(n: nat, d: nat, nBits: nat, dBits: nat)
    requires HasBits(n, nBits) && HasBits(d, dBits) && nBits < dBits
    ensures d > 0 && n / d == 0
  {
    Pow2Monotone(nBits, dBits - 1);
    DivisionUnique(n, d, 0, n);
  }
}
