/** The compact form of difficulty targets: a byte count and a 23-bit mantissa in one
    32-bit word, with a sign bit. */
module CompactTarget {
  import opened Limbs
  import opened Powers
  import opened Shifts

  const SIGN_BIT: nat := 0x80_0000
  const SIZE_UNIT: nat := 0x100_0000

  /** 256 to the power of k. */
  function Bytes(k: nat): (r: nat)
    ensures r >= 1
  {
    Pow2(8 * k)
  }

  lemma BytesStep(k: nat)
    ensures Bytes(k + 1) == 256 * Bytes(k)
  {
    Pow2Octet(8 * k);
  }

  lemma BytesSmall()
    ensures Bytes(0) == 1 && Bytes(1) == 256 && Bytes(2) == 0x1_0000 && Bytes(3) == SIZE_UNIT
  {
    BytesStep(0);
    BytesStep(1);
    BytesStep(2);
  }

  lemma BytesAdd(i: nat, j: nat)
    ensures Bytes(i + j) == Bytes(i) * Bytes(j)
  {
    Pow2Add(8 * i, 8 * j);
  }

  lemma BytesMonotone(i: nat, j: nat)
    requires i <= j
    ensures Bytes(i) <= Bytes(j)
  {
    Pow2Monotone(8 * i, 8 * j);
  }

  function BitLength(v: nat): nat {
    if v == 0 then 0 else 1 + BitLength(v / 2)
  }

  lemma {:induction false} BitLengthHas(v: nat)
    ensures HasBits(v, BitLength(v))
  {
    if v > 0 { BitLengthHas(v / 2); }
  }

  function ByteLength(v: nat): nat { (BitLength(v) + 7) / 8 }

  ghost predicate HasBytes(v: nat, n: nat) {
    v < Bytes(n) && (n > 0 ==> Bytes(n - 1) <= v)
  }

  lemma ByteLengthHas(v: nat)
    ensures HasBytes(v, ByteLength(v))
  {
    BitLengthHas(v);
    var b, n := BitLength(v), ByteLength(v);
    Pow2Monotone(b, 8 * n);
    if n > 0 { Pow2Monotone(8 * (n - 1), b - 1); }
  }

  // Decoding

  function SizeOf(n: nat): nat { n / SIZE_UNIT }
  function WordOf(n: nat): nat { n % SIGN_BIT }
  predicate SignOf(n: nat) { (n / SIGN_BIT) % 2 == 1 }

  /** The mantissa without the bytes a small size leaves no room for. */
  function ShiftedWord(n: nat): nat {
    if SizeOf(n) <= 3 then
      QuotientSmaller(WordOf(n), Bytes(3 - SizeOf(n)));
      WordOf(n) / Bytes(3 - SizeOf(n))
    else WordOf(n)
  }

  /** The whole number a compact word stands for, sign aside. */
  function Denoted(n: nat): nat {
    if SizeOf(n) <= 3 then ShiftedWord(n) else WordOf(n) * Bytes(SizeOf(n) - 3)
  }

  /** The overflow test on the mantissa and the size. */
  predicate Overflows(word: nat, size: nat) {
    word != 0 && (size > 34 || (word > 0xff && size > 33) || (word > 0xffff && size > 32))
  }

  /** The overflow flag is set exactly for numbers of 256 bits and more. */
  lemma OverflowExactly(n: nat)
    ensures Overflows(ShiftedWord(n), SizeOf(n)) <==> Denoted(n) >= Pow2(256)
    ensures ShiftedWord(n) == 0 <==> Denoted(n) == 0
  {
    hide Pow2;
    var size, w := SizeOf(n), WordOf(n);
    BytesSmall();
    assert Pow2(256) == Bytes(32);
    if size <= 3 {
      QuotientSmaller(w, Bytes(3 - size));
      BytesMonotone(3, 32);
    } else {
      OverflowWord(w, size);
    }
  }

  lemma OverflowWord(w: nat, size: nat)
    requires w < SIGN_BIT && size > 3
    ensures Overflows(w, size) <==> w * Bytes(size - 3) >= Bytes(32)
    ensures w == 0 <==> w * Bytes(size - 3) == 0
  {
    hide Bytes;
    var b := Bytes(size - 3);
    BytesSmall();
    MultipleSize(w, b);
    if size > 34 {
      BytesMonotone(32, size - 3);
    } else if size == 34 {
      BytesAdd(1, 31);
      Threshold(w, 256, b);
    } else if size == 33 {
      BytesAdd(2, 30);
      Threshold(w, 0x1_0000, b);
    } else {
      BytesAdd(3, size - 3);
      BytesMonotone(size, 32);
      Threshold(w, SIZE_UNIT, b);
    }
  }

  lemma Threshold(w: nat, limit: nat, b: nat)
    requires b >= 1
    ensures w >= limit <==> w * b >= limit * b
  {
    if w >= limit {
      MulMonotone(limit, w, b);
    } else {
      MulMonotone(w + 1, limit, b);
      assert (w + 1) * b == w * b + b;
    }
  }

  // Encoding

  /** The leading three bytes of a number of the given size. */
  function Leading(x: nat, size: nat): nat {
    if size <= 3 then x * Bytes(3 - size)
    else
      QuotientSmaller(x, Bytes(size - 3));
      x / Bytes(size - 3)
  }

  /** The compact word of a number. A mantissa reaching the sign bit moves down a byte. */
  function Encode(x: nat, negative: bool): nat {
    var size, word := ByteLength(x), Leading(x, ByteLength(x));
    var moved := (word / SIGN_BIT) % 2 == 1;
    var size', word' := if moved then size + 1 else size, if moved then word / 256 else word;
    word' + size' * SIZE_UNIT + (if negative && word' != 0 then SIGN_BIT else 0)
  }

  /** The size under which the mantissa stays clear of the sign bit, and no larger. */
  ghost predicate Exponent(x: nat, s: nat) {
    2 * x < Bytes(s) && (s > 0 ==> Bytes(s - 1) <= 2 * x)
  }

  lemma ExponentUnique(x: nat, s: nat, s': nat)
    requires Exponent(x, s) && Exponent(x, s')
    ensures s == s'
  {
    if s < s' {
      BytesMonotone(s, s' - 1);
    } else if s' < s {
      BytesMonotone(s', s - 1);
    }
  }

  /** The code's two-step choice of size and mantissa comes to the exponent. */
  lemma EncodeShape(x: nat) returns (s: nat)
    ensures Exponent(x, s) && Leading(x, s) < SIGN_BIT
    ensures ByteLength(x) <= s <= ByteLength(x) + 1
    ensures Encode(x, false) == Leading(x, s) + s * SIZE_UNIT
    ensures Encode(x, true) == Leading(x, s) + s * SIZE_UNIT + (if Leading(x, s) != 0 then SIGN_BIT else 0)
  {
    hide Bytes, ByteLength, Exponent, Leading, HasBytes;
    ByteLengthHas(x);
    var size := ByteLength(x);
    LeadingBound(x, size);
    if Leading(x, size) < SIGN_BIT {
      s := size;
    } else {
      s := size + 1;
    }
  }

  /** The leading bytes fill three bytes at most; moved down one byte they are the leading bytes
      of the next size. */
  lemma LeadingBound(x: nat, size: nat)
    requires HasBytes(x, size)
    ensures Leading(x, size) < 2 * SIGN_BIT
    ensures Leading(x, size) < SIGN_BIT ==> Exponent(x, size)
    ensures Leading(x, size) >= SIGN_BIT ==> Exponent(x, size + 1)
    ensures Leading(x, size) >= SIGN_BIT ==> Leading(x, size + 1) == Leading(x, size) / 256 < SIGN_BIT
  {
    hide Bytes;
    BytesSmall();
    BytesStep(size);
    if size <= 3 {
      assert size == 0 || size == 1 || size == 2 || size == 3;
    } else {
      var u := Bytes(size - 3);
      BytesAdd(size - 3, 3);
      BytesStep(size - 3);
      LeadingLarge(x, u);
      DivideAgain(x, u);
    }
  }

  lemma LeadingLarge(x: nat, u: nat)
    requires u >= 1 && x < u * SIZE_UNIT
    ensures x / u < 2 * SIGN_BIT
    ensures x / u < SIGN_BIT <==> 2 * x < u * SIZE_UNIT
  {
    var q, r := x / u, x % u;
    QuotientBelow(x, u, SIZE_UNIT);
    QuotientSmaller(x, u);
    QuotientCompare(q, r, u, SIGN_BIT, q * u);
    assert x == q * u + r;
  }

  lemma DivideAgain(x: nat, u: nat)
    requires u >= 1
    ensures x / (256 * u) == (x / u) / 256
  {
    var q, r := x / u, x % u;
    var a, b := q / 256, q % 256;
    assert x == q * u + r;
    assert (256 * a + b) * u == a * (256 * u) + b * u;
    MulMonotone(b + 1, 256, u);
    assert (b + 1) * u == b * u + u;
    MulMonotone(0, b, u);
    DivisionUnique(x, 256 * u, a, b * u + r);
  }

  /** A quotient compares with a limit as the number does with the limit's multiple. */
  lemma QuotientCompare(q: nat, r: nat, u: nat, limit: nat, qu: nat)
    requires r < u && qu == q * u
    ensures q < limit <==> qu + r < limit * u
  {
    if q < limit {
      MulMonotone(q + 1, limit, u);
      assert (q + 1) * u == qu + u;
    } else {
      MulMonotone(limit, q, u);
    }
  }

  // What decoding an encoding gives

  /** A number with all but its leading bytes cleared. */
  ghost function Coarse(x: nat, s: nat): nat {
    if s <= 3 then x else Leading(x, s) * Bytes(s - 3)
  }

  lemma DenotedWord(x: nat, s: nat, n: nat)
    requires Leading(x, s) < SIGN_BIT && n == Leading(x, s) + s * SIZE_UNIT
    ensures SizeOf(n) == s && WordOf(n) == Leading(x, s) && !SignOf(n)
    ensures Denoted(n) == Coarse(x, s)
  {
    hide Bytes;
    if s <= 3 {
      var b := Bytes(3 - s);
      DivisionUnique(x * b, b, x, 0);
    }
  }

  /** At most the bytes below the leading ones are lost. */
  lemma CoarseBounds(x: nat, s: nat)
    requires Exponent(x, s)
    ensures Coarse(x, s) <= x
    ensures x > 0 ==> 0x8000 * (x - Coarse(x, s)) < x
    ensures s > 0 ==> Bytes(s - 1) <= 2 * Coarse(x, s)
    ensures s > 3 ==> Coarse(x, s) / Bytes(s - 3) == Leading(x, s)
  {
    if s > 3 {
      BytesSmall();
      BytesAdd(s - 3, 2);
      CoarseLarge(x, Bytes(s - 3));
    }
  }

  lemma CoarseLarge(x: nat, u: nat)
    requires u >= 1 && u * 0x1_0000 <= 2 * x
    ensures 0 <= x - (x / u) * u < u
    ensures u * 0x1_0000 <= 2 * ((x / u) * u)
    ensures ((x / u) * u) / u == x / u
  {
    var q, r := x / u, x % u;
    QuotientSmaller(x, u);
    assert x == q * u + r;
    QuotientCompare(q, r, u, 0x8000, q * u);
    MulMonotone(0x8000, q, u);
    DivisionUnique(q * u, u, q, 0);
  }

  /** The cleared number has the same size and the same leading bytes. */
  lemma CoarseAgain(x: nat, s: nat)
    requires Exponent(x, s)
    ensures Exponent(Coarse(x, s), s) && Leading(Coarse(x, s), s) == Leading(x, s)
  {
    CoarseBounds(x, s);
  }

  /** Encoding a target and decoding it again loses less than one part in 2 to the 15, sets
      neither flag, and encodes again to the very same word. */
  lemma CompactRoundTrip(x: nat)
    requires x < Pow2(256)
    ensures var n := Encode(x, false); var t := Denoted(n);
      && n < BASE && !SignOf(n) && !Overflows(ShiftedWord(n), SizeOf(n))
      && t <= x
      && (x > 0 ==> 0x8000 * (x - t) < x)
      && Encode(t, false) == n
  {
    hide Leading, Exponent, Coarse, Denoted, Encode, Pow2, Overflows, ShiftedWord;
    var s := EncodeShape(x);
    var n := Encode(x, false);
    DenotedWord(x, s, n);
    CoarseBounds(x, s);
    CoarseAgain(x, s);
    var t := Coarse(x, s);
    var s' := EncodeShape(t);
    ExponentUnique(t, s, s');
    OverflowExactly(n);
    LengthLimit(x);
  }

  lemma LengthLimit(x: nat)
    requires x < Pow2(256)
    ensures ByteLength(x) <= 32
  {
    ByteLengthHas(x);
    var n := ByteLength(x);
    if n > 32 {
      BytesMonotone(32, n - 1);
      assert false;
    }
  }

  /** A larger target never decodes to a smaller one. */
  lemma CompactMonotone(x: nat, y: nat)
    requires x <= y
    ensures Denoted(Encode(x, false)) <= Denoted(Encode(y, false))
  {
    hide Leading, Denoted, Encode, Bytes;
    var s := EncodeShape(x);
    var s' := EncodeShape(y);
    DenotedWord(x, s, Encode(x, false));
    DenotedWord(y, s', Encode(y, false));
    CoarseBounds(x, s);
    CoarseBounds(y, s');
    if s < s' {
      BytesMonotone(s, s' - 1);
    } else if s == s' {
      CoarseMonotone(x, y, s);
    } else {
      BytesMonotone(s', s - 1);
      assert false;
    }
  }

  lemma CoarseMonotone(x: nat, y: nat, s: nat)
    requires x <= y
    ensures Coarse(x, s) <= Coarse(y, s)
  {
    if s > 3 {
      var u := Bytes(s - 3);
      QuotientMonotone(x, y, u);
      MulMonotone(x / u, y / u, u);
    }
  }

  lemma QuotientMonotone(x: nat, y: nat, u: nat)
    requires u >= 1 && x <= y
    ensures 0 <= x / u <= y / u
  {
    QuotientSmaller(x, u);
    QuotientSmaller(y, u);
    QuotientCompare(y / u, y % u, u, x / u, (y / u) * u);
    DivisionBounds(x, u);
  }

  /** The sign bit is set exactly for a negative number other than zero, and changes nothing else. */
  lemma NegativeEncoding(x: nat)
    requires x < Pow2(256)
    ensures var n := Encode(x, true);
      && n == Encode(x, false) + (if x > 0 then SIGN_BIT else 0)
      && (SignOf(n) <==> x > 0)
      && Denoted(n) == Denoted(Encode(x, false))
  {
    hide Leading, Exponent, Coarse, Encode, Denoted, Pow2, SizeOf, WordOf, SignOf;
    var s := EncodeShape(x);
    DenotedWord(x, s, Encode(x, false));
    LeadingZero(x, s);
    SignAdded(Leading(x, s), s);
  }

  lemma SignAdded(word: nat, s: nat)
    requires word < SIGN_BIT
    ensures var n := word + s * SIZE_UNIT;
      Denoted(n + SIGN_BIT) == Denoted(n) && SignOf(n + SIGN_BIT)
  {
    hide SizeOf, WordOf, Denoted, ShiftedWord;
    var n := word + s * SIZE_UNIT;
    SignFields(word, s);
    DenotedByFields(n, n + SIGN_BIT);
  }

  lemma SignFields(word: nat, s: nat)
    requires word < SIGN_BIT
    ensures var n := word + s * SIZE_UNIT;
      SizeOf(n + SIGN_BIT) == SizeOf(n) && WordOf(n + SIGN_BIT) == WordOf(n) && SignOf(n + SIGN_BIT)
  {
    var n := word + s * SIZE_UNIT;
    DivisionUnique(n, SIZE_UNIT, s, word);
    DivisionUnique(n + SIGN_BIT, SIZE_UNIT, s, word + SIGN_BIT);
    DivisionUnique(n, SIGN_BIT, 2 * s, word);
    DivisionUnique(n + SIGN_BIT, SIGN_BIT, 2 * s + 1, word);
  }

  lemma DenotedByFields(n: nat, n': nat)
    requires SizeOf(n) == SizeOf(n') && WordOf(n) == WordOf(n')
    ensures Denoted(n) == Denoted(n')
  {
    hide SizeOf, WordOf, Bytes;
  }

  lemma LeadingZero(x: nat, s: nat)
    requires Exponent(x, s)
    ensures Leading(x, s) == 0 <==> x == 0
  {
    hide Bytes;
    CoarseBounds(x, s);
    if s <= 3 {
      MultipleSize(x, Bytes(3 - s));
    } else {
      MultipleSize(Leading(x, s), Bytes(s - 3));
      QuotientSmaller(x, Bytes(s - 3));
    }
  }
}
