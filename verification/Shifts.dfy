/** Bitwise or on limbs, shifts across limbs, and the length in bits of a number. */
module Shifts {
  import opened Limbs
  import opened Powers

  // Bitwise or

  function Or(x: nat, y: nat): nat
    decreases x + y
  {
    if x == 0 then y else if y == 0 then x
    else 2 * Or(x / 2, y / 2) + (if x % 2 == 1 || y % 2 == 1 then 1 else 0)
  }

  /** Numbers that share no bits are joined by addition. */
  lemma {:induction false} OrDisjoint(x: nat, y: nat, k: nat)
    requires x < Pow2(k) && y % Pow2(k) == 0
    ensures Or(x, y) == x + y && Or(y, x) == x + y
    decreases k
  {
    if k > 0 && x > 0 && y > 0 {
      HalfMultiple(y, Pow2(k - 1));
      OrDisjoint(x / 2, y / 2, k - 1);
    }
  }

  lemma HalfMultiple(y: nat, p: nat)
    requires p >= 1 && y % (2 * p) == 0
    ensures y % 2 == 0 && (y / 2) % p == 0
  {
    var q := y / (2 * p);
    assert y == q * (2 * p);
    MulAssociates(q, p, 2);
    DivisionUnique(q * p, p, q, 0);
  }

  // One limb shifted by s bits, 0 <= s < 32

  /** The two parts of a limb shifted left: what stays and what passes to the next limb. */
  lemma LeftParts(x: nat, s: nat)
    requires s <= 32
    ensures Pow2(s) * Pow2(32 - s) == BASE
    ensures (x * Pow2(s)) % BASE + BASE * (x / Pow2(32 - s)) == x * Pow2(s)
    ensures ((x * Pow2(s)) % BASE) % Pow2(s) == 0
    ensures x < BASE ==> x / Pow2(32 - s) < Pow2(s)
  {
    var p, q := Pow2(s), Pow2(32 - s);
    Pow2Add(s, 32 - s);
    WordPower();
    LeftPartsOf(x, p, q);
  }

  lemma LeftPartsOf(x: nat, p: nat, q: nat)
    requires p >= 1 && q >= 1
    ensures (x * p) % (p * q) + (p * q) * (x / q) == x * p
    ensures ((x * p) % (p * q)) % p == 0
    ensures x < p * q ==> x / q < p
  {
    var d, r := x / q, x % q;
    assert x == d * q + r;
    calc {
      x * p;
      (d * q + r) * p;
      d * q * p + r * p;
      { assert d * q * p == d * (p * q); }
      d * (p * q) + r * p;
    }
    assert r * p < p * q by { MulStrict(r, q, p); }
    DivisionUnique(x * p, p * q, d, r * p);
    DivisionUnique(r * p, p, r, 0);
    if x < p * q { QuotientBelow(x, q, p); }
  }

  lemma MulStrict(r: nat, q: nat, p: nat)
    requires r < q && p >= 1
    ensures r * p < p * q
  {
    MulMonotone(r + 1, q, p);
    assert (r + 1) * p == r * p + p;
    assert q * p == p * q;
  }

  lemma QuotientBelow(x: nat, q: nat, p: nat)
    requires q >= 1 && x < p * q
    ensures x / q < p
  {
    if x / q >= p {
      MulMonotone(p, x / q, q);
      DivisionBounds(x, q);
      assert false;
    }
  }

  // Left shift

  /** Limb m of a number shifted left by k limbs and s bits, after the first i limbs of it. */
  function LeftLimb(a: seq<Limb>, k: nat, s: nat, i: nat, m: nat): int
    requires s < 32 && i <= |a|
  {
    Passed(a, s, i, m - k - 1) + Kept(a, s, i, m - k)
  }

  function Kept(a: seq<Limb>, s: nat, i: nat, j: int): int
    requires i <= |a|
  {
    if 0 <= j < i then (a[j] * Pow2(s)) % BASE else 0
  }

  function Passed(a: seq<Limb>, s: nat, i: nat, j: int): int
    requires s < 32 && i <= |a|
  {
    if 0 <= j < i then a[j] / Pow2(32 - s) else 0
  }

  /** Before any limb is placed all are zero. */
  lemma LeftNothing(a: seq<Limb>, k: nat, s: nat)
    requires s < 32
    ensures forall m: nat :: LeftLimb(a, k, s, 0, m) == 0
  {
  }

  /** Placing limb i touches two limbs, each by an or of disjoint bits. */
  lemma LeftAt(a: seq<Limb>, k: nat, s: nat, i: nat)
    requires s < 32 && i < |a|
    ensures var high := a[i] / Pow2(32 - s);
      && LeftLimb(a, k, s, i, i + k + 1) == 0 <= high
      && LeftLimb(a, k, s, i + 1, i + k + 1) == high == Or(0, high) < BASE
      && (s == 0 ==> high == 0)
    ensures var below, low := LeftLimb(a, k, s, i, i + k), (a[i] * Pow2(s)) % BASE;
      && below >= 0
      && LeftLimb(a, k, s, i + 1, i + k) == Or(below, low) < BASE
    ensures forall m: nat | m != i + k && m != i + k + 1 :: LeftLimb(a, k, s, i + 1, m) == LeftLimb(a, k, s, i, m)
  {
    hide Pow2;
    HighPart(a[i], 32 - s);
    LeftJoin(a, s, i);
  }

  lemma HighPart(x: Limb, s: nat)
    requires s <= 32
    ensures 0 <= x / Pow2(s) < BASE
    ensures s == 32 ==> x / Pow2(s) == 0
  {
    hide Pow2;
    QuotientSmaller(x, Pow2(s));
    if s == 32 {
      WordPower();
      DivisionUnique(x, BASE, 0, x);
    }
  }

  lemma LeftJoin(a: seq<Limb>, s: nat, i: nat)
    requires s < 32 && i < |a|
    ensures var below, low := Passed(a, s, i, i - 1), Kept(a, s, i + 1, i);
      0 <= below && Or(below, low) == below + low < BASE
  {
    hide Pow2, Or;
    LeftParts(a[i], s);
    var below, low := Passed(a, s, i, i - 1), (a[i] * Pow2(s)) % BASE;
    if i > 0 {
      HighPart(a[i - 1], 32 - s);
      LeftParts(a[i - 1], s);
    }
    OrDisjoint(below, low, s);
    JoinFits(below, low, Pow2(s), Pow2(32 - s));
  }

  lemma JoinFits(x: nat, y: nat, p: nat, q: nat)
    requires p >= 1 && x < p && y % p == 0 && y < p * q
    ensures x + y < p * q
  {
    var j := y / p;
    assert y == j * p;
    QuotientBelow(y, p, q);
    MulMonotone(j + 1, q, p);
    assert (j + 1) * p == j * p + p;
  }

  /** The limbs below n of the shifted number, and what passes into limb n. */
  lemma {:induction false} LeftPrefix(a: seq<Limb>, t: seq<Limb>, k: nat, s: nat, n: nat)
    requires s < 32 && |t| == |a| && k <= n <= |a|
    requires forall m | 0 <= m < |t| :: t[m] == LeftLimb(a, k, s, |a|, m)
    ensures Value(t[..n]) + Passed(a, s, |a|, n - k - 1) * Modulus(n) == (Pow2(s) * Modulus(k)) * Value(a[..n - k])
    decreases n
  {
    hide Pow2, Modulus, Value;
    if n == k {
      assert forall m | 0 <= m < n :: t[..n][m] == 0;
      ValueZero(t[..n]);
      ValueZero(a[..0]);
    } else {
      LeftPrefix(a, t, k, s, n - 1);
      ModulusStep(n - 1);
      ValueSnoc(t, n - 1);
      ValueSnoc(a, n - k - 1);
      ModulusAdd(k, n - k - 1);
      LeftParts(a[n - k - 1], s);
      LeftColumn(a[n - k - 1], Pow2(s), Modulus(k), Modulus(n - k - 1),
                 Kept(a, s, |a|, n - k - 1), Passed(a, s, |a|, n - k - 1), Passed(a, s, |a|, n - k - 2), Value(a[..n - k - 1]), Value(t[..n - 1]));
    }
  }

  lemma LeftColumn(x: int, p: int, mk: int, mj: int, kept: int, passed: int, below: int, v: int, w: int)
    requires w + below * (mk * mj) == (p * mk) * v
    requires kept + BASE * passed == x * p
    ensures w + (below + kept) * (mk * mj) + passed * (BASE * (mk * mj)) == (p * mk) * (v + x * mj)
  {
    var m := mk * mj;
    calc {
      kept * m + passed * (BASE * m);
      { assert passed * (BASE * m) == (BASE * passed) * m; }
      (kept + BASE * passed) * m;
      (x * p) * m;
      { assert (x * p) * (mk * mj) == (p * mk) * (x * mj) by { Regroup(x, p, mk, mj); } }
      (p * mk) * (x * mj);
    }
    assert (below + kept) * m == below * m + kept * m;
    assert (p * mk) * (v + x * mj) == (p * mk) * v + (p * mk) * (x * mj);
  }

  lemma Regroup(x: int, p: int, mk: int, mj: int)
    ensures (x * p) * (mk * mj) == (p * mk) * (x * mj)
  {
    calc {
      (x * p) * (mk * mj);
      ((x * p) * mk) * mj;
      { assert (x * p) * mk == (p * mk) * x; }
      ((p * mk) * x) * mj;
      (p * mk) * (x * mj);
    }
  }

  lemma LeftNear(a: seq<Limb>, t: seq<Limb>, k: nat, s: nat)
    requires s < 32 && |t| == |a| && k <= |a|
    requires forall m | 0 <= m < |t| :: t[m] == LeftLimb(a, k, s, |a|, m)
    ensures Value(t) == (Value(a) * (Pow2(s) * Modulus(k))) % Modulus(|a|)
  {
    hide Value, Modulus, LeftLimb, Passed, Pow2;
    var n := |a|;
    LeftPrefix(a, t, k, s, n);
    ValueWhole(t);
    ValueSplit(a, n - k);
    ModulusAdd(k, n - k);
    var c, w := Passed(a, s, n, n - k - 1), Value(a[n - k..]);
    LeftTotal(Pow2(s), Modulus(k), Modulus(n - k), Modulus(n), Value(a[..n - k]), w, Value(a), Value(t), c);
    ModuloCarry(t, c + Pow2(s) * w, Value(a) * (Pow2(s) * Modulus(k)));
  }

  lemma LeftTotal(p: int, mk: int, mj: int, m: int, v: int, w: int, a: int, t: int, c: int)
    requires t + c * m == (p * mk) * v && m == mk * mj && a == v + mj * w
    ensures t + (c + p * w) * m == a * (p * mk)
  {
    LeftLoss(p, mk, mj, v, w);
    Distribute3(c, p * w, 0, m);
  }

  lemma LeftFar(a: seq<Limb>, t: seq<Limb>, k: nat, s: nat)
    requires s < 32 && |t| == |a| < k
    requires forall m | 0 <= m < |t| :: t[m] == LeftLimb(a, k, s, |a|, m)
    ensures Value(t) == (Value(a) * (Pow2(s) * Modulus(k))) % Modulus(|a|)
  {
    hide Value, Modulus, LeftLimb, Pow2;
    var n := |a|;
    AllZero(a, t, k, s);
    ModulusAdd(n, k - n);
    LeftGone(Value(a), Pow2(s), Modulus(n), Modulus(k - n));
    ModuloCarry(t, Value(a) * (Pow2(s) * Modulus(k - n)), Value(a) * (Pow2(s) * Modulus(k)));
  }

  lemma ShiftPower(shift: nat)
    ensures Pow2(shift) == Pow2(shift % 32) * Modulus(shift / 32)
  {
    Pow2Add(shift % 32, 32 * (shift / 32));
    ModulusPow2(shift / 32);
  }

  /** Shifting left multiplies by a power of two, modulo the modulus. */
  lemma LeftValue(a: seq<Limb>, t: seq<Limb>, shift: nat)
    requires |t| == |a|
    requires forall m | 0 <= m < |t| :: t[m] == LeftLimb(a, shift / 32, shift % 32, |a|, m)
    ensures Value(t) == (Value(a) * Pow2(shift)) % Modulus(|a|)
  {
    hide LeftLimb;
    ShiftPower(shift);
    if shift / 32 <= |a| {
      LeftNear(a, t, shift / 32, shift % 32);
    } else {
      LeftFar(a, t, shift / 32, shift % 32);
    }
  }

  lemma AllZero(a: seq<Limb>, t: seq<Limb>, k: nat, s: nat)
    requires s < 32 && |t| == |a| < k
    requires forall m | 0 <= m < |t| :: t[m] == LeftLimb(a, k, s, |a|, m)
    ensures Value(t) == 0
  {
    assert forall m | 0 <= m < |t| :: t[m] == 0;
    ValueZero(t);
  }

  lemma LeftLoss(p: int, mk: int, mj: int, v: int, w: int)
    ensures (v + mj * w) * (p * mk) == (p * mk) * v + (p * w) * (mk * mj)
  {
    calc {
      (mj * w) * (p * mk);
      (p * mk) * (w * mj);
      { Regroup(w, p, mk, mj); }
      (w * p) * (mk * mj);
      { assert w * p == p * w; }
      (p * w) * (mk * mj);
    }
    assert (v + mj * w) * (p * mk) == v * (p * mk) + (mj * w) * (p * mk);
  }

  lemma LeftGone(v: int, p: int, mn: int, mj: int)
    ensures v * (p * (mn * mj)) == (v * (p * mj)) * mn
  {
    calc {
      v * (p * (mn * mj));
      { assert p * (mn * mj) == (p * mj) * mn by { MulAssociates(p, mj, mn); assert mn * mj == mj * mn; } }
      v * ((p * mj) * mn);
      { MulAssociates(v, p * mj, mn); }
      (v * (p * mj)) * mn;
    }
  }

  // Right shift

  /** Limb m of a number shifted right by k limbs and s bits, after the first i limbs of it. */
  function RightLimb(a: seq<Limb>, k: nat, s: nat, i: nat, m: nat): int
    requires s < 32 && i <= |a|
  {
    Lowered(a, s, i, m + k) + Borrowed(a, s, i, m + k + 1)
  }

  function Lowered(a: seq<Limb>, s: nat, i: nat, j: nat): int
    requires i <= |a|
  {
    if j < i then a[j] / Pow2(s) else 0
  }

  function Borrowed(a: seq<Limb>, s: nat, i: nat, j: nat): int
    requires s < 32 && i <= |a|
  {
    if j < i then (a[j] * Pow2(32 - s)) % BASE else 0
  }

  lemma RightNothing(a: seq<Limb>, k: nat, s: nat)
    requires s < 32
    ensures forall m: nat :: RightLimb(a, k, s, 0, m) == 0
  {
  }

  lemma RightAt(a: seq<Limb>, k: nat, s: nat, i: nat)
    requires s < 32 && i < |a|
    ensures var high := (a[i] * Pow2(32 - s)) % BASE;
      s == 0 ==> high == 0
    ensures i - k - 1 >= 0 ==>
      var below, high := RightLimb(a, k, s, i, i - k - 1), (a[i] * Pow2(32 - s)) % BASE;
      && below >= 0
      && RightLimb(a, k, s, i + 1, i - k - 1) == Or(below, high) == below + high < BASE
    ensures i - k >= 0 ==>
      var low := a[i] / Pow2(s);
      && RightLimb(a, k, s, i, i - k) == 0 <= low
      && RightLimb(a, k, s, i + 1, i - k) == low == Or(0, low) < BASE
    ensures forall m: nat | m != i - k && m != i - k - 1 :: RightLimb(a, k, s, i + 1, m) == RightLimb(a, k, s, i, m)
  {
    hide Pow2;
    HighPart(a[i], s);
    RightJoin(a, s, i);
  }

  lemma RightJoin(a: seq<Limb>, s: nat, i: nat)
    requires s < 32 && i < |a|
    ensures s == 0 ==> Borrowed(a, s, i + 1, i) == 0
    ensures i > 0 ==>
      var below, high := Lowered(a, s, i, i - 1), Borrowed(a, s, i + 1, i);
      0 <= below && Or(below, high) == below + high < BASE
  {
    hide Pow2, Or;
    BorrowedParts(a[i], s);
    LeftParts(a[i], s);
    if s == 0 { WholeWord(a[i]); }
    if i > 0 {
      var below, high := a[i - 1] / Pow2(s), (a[i] * Pow2(32 - s)) % BASE;
      HighPart(a[i - 1], s);
      BorrowedParts(a[i - 1], s);
      OrDisjoint(below, high, 32 - s);
      MulAssociates(Pow2(32 - s), Pow2(s), 1);
      JoinFits(below, high, Pow2(32 - s), Pow2(s));
    }
  }

  lemma WholeWord(x: Limb)
    ensures (x * Pow2(32)) % BASE == 0
  {
    WordPower();
    DivisionUnique(x * BASE, BASE, x, 0);
  }

  /** What a limb passes down is its low bits, placed at the top. */
  lemma BorrowedParts(x: nat, s: nat)
    requires s <= 32
    ensures (x * Pow2(32 - s)) % BASE == Pow2(32 - s) * (x % Pow2(s))
    ensures ((x * Pow2(32 - s)) % BASE) % Pow2(32 - s) == 0
    ensures x < BASE ==> x / Pow2(s) < Pow2(32 - s)
  {
    LeftParts(x, 32 - s);
    BorrowedOf(x, Pow2(s), Pow2(32 - s), (x * Pow2(32 - s)) % BASE);
  }

  lemma BorrowedOf(x: nat, p: nat, q: nat, kept: int)
    requires p >= 1 && kept + (q * p) * (x / p) == x * q
    ensures kept == q * (x % p)
  {
    MulAssociates(q, p, x / p);
    assert q * (p * (x / p) + x % p) == q * (p * (x / p)) + q * (x % p);
  }

  /** Limbs shifted right by fewer than 32 bits hold the quotient. */
  lemma {:induction false} RightBits(b: seq<Limb>, u: seq<Limb>, s: nat)
    requires s < 32 && |u| == |b|
    requires forall m | 0 <= m < |u| :: u[m] == RightLimb(b, 0, s, |b|, m)
    ensures Value(u) == Value(b) / Pow2(s)
  {
    var p, q := Pow2(s), Pow2(32 - s);
    if b == [] {
      DivisionUnique(0, p, 0, 0);
    } else {
      forall m | 0 <= m < |u| - 1 ensures u[1..][m] == RightLimb(b[1..], 0, s, |b| - 1, m) {
        assert u[1..][m] == u[m + 1];
      }
      RightBits(b[1..], u[1..], s);
      LeftParts(0, s);
      LowBits(b[1..], s);
      if |b| > 1 { BorrowedParts(b[1], s); }
      RightColumn(b[0], Value(b[1..]), p, q);
    }
  }

  /** The low bits of a number are those of its lowest limb. */
  lemma LowBits(b: seq<Limb>, s: nat)
    requires s < 32
    ensures Value(b) % Pow2(s) == if b == [] then 0 else b[0] % Pow2(s)
  {
    var p, q := Pow2(s), Pow2(32 - s);
    if b == [] {
      DivisionUnique(0, p, 0, 0);
    } else {
      LeftParts(0, s);
      LowBitsOf(b[0], Value(b[1..]), p, q);
    }
  }

  lemma LowBitsOf(x: nat, v: nat, p: nat, q: nat)
    requires p >= 1
    ensures (x + (p * q) * v) % p == x % p
  {
    MulAssociates(p, q, v);
    var w := q * v;
    assert (x / p + w) * p == (x / p) * p + w * p;
    DivisionUnique(x + p * w, p, x / p + w, x % p);
  }

  lemma RightColumn(x: nat, r: nat, p: nat, q: nat)
    requires p >= 1 && p * q == BASE
    ensures (x + BASE * r) / p == x / p + q * (r % p) + BASE * (r / p)
  {
    var quotient := x / p + q * (r % p) + BASE * (r / p);
    calc {
      p * (q * (r % p) + BASE * (r / p));
      p * (q * (r % p)) + p * (BASE * (r / p));
      { MulAssociates(p, q, r % p); assert p * (BASE * (r / p)) == BASE * (p * (r / p)); }
      BASE * (r % p) + BASE * (p * (r / p));
      BASE * (r % p + p * (r / p));
      BASE * r;
    }
    assert quotient * p == p * (x / p) + p * (q * (r % p) + BASE * (r / p));
    DivisionUnique(x + BASE * r, p, quotient, x % p);
  }

  lemma RightNear(a: seq<Limb>, t: seq<Limb>, k: nat, s: nat)
    requires s < 32 && |t| == |a| && k <= |a|
    requires forall m | 0 <= m < |t| :: t[m] == RightLimb(a, k, s, |a|, m)
    ensures Value(t) == Value(a) / (Pow2(s) * Modulus(k))
  {
    hide RightLimb, Value, Modulus, Pow2;
    var n := |a|;
    RightTop(a, t, k, s, n - k);
    ValueSplit(t, n - k);
    RightSlices(a, t, k, s, a[k..], t[..n - k]);
    RightBits(a[k..], t[..n - k], s);
    ValueSplit(a, k);
    ValueBound(a[..k]);
    RightWhole(Value(a), Value(a[..k]), Value(a[k..]), Modulus(k), Pow2(s));
  }

  lemma RightWhole(a: nat, v: nat, w: nat, mk: nat, p: nat)
    requires a == v + mk * w && v < mk && p >= 1
    ensures a / (p * mk) == w / p
  {
    RightSplit(v, w, mk, p);
  }

  lemma RightFar(a: seq<Limb>, t: seq<Limb>, k: nat, s: nat)
    requires s < 32 && |t| == |a| < k
    requires forall m | 0 <= m < |t| :: t[m] == RightLimb(a, k, s, |a|, m)
    ensures Value(t) == 0 == Value(a) / (Pow2(s) * Modulus(k))
  {
    hide RightLimb, Value, Modulus, Pow2;
    var n := |a|;
    RightTop(a, t, k, s, 0);
    assert t[0..] == t;
    ValueBound(a);
    ModulusAdd(n, k - n);
    RightGone(Value(a), Modulus(n), Modulus(k - n), Pow2(s));
  }

  /** Shifting right divides by a power of two. */
  lemma RightValue(a: seq<Limb>, t: seq<Limb>, shift: nat)
    requires |t| == |a|
    requires forall m | 0 <= m < |t| :: t[m] == RightLimb(a, shift / 32, shift % 32, |a|, m)
    ensures Value(t) == Value(a) / Pow2(shift)
  {
    hide RightLimb, Value, Modulus, Pow2;
    ShiftPower(shift);
    if shift / 32 <= |a| {
      RightNear(a, t, shift / 32, shift % 32);
    } else {
      RightFar(a, t, shift / 32, shift % 32);
    }
  }

  /** The top limbs, from which the number was moved away, are zero. */
  lemma RightTop(a: seq<Limb>, t: seq<Limb>, k: nat, s: nat, top: nat)
    requires s < 32 && top <= |t| == |a| <= top + k
    requires forall m | 0 <= m < |t| :: t[m] == RightLimb(a, k, s, |a|, m)
    ensures Value(t[top..]) == 0
  {
    forall m | 0 <= m < |t| - top ensures t[top..][m] == 0 {
      assert t[top..][m] == t[top + m];
    }
    ValueZero(t[top..]);
  }

  lemma RightSlices(a: seq<Limb>, t: seq<Limb>, k: nat, s: nat, b: seq<Limb>, u: seq<Limb>)
    requires s < 32 && |t| == |a| && k <= |a| && b == a[k..] && u == t[..|a| - k]
    requires forall m | 0 <= m < |t| :: t[m] == RightLimb(a, k, s, |a|, m)
    ensures forall m | 0 <= m < |u| :: u[m] == RightLimb(b, 0, s, |b|, m)
  {
    forall m | 0 <= m < |u| ensures u[m] == RightLimb(b, 0, s, |b|, m) {
      assert u[m] == t[m];
    }
  }

  lemma RightSplit(v: nat, w: nat, mk: nat, p: nat)
    requires v < mk && p >= 1
    ensures (v + mk * w) / (p * mk) == w / p
  {
    var q, r := w / p, w % p;
    calc {
      mk * w;
      mk * (q * p + r);
      mk * (q * p) + mk * r;
      { assert mk * (q * p) == q * (p * mk); }
      q * (p * mk) + mk * r;
    }
    assert v + mk * r < p * mk by {
      MulMonotone(r + 1, p, mk);
      assert (r + 1) * mk == mk * r + mk;
    }
    assert mk * r >= 0;
    DivisionUnique(v + mk * w, p * mk, q, v + mk * r);
  }

  lemma RightGone(v: nat, mn: nat, mj: nat, p: nat)
    requires v < mn && mj >= 1 && p >= 1
    ensures v / (p * (mn * mj)) == 0
  {
    MulMonotone(1, mj, mn);
    MulMonotone(1, p, mn * mj);
    DivisionUnique(v, p * (mn * mj), 0, v);
  }

  // Length in bits

  predicate HasBits(v: nat, n: nat) {
    v < Pow2(n) && (n > 0 ==> Pow2(n - 1) <= v)
  }

  lemma BitsUnique(v: nat, n: nat, n': nat)
    requires HasBits(v, n) && HasBits(v, n')
    ensures n == n'
  {
    if n < n' {
      Pow2Monotone(n, n' - 1);
    } else if n' < n {
      Pow2Monotone(n', n - 1);
    }
  }

  /** The length of a number whose highest limb in use is at pos, b bits long. */
  lemma TopLimbBits(s: seq<Limb>, pos: nat, b: nat)
    requires pos < |s| && b > 0 && HasBits(s[pos], b)
    requires forall j | pos < j < |s| :: s[j] == 0
    ensures HasBits(Value(s), 32 * pos + b)
  {
    hide Value, Modulus, Pow2;
    ValueSplit(s, pos + 1);
    ValueZero(s[pos + 1..]);
    ValueSnoc(s, pos);
    ValueBound(s[..pos]);
    ModulusPow2(pos);
    Pow2Add(32 * pos, b);
    Pow2Add(32 * pos, b - 1);
    Scaled(Value(s[..pos]), s[pos], Modulus(pos), Pow2(b - 1), Pow2(b));
  }

  lemma Scaled(v: nat, x: nat, m: nat, lo: nat, hi: nat)
    requires v < m && lo <= x < hi
    ensures m * lo <= v + x * m < m * hi
  {
    MulMonotone(lo, x, m);
    MulMonotone(x + 1, hi, m);
    assert (x + 1) * m == x * m + m;
  }

  // Comparison

  lemma CompareAt(s: seq<Limb>, t: seq<Limb>, i: nat)
    requires |s| == |t| && i < |s| && s[i] < t[i] && s[i + 1..] == t[i + 1..]
    ensures Value(s) < Value(t)
  {
    hide Value, Modulus;
    ValueSplit(s, i + 1);
    ValueSplit(t, i + 1);
    ValueSnoc(s, i);
    ValueSnoc(t, i);
    ValueBound(s[..i]);
    CarryOver(Value(s[..i]), s[i], t[i], Modulus(i));
  }

  lemma CarryOver(v: nat, x: nat, y: nat, m: nat)
    requires v < m && x < y
    ensures v + x * m < y * m
  {
    MulMonotone(x + 1, y, m);
    assert (x + 1) * m == x * m + m;
  }
}
