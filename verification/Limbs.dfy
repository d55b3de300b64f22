/** Numbers as little-endian sequences of 32-bit limbs, of any length. */
module Limbs {
  import opened Powers

  const BASE: nat := 0x1_0000_0000

  type Limb = x: int | 0 <= x < BASE

  /** The modulus of numbers of n limbs, 2 to the power of 32 n. */
  function Modulus(n: nat): (m: nat)
    ensures m >= 1
  {
    if n == 0 then 1 else BASE * Modulus(n - 1)
  }

  lemma WordPower()
    ensures Pow2(32) == BASE
  {
    Pow2Word(0);
  }

  lemma ModulusStep(n: nat)
    ensures Modulus(n + 1) == BASE * Modulus(n)
  {
  }

  lemma {:induction false} ModulusPow2(n: nat)
    ensures Modulus(n) == Pow2(32 * n)
  {
    if n > 0 {
      ModulusPow2(n - 1);
      Pow2Word(32 * (n - 1));
    }
  }

  lemma {:induction false} ModulusAdd(i: nat, j: nat)
    ensures Modulus(i + j) == Modulus(i) * Modulus(j)
  {
    ModulusPow2(i);
    ModulusPow2(j);
    ModulusPow2(i + j);
    Pow2Add(32 * i, 32 * j);
  }

  function Value(s: seq<Limb>): nat {
    if s == [] then 0 else s[0] + BASE * Value(s[1..])
  }

  lemma {:induction false} ValueBound(s: seq<Limb>)
    ensures Value(s) < Modulus(|s|)
  {
    if s != [] { ValueBound(s[1..]); }
  }

  /** The limbs of a number split at any place. */
  lemma {:induction false} ValueSplit(s: seq<Limb>, k: nat)
    requires k <= |s|
    ensures Value(s) == Value(s[..k]) + Modulus(k) * Value(s[k..])
    decreases k
  {
    if k == 0 {
      assert s[0..] == s;
    } else {
      ValueSplit(s[1..], k - 1);
      assert s[1..][..k - 1] == s[..k][1..];
      assert s[1..][k - 1..] == s[k..];
      MulAssociates(BASE, Modulus(k - 1), Value(s[k..]));
    }
  }

  /** Reading one more limb of a prefix. */
  lemma ValueSnoc(s: seq<Limb>, k: nat)
    requires k < |s|
    ensures Value(s[..k + 1]) == Value(s[..k]) + s[k] * Modulus(k)
  {
    var t := s[..k + 1];
    ValueSplit(t, k);
    assert t[..k] == s[..k] && t[k..] == [s[k]];
    assert Value([s[k]]) == s[k] + BASE * Value([s[k]][1..]);
  }

  lemma ValueWhole(s: seq<Limb>)
    ensures s[..|s|] == s && Value(s[..|s|]) == Value(s)
  {
    assert s[..|s|] == s;
  }

  lemma {:induction false} ValueZero(s: seq<Limb>)
    requires forall i | 0 <= i < |s| :: s[i] == 0
    ensures Value(s) == 0
  {
    if s != [] { ValueZero(s[1..]); }
  }

  lemma ValueUpdate(s: seq<Limb>, k: nat, x: Limb)
    requires k < |s|
    ensures Value(s[k := x]) == Value(s) + (x - s[k]) * Modulus(k)
  {
    var t := s[k := x];
    ValueSplit(s, k + 1);
    ValueSplit(t, k + 1);
    ValueSnoc(s, k);
    ValueSnoc(t, k);
    assert t[k + 1..] == s[k + 1..] && t[..k] == s[..k];
    assert (x - s[k]) * Modulus(k) == x * Modulus(k) - s[k] * Modulus(k);
  }

  /** A total kept as limbs plus an outgoing carry is the total modulo the modulus. */
  lemma ModuloCarry(s: seq<Limb>, carry: int, total: int)
    requires Value(s) + carry * Modulus(|s|) == total
    ensures Value(s) == total % Modulus(|s|)
  {
    ValueBound(s);
    DivisionUnique(total, Modulus(|s|), carry, Value(s));
  }

  /** Splitting a column total into its limb and its carry. */
  lemma CarryStep(n: nat, k: nat)
    ensures (n % BASE) * Modulus(k) + (n / BASE) * Modulus(k + 1) == n * Modulus(k)
  {
    var m, lo, hi := Modulus(k), n % BASE, n / BASE;
    assert n == lo + BASE * hi;
    assert hi * (BASE * m) == (BASE * hi) * m;
    assert (lo + BASE * hi) * m == lo * m + (BASE * hi) * m;
  }

  lemma Distribute3(a: int, b: int, c: int, m: int)
    ensures (a + b + c) * m == a * m + b * m + c * m
  {
  }

  // Addition, complement and negation

  /** The i lowest limbs of p and q sum to those of s with a carry out. */
  ghost predicate AddedTo(p: seq<Limb>, q: seq<Limb>, s: seq<Limb>, carry: nat, i: nat) {
    && i <= |p| == |q| == |s|
    && Value(s[..i]) + carry * Modulus(i) == Value(p[..i]) + Value(q[..i])
  }

  lemma AddStart(p: seq<Limb>, q: seq<Limb>, s: seq<Limb>)
    requires |p| == |q| == |s|
    ensures AddedTo(p, q, s, 0, 0)
  {
  }

  lemma AddStep(p: seq<Limb>, q: seq<Limb>, before: seq<Limb>, s: seq<Limb>, carry: nat, i: nat)
    requires AddedTo(p, q, before, carry, i) && i < |p| == |s| && s[..i] == before[..i]
    requires s[i] == (carry + p[i] + q[i]) % BASE
    ensures AddedTo(p, q, s, (carry + p[i] + q[i]) / BASE, i + 1)
  {
    ValueSnoc(p, i);
    ValueSnoc(q, i);
    ValueSnoc(s, i);
    CarryStep(carry + p[i] + q[i], i);
    Distribute3(carry, p[i], q[i], Modulus(i));
  }

  lemma AddDone(p: seq<Limb>, q: seq<Limb>, s: seq<Limb>, carry: nat)
    requires AddedTo(p, q, s, carry, |p|)
    ensures Value(s) == (Value(p) + Value(q)) % Modulus(|p|)
  {
    hide Value, Modulus;
    ValueWhole(p);
    ValueWhole(q);
    ValueWhole(s);
    ModuloCarry(s, carry, Value(p) + Value(q));
  }

  lemma {:induction false} ComplementValue(s: seq<Limb>, t: seq<Limb>)
    requires |s| == |t| && forall i | 0 <= i < |s| :: t[i] == BASE - 1 - s[i]
    ensures Value(t) == Modulus(|s|) - 1 - Value(s)
  {
    if s != [] { ComplementValue(s[1..], t[1..]); }
  }

  /** Limbs that were all ones become zero when the carry of an increment passes them. */
  lemma {:induction false} OnesValue(s: seq<Limb>)
    requires forall i | 0 <= i < |s| :: s[i] == BASE - 1
    ensures Value(s) == Modulus(|s|) - 1
  {
    if s != [] { OnesValue(s[1..]); }
  }

  lemma {:induction false} IncrementValue(s: seq<Limb>, t: seq<Limb>, i: nat)
    requires |s| == |t| && i <= |s|
    requires forall j | 0 <= j < i :: s[j] == BASE - 1 && t[j] == 0
    requires i < |s| ==> s[i] < BASE - 1 && t[i] == s[i] + 1
    requires i < |s| ==> s[i + 1..] == t[i + 1..]
    ensures Value(t) == (Value(s) + 1) % Modulus(|s|)
    decreases i
  {
    ValueBound(t);
    if i == |s| {
      OnesValue(s);
      ValueZero(t);
      DivisionUnique(Value(s) + 1, Modulus(|s|), 1, 0);
    } else {
      IncrementExact(s, t, i);
      DivisionUnique(Value(s) + 1, Modulus(|s|), 0, Value(t));
    }
  }

  lemma {:induction false} IncrementExact(s: seq<Limb>, t: seq<Limb>, i: nat)
    requires |s| == |t| && i < |s|
    requires forall j | 0 <= j < i :: s[j] == BASE - 1 && t[j] == 0
    requires s[i] < BASE - 1 && t[i] == s[i] + 1 && s[i + 1..] == t[i + 1..]
    ensures Value(t) == Value(s) + 1
    decreases i
  {
    if i > 0 {
      assert s[1..][i..] == s[i + 1..] && t[1..][i..] == t[i + 1..];
      IncrementExact(s[1..], t[1..], i - 1);
    }
  }

  /** Adding the two's complement subtracts. */
  lemma SubtractModulo(a: nat, b: nat, m: nat)
    requires a < m && b < m
    ensures (a + (m - b) % m) % m == if a >= b then a - b else a - b + m
  {
    if b == 0 {
      DivisionUnique(m, m, 1, 0);
      DivisionUnique(a, m, 0, a);
    } else {
      DivisionUnique(m - b, m, 0, m - b);
      if a >= b {
        DivisionUnique(a + (m - b), m, 1, a - b);
      } else {
        DivisionUnique(a + (m - b), m, 0, a - b + m);
      }
    }
  }

  // Multiplication

  /** A limb product with two limbs added fits in 64 bits. */
  lemma ColumnFits(carry: Limb, p: Limb, x: Limb, y: Limb)
    ensures carry + p + x * y < BASE * BASE
    ensures (carry + p + x * y) / BASE < BASE
  {
    assert x * y <= (BASE - 1) * (BASE - 1) by {
      MulMonotone(x, BASE - 1, y);
      MulMonotone(y, BASE - 1, BASE - 1);
    }
  }

  lemma ScaleColumn(b: int, x: int, carry: int, m: int, v: int)
    ensures (carry + b * x) * m == carry * m + (b * x) * m
    ensures b * (v + x * m) == b * v + (b * x) * m
  {
    MulAssociates(b, x, m);
  }

  ghost predicate ScaledTo(p: seq<Limb>, b: Limb, s: seq<Limb>, carry: nat, i: nat) {
    && i <= |p| == |s|
    && Value(s[..i]) + carry * Modulus(i) == b * Value(p[..i])
  }

  lemma ScaleStart(p: seq<Limb>, b: Limb, s: seq<Limb>)
    requires |p| == |s|
    ensures ScaledTo(p, b, s, 0, 0)
  {
  }

  lemma ScaleStep(p: seq<Limb>, b: Limb, before: seq<Limb>, s: seq<Limb>, carry: nat, i: nat)
    requires ScaledTo(p, b, before, carry, i) && i < |p| == |s| && s[..i] == before[..i]
    requires s[i] == (carry + b * p[i]) % BASE
    ensures carry + b * p[i] >= 0 && ScaledTo(p, b, s, (carry + b * p[i]) / BASE, i + 1)
  {
    ValueSnoc(p, i);
    ValueSnoc(s, i);
    CarryStep(carry + b * p[i], i);
    ScaleColumn(b, p[i], carry, Modulus(i), Value(p[..i]));
  }

  lemma ScaleDone(p: seq<Limb>, b: Limb, s: seq<Limb>, carry: nat)
    requires ScaledTo(p, b, s, carry, |p|)
    ensures Value(s) == (b * Value(p)) % Modulus(|p|)
  {
    hide Value, Modulus;
    ValueWhole(p);
    ValueWhole(s);
    ModuloCarry(s, carry, b * Value(p));
  }

  /** Row j of a product: limb x times v, moved up by j limbs. */
  ghost function Row(x: Limb, j: nat, v: nat): nat { (x * Modulus(j)) * v }

  /** Row j of a product adds x times q, moved up by j limbs, to p: its i lowest columns. */
  ghost predicate RowTo(p: seq<Limb>, q: seq<Limb>, x: Limb, j: nat, s: seq<Limb>, carry: nat, i: nat) {
    && |p| == |q| == |s| && i + j <= |p|
    && Value(s[..i + j]) + carry * Modulus(i + j) == Value(p[..i + j]) + Row(x, j, Value(q[..i]))
  }

  lemma RowStart(p: seq<Limb>, q: seq<Limb>, x: Limb, j: nat)
    requires |p| == |q| && j <= |p|
    ensures RowTo(p, q, x, j, p, 0, 0)
  {
    ValueZero(q[..0]);
  }

  lemma RowStep(p: seq<Limb>, q: seq<Limb>, x: Limb, j: nat, before: seq<Limb>, s: seq<Limb>, carry: nat, i: nat)
    requires RowTo(p, q, x, j, before, carry, i) && i + j < |p| == |s| && s[..i + j] == before[..i + j]
    requires s[i + j] == (carry + p[i + j] + x * q[i]) % BASE
    ensures carry + p[i + j] + x * q[i] >= 0 && RowTo(p, q, x, j, s, (carry + p[i + j] + x * q[i]) / BASE, i + 1)
  {
    hide Value, Modulus;
    ValueSnoc(p, i + j);
    ValueSnoc(q, i);
    ValueSnoc(s, i + j);
    CarryStep(carry + p[i + j] + x * q[i], i + j);
    Distribute3(carry, p[i + j], x * q[i], Modulus(i + j));
    ModulusAdd(i, j);
    RowColumn(x, q[i], Modulus(i), Modulus(j), Value(q[..i]));
  }

  lemma RowColumn(x: int, y: int, mi: int, mj: int, v: int)
    ensures (x * mj) * (v + y * mi) == (x * mj) * v + (x * y) * (mi * mj)
  {
    calc {
      (x * mj) * (y * mi);
      x * (mj * (y * mi));
      { assert mj * (y * mi) == y * (mi * mj); }
      x * (y * (mi * mj));
      (x * y) * (mi * mj);
    }
  }

  /** Row j adds x times q shifted by j limbs, modulo the modulus. */
  lemma RowDone(p: seq<Limb>, q: seq<Limb>, x: Limb, j: nat, s: seq<Limb>, carry: nat)
    requires j <= |p| && RowTo(p, q, x, j, s, carry, |p| - j)
    ensures Value(s) == (Value(p) + Row(x, j, Value(q))) % Modulus(|p|)
  {
    hide Modulus, Value, Row;
    assert p[..|p| - j + j] == p && s[..|p| - j + j] == s;
    RowModulo(p, q, x, j, s, carry);
  }

  lemma RowModulo(p: seq<Limb>, q: seq<Limb>, x: Limb, j: nat, s: seq<Limb>, carry: nat)
    requires |p| == |q| == |s| && j <= |p|
    requires Value(s) + carry * Modulus(|p|) == Value(p) + Row(x, j, Value(q[..|p| - j]))
    ensures Value(s) == (Value(p) + Row(x, j, Value(q))) % Modulus(|p|)
  {
    hide Modulus, Value;
    var k := |p| - j;
    ValueSplit(q, k);
    ModulusAdd(j, k);
    assert Modulus(|p|) == Modulus(j) * Modulus(k);
    RowTotal(x, Modulus(j), Modulus(k), Value(q[..k]), Value(q[k..]), Value(s), Value(p), carry);
    ModuloCarry(s, carry + x * Value(q[k..]), Value(p) + Row(x, j, Value(q)));
  }

  lemma RowTotal(x: int, mj: int, mk: int, v: int, w: int, s: int, p: int, carry: int)
    requires s + carry * (mj * mk) == p + (x * mj) * v
    ensures s + (carry + x * w) * (mj * mk) == p + (x * mj) * (v + mk * w)
  {
    RowLoss(x, mj, mk, v, w);
    Distribute3(carry, x * w, 0, mj * mk);
  }

  lemma RowLoss(x: int, mj: int, mk: int, v: int, w: int)
    ensures (x * mj) * (v + mk * w) == (x * mj) * v + (x * w) * (mj * mk)
  {
    calc {
      (x * mj) * (mk * w);
      x * (mj * (mk * w));
      { assert mj * (mk * w) == w * (mj * mk); }
      x * (w * (mj * mk));
      (x * w) * (mj * mk);
    }
  }

  /** The rows done so far, with one more row. */
  lemma RowsSum(a: seq<Limb>, b: nat, s: nat, j: nat, m: nat)
    requires j < |a| && m >= 1 && s == (Value(a[..j]) * b) % m
    ensures (s + Row(a[j], j, b)) % m == (Value(a[..j + 1]) * b) % m
  {
    ValueSnoc(a, j);
    var v, r := Value(a[..j]), a[j] * Modulus(j);
    assert (v + r) * b == v * b + r * b;
    var q := (v * b) / m;
    assert v * b == q * m + s;
    var t := s + r * b;
    DivisionUnique(t + q * m, m, q + t / m, t % m) by {
      assert (q + t / m) * m == q * m + (t / m) * m;
    }
  }
}
