/** Powers of two, and division with remainder. */
module Powers {

  function Pow2(k: nat): (r: nat)
    ensures r >= 1
  {
    if k == 0 then 1 else 2 * Pow2(k - 1)
  }

  lemma {:induction false} Pow2Add(i: nat, j: nat)
    ensures Pow2(i + j) == Pow2(i) * Pow2(j)
    decreases j
  {
    if j > 0 {
      Pow2Add(i, j - 1);
      assert Pow2(i) * (2 * Pow2(j - 1)) == 2 * (Pow2(i) * Pow2(j - 1));
    }
  }

  lemma {:induction false} Pow2Monotone(i: nat, j: nat)
    requires i <= j
    ensures Pow2(i) <= Pow2(j)
    decreases j
  {
    if i < j { Pow2Monotone(i, j - 1); }
  }

  lemma Pow2Octet(k: nat)
    ensures Pow2(k + 8) == 256 * Pow2(k)
  {
    assert Pow2(k + 2) == 4 * Pow2(k);
    assert Pow2(k + 4) == 4 * Pow2(k + 2);
    assert Pow2(k + 6) == 4 * Pow2(k + 4);
    assert Pow2(k + 8) == 4 * Pow2(k + 6);
  }

  lemma Pow2Word(k: nat)
    ensures Pow2(k + 32) == 0x1_0000_0000 * Pow2(k)
  {
    Pow2Octet(k);
    Pow2Octet(k + 8);
    Pow2Octet(k + 16);
    Pow2Octet(k + 24);
  }

  lemma MulMonotone(a: nat, b: nat, d: nat)
    requires a <= b
    ensures a * d <= b * d
  {
  }

  lemma MulAssociates(a: int, b: int, c: int)
    ensures a * (b * c) == (a * b) * c
  {
  }

  lemma DivisionBounds(a: nat, d: nat)
    requires d >= 1
    ensures (a / d) * d <= a < (a / d + 1) * d
  {
  }

  /** A quotient and remainder in range are the ones of division. */
  lemma DivisionUnique(a: int, d: nat, q: int, r: int)
    requires 0 <= r < d && a == q * d + r
    ensures a / d == q && a % d == r
  {
    var q', r' := a / d, a % d;
    assert (q' - q) * d == r - r';
    MultipleSize(q' - q, d);
  }

  lemma MultipleSize(x: int, d: nat)
    ensures x >= 1 ==> x * d >= d
    ensures x <= -1 ==> x * d + d <= 0
  {
  }

  lemma QuotientSmaller(x: nat, d: nat)
    requires d >= 1
    ensures 0 <= x / d <= x
  {
    var q := x / d;
    assert x == q * d + x % d;
    MultipleSize(q, d);
    assert q >= 0;
    MulMonotone(1, d, q);
    assert d * q == q * d;
  }
}
