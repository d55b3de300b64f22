/** Shift-and-subtract division: the quotient built one bit at a time from the top. */
module LongDivision {
  import opened Limbs
  import opened Powers
  import opened Shifts

  /** How many of the n lowest bits of a number lie in limb j. */
  function Low(n: nat, j: nat): (r: nat)
    ensures r <= 32
  {
    if n <= 32 * j then 0 else if n - 32 * j >= 32 then 32 else n - 32 * j
  }

  /** The n lowest bits are zero. */
  ghost predicate LowClear(s: seq<Limb>, n: nat) {
    forall j | 0 <= j < |s| :: LimbClear(s[j], Low(n, j))
  }

  ghost predicate LimbClear(x: Limb, b: nat) { x % Pow2(b) == 0 }

  lemma ZeroClear(s: seq<Limb>, n: nat)
    requires forall j | 0 <= j < |s| :: s[j] == 0
    ensures LowClear(s, n)
  {
    forall j | 0 <= j < |s| ensures LimbClear(s[j], Low(n, j)) {
      DivisionUnique(0, Pow2(Low(n, j)), 0, 0);
    }
  }

  lemma FewerClear(x: Limb, t: nat)
    requires LimbClear(x, t + 1)
    ensures LimbClear(x, t)
  {
    var q, p := x / Pow2(t + 1), Pow2(t);
    assert x == q * (2 * p);
    MulAssociates(q, 2, p);
    DivisionUnique(x, p, q * 2, 0);
  }

  lemma ClearDown(s: seq<Limb>, n: nat)
    requires LowClear(s, n + 1)
    ensures LowClear(s, n)
  {
    hide LimbClear;
    forall j | 0 <= j < |s| ensures LimbClear(s[j], Low(n, j)) {
      assert LimbClear(s[j], Low(n + 1, j));
      if Low(n, j) != Low(n + 1, j) { FewerClear(s[j], Low(n, j)); }
    }
  }

  /** Setting bit n of a number whose bits up to n are zero adds 2 to the power of n. */
  lemma SetBit(s: seq<Limb>, n: nat)
    requires n / 32 < |s| && LowClear(s, n + 1)
    ensures var x := Or(s[n / 32], Pow2(n % 32));
      && x < BASE
      && Value(s[n / 32 := x]) == Value(s) + Pow2(n)
      && LowClear(s[n / 32 := x], n)
  {
    hide LimbClear, LowClear, Or, Pow2, Value, Modulus;
    var j, t := n / 32, n % 32;
    assert Low(n + 1, j) == t + 1;
    LimbOf(s, n + 1, j);
    OrBit(s[j], t);
    ValueUpdate(s, j, s[j] + Pow2(t));
    ShiftPower(n);
    ClearDown(s, n);
    ClearUpdate(s, n, j, s[j] + Pow2(t));
  }

  lemma LimbOf(s: seq<Limb>, n: nat, j: nat)
    requires LowClear(s, n) && j < |s|
    ensures LimbClear(s[j], Low(n, j))
  {
  }

  lemma ClearUpdate(s: seq<Limb>, n: nat, j: nat, x: Limb)
    requires LowClear(s, n) && j < |s| && LimbClear(x, Low(n, j))
    ensures LowClear(s[j := x], n)
  {
  }

  lemma OrBit(x: Limb, t: nat)
    requires t < 32 && LimbClear(x, t + 1)
    ensures Or(x, Pow2(t)) == x + Pow2(t) < BASE
    ensures LimbClear(x + Pow2(t), t)
  {
    hide Or;
    var p := Pow2(t);
    OrDisjoint(p, x, t + 1);
    WordPower();
    Pow2Add(t + 1, 31 - t);
    JoinFits(p, x, Pow2(t + 1), Pow2(31 - t));
    FewerClear(x, t);
    NextMultiple(x, p);
  }

  lemma NextMultiple(x: nat, p: nat)
    requires p >= 1 && x % p == 0
    ensures (x + p) % p == 0
  {
    assert (x / p + 1) * p == (x / p) * p + p;
    DivisionUnique(x + p, p, x / p + 1, 0);
  }

  /** The dividend and the aligned divisor start within a factor of two. */
  lemma Aligned(num: nat, div: nat, n: nat, d: nat, limbs: nat)
    requires HasBits(num, n) && HasBits(div, d) && 0 < d <= n && num < Modulus(limbs)
    ensures Remains(num, div, 0, num, n - d + 1)
    ensures Moved(div, n - d) < Modulus(limbs)
    ensures (div * Pow2(n - d)) % Modulus(limbs) == Moved(div, n - d)
    ensures n <= 32 * limbs
  {
    hide Pow2, Modulus;
    Pow2Add(d - 1, n - d + 1);
    MulMonotone(Pow2(d - 1), div, Pow2(n - d + 1));
    Pow2Add(d, n - d);
    BelowMul(div, Pow2(d), Pow2(n - d));
    LengthFits(num, n, limbs);
    DivisionUnique(Moved(div, n - d), Modulus(limbs), 0, Moved(div, n - d));
  }

  lemma BelowMul(x: nat, y: nat, p: nat)
    requires x < y && p >= 1
    ensures x * p < y * p
  {
    MulMonotone(x + 1, y, p);
    assert (x + 1) * p == x * p + p;
  }

  lemma LengthFits(num: nat, n: nat, limbs: nat)
    requires HasBits(num, n) && num < Modulus(limbs)
    ensures Pow2(n) <= Modulus(limbs) && n <= 32 * limbs
  {
    ModulusPow2(limbs);
    if n > 32 * limbs {
      Pow2Monotone(32 * limbs, n - 1);
      assert false;
    }
    Pow2Monotone(n, 32 * limbs);
  }

  /** The divisor moved up. */
  ghost function Moved(div: nat, shift: nat): nat { div * Pow2(shift) }

  /** What is left of the dividend, below the divisor moved up by the bits still to find. */
  ghost predicate Remains(whole: nat, div: nat, quotient: nat, num: nat, left: nat) {
    num + div * quotient == whole && num < Moved(div, left)
  }

  /** One step: the moved divisor is subtracted, or not, and one bit fewer is left. */
  lemma Step(whole: nat, div: nat, quotient: nat, num: nat, shift: nat)
    requires Remains(whole, div, quotient, num, shift + 1)
    ensures num >= Moved(div, shift) ==> Remains(whole, div, quotient + Pow2(shift), num - Moved(div, shift), shift)
    ensures num < Moved(div, shift) ==> Remains(whole, div, quotient, num, shift)
  {
    assert div * (2 * Pow2(shift)) == 2 * (div * Pow2(shift));
    assert div * (quotient + Pow2(shift)) == div * quotient + div * Pow2(shift);
  }

  lemma Halve(div: nat, shift: nat)
    requires shift > 0
    ensures Moved(div, shift) / Pow2(1) == Moved(div, shift - 1)
  {
    assert Pow2(1) == 2 * Pow2(0) == 2;
    assert div * (2 * Pow2(shift - 1)) == 2 * (div * Pow2(shift - 1));
  }

  lemma Found(whole: nat, div: nat, quotient: nat, num: nat)
    requires Remains(whole, div, quotient, num, 0)
    ensures div > 0 && quotient == whole / div
  {
    assert Pow2(0) == 1;
    DivisionUnique(whole, div, quotient, num);
  }
}
