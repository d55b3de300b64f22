/** Numbers as big-endian digit sequences in any base, without and with leading zeroes. */
module Digits {
  import opened Powers

  function Power(b: nat, k: nat): nat {
    if k == 0 then 1 else b * Power(b, k - 1)
  }

  lemma {:induction false} PowerPositive(b: nat, k: nat)
    requires b >= 1
    ensures Power(b, k) >= 1
  {
    if k > 0 {
      PowerPositive(b, k - 1);
      MulMonotone(1, b, Power(b, k - 1));
    }
  }

  lemma {:induction false} PowerAdd(b: nat, i: nat, j: nat)
    ensures Power(b, i + j) == Power(b, i) * Power(b, j)
    decreases i
  {
    if i > 0 {
      PowerAdd(b, i - 1, j);
      MulAssociates(b, Power(b, i - 1), Power(b, j));
    }
  }

  lemma {:induction false} PowerMonotone(b: nat, i: nat, j: nat)
    requires b >= 1 && i <= j
    ensures Power(b, i) <= Power(b, j)
    decreases j
  {
    if i < j {
      PowerMonotone(b, i, j - 1);
      PowerPositive(b, j - 1);
      MulMonotone(1, b, Power(b, j - 1));
    }
  }

  lemma Products(a: nat, b: nat, c: nat, d: nat)
    requires a <= b && c <= d
    ensures a * c <= b * d
  {
    MulMonotone(a, b, c);
    MulMonotone(c, d, b);
    assert b * c == c * b && b * d == d * b;
  }

  /** A bound on one power bounds all its multiples. */
  lemma {:induction false} PowerRatio(a: nat, p: nat, b: nat, q: nat, n: nat)
    requires Power(a, p) <= Power(b, q)
    ensures Power(a, p * n) <= Power(b, q * n)
    decreases n
  {
    if n > 0 {
      PowerRatio(a, p, b, q, n - 1);
      Split(p, n);
      Split(q, n);
      PowerAdd(a, p, p * (n - 1));
      PowerAdd(b, q, q * (n - 1));
      Products(Power(a, p), Power(b, q), Power(a, p * (n - 1)), Power(b, q * (n - 1)));
    }
  }

  lemma Split(p: nat, n: nat)
    requires n > 0
    ensures p * n == p + p * (n - 1)
  {
  }

  // Digits

  ghost predicate DigitsOf(b: nat, s: seq<nat>) {
    forall i | 0 <= i < |s| :: s[i] < b
  }

  function Num(b: nat, s: seq<nat>): nat {
    if s == [] then 0 else Num(b, s[..|s| - 1]) * b + s[|s| - 1]
  }

  /** A digit put in front. */
  lemma {:induction false} NumCons(b: nat, x: nat, s: seq<nat>)
    ensures Num(b, [x] + s) == x * Power(b, |s|) + Num(b, s)
    decreases |s|
  {
    var t := [x] + s;
    if s == [] {
      assert t[..|t| - 1] == [];
      assert Num(b, t[..|t| - 1]) == 0;
    } else {
      var front := s[..|s| - 1];
      assert t[..|t| - 1] == [x] + front;
      NumCons(b, x, front);
      ConsColumn(b, x, Power(b, |front|), Num(b, front));
    }
  }

  lemma ConsColumn(b: nat, x: nat, p: nat, v: nat)
    ensures (x * p + v) * b == x * (b * p) + v * b
  {
    calc {
      (x * p) * b;
      x * (p * b);
      x * (b * p);
    }
  }

  lemma {:induction false} NumBound(b: nat, s: seq<nat>)
    requires DigitsOf(b, s) && b >= 1
    ensures Num(b, s) < Power(b, |s|)
  {
    if s != [] {
      var front := s[..|s| - 1];
      NumBound(b, front);
      MulMonotone(Num(b, front) + 1, Power(b, |front|), b);
      BoundColumn(b, Num(b, front), Power(b, |front|));
    }
  }

  lemma BoundColumn(b: nat, v: nat, p: nat)
    requires (v + 1) * b <= p * b
    ensures v * b + b <= b * p
  {
  }

  lemma {:induction false} LeadingZeroes(b: nat, z: nat, s: seq<nat>)
    requires z <= |s| && forall i | 0 <= i < z :: s[i] == 0
    ensures Num(b, s) == Num(b, s[z..])
    decreases z
  {
    if z > 0 {
      NumCons(b, 0, s[1..]);
      assert s == [0] + s[1..];
      LeadingZeroes(b, z - 1, s[1..]);
      assert s[1..][z - 1..] == s[z..];
    } else {
      assert s[0..] == s;
    }
  }

  // Without leading zeroes

  /** The digits of a number, none for zero. */
  function Minimal(b: nat, v: nat): seq<nat>
    requires b >= 2
  {
    if v == 0 then []
    else
      QuotientLess(v, b);
      Minimal(b, v / b) + [v % b]
  }

  lemma QuotientLess(v: nat, b: nat)
    requires v > 0 && b >= 2
    ensures 0 <= v / b < v
  {
    var q := v / b;
    QuotientSmaller(v, b);
    MulMonotone(2, b, q);
    DivisionBounds(v, b);
    assert b * q == q * b;
  }

  lemma Parts(v: nat, b: nat)
    requires b >= 1
    ensures v == (v / b) * b + v % b && 0 <= v % b < b && v / b >= 0
  {
    QuotientSmaller(v, b);
  }

  lemma NumSnoc(b: nat, s: seq<nat>, x: nat)
    ensures Num(b, s + [x]) == Num(b, s) * b + x
  {
    var t := s + [x];
    assert t[..|t| - 1] == s;
  }

  lemma {:induction false} MinimalFacts(b: nat, v: nat)
    requires b >= 2
    ensures DigitsOf(b, Minimal(b, v)) && Num(b, Minimal(b, v)) == v
    ensures v > 0 ==> Minimal(b, v) != [] && Minimal(b, v)[0] != 0
  {
    if v > 0 {
      QuotientLess(v, b);
      Parts(v, b);
      var q, r := v / b, v % b;
      MinimalFacts(b, q);
      NumSnoc(b, Minimal(b, q), r);
      assert Minimal(b, v) == Minimal(b, q) + [r];
    }
  }

  /** Digits that do not start with zero are the digits of their number. */
  lemma {:induction false} MinimalUnique(b: nat, s: seq<nat>)
    requires b >= 2 && DigitsOf(b, s) && (s != [] ==> s[0] != 0)
    ensures Minimal(b, Num(b, s)) == s
  {
    if s != [] {
      var front, x := s[..|s| - 1], s[|s| - 1];
      assert front != [] ==> front[0] == s[0];
      MinimalUnique(b, front);
      DivisionUnique(Num(b, s), b, Num(b, front), x);
      NonZeroNum(b, s);
    }
  }

  lemma {:induction false} NonZeroNum(b: nat, s: seq<nat>)
    requires b >= 1 && s != [] && s[0] != 0
    ensures Num(b, s) > 0
  {
    assert s == [s[0]] + s[1..];
    NumCons(b, s[0], s[1..]);
    PowerPositive(b, |s| - 1);
    MulMonotone(1, s[0], Power(b, |s| - 1));
  }

  /** Skipping leading zeroes. */
  function Stripped(s: seq<nat>): seq<nat> {
    if s != [] && s[0] == 0 then Stripped(s[1..]) else s
  }

  lemma {:induction false} StrippedMinimal(b: nat, s: seq<nat>)
    requires b >= 2 && DigitsOf(b, s)
    ensures Stripped(s) == Minimal(b, Num(b, s))
  {
    if s != [] && s[0] == 0 {
      assert s == [0] + s[1..];
      NumCons(b, 0, s[1..]);
      StrippedMinimal(b, s[1..]);
    } else {
      MinimalUnique(b, s);
    }
  }
}
