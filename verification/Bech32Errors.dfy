/** The remainder modulo the Bech32 generator as a value at three consecutive powers of a field
    element, and what follows: errors in up to three places are detected. */
module Bech32Errors {
  import opened Bech32Code
  import opened Bech32Field

  // Remainders as polynomials, and their values at the roots

  function Low(c: bv32): bv32 { c & 31 }
  function Rest(c: bv32): bv32 { c >> 5 }

  /** The value of the polynomial of the lowest n symbols, at the element m multiplies by. */
  function Eval(m: Columns, c: bv32, n: nat): bv32 {
    if n == 0 then 0 else Xor(Map(m, Eval(m, Rest(c), n - 1)), Low(c))
  }

  function Six(m: Columns, v: bv32): bv32 {
    Map(m, Map(m, Map(m, Map(m, Map(m, Map(m, v))))))
  }

  lemma PartsLinear(a: bv32, b: bv32)
    ensures Low(Xor(a, b)) == Xor(Low(a), Low(b)) && Rest(Xor(a, b)) == Xor(Rest(a), Rest(b))
  {
  }

  lemma {:induction false} EvalLinear(m: Columns, a: bv32, b: bv32, n: nat)
    ensures Eval(m, Xor(a, b), n) == Xor(Eval(m, a, n), Eval(m, b, n))
    decreases n
  {
    hide Map, Xor, Low, Rest;
    XorZero(0);
    if n > 0 {
      PartsLinear(a, b);
      EvalLinear(m, Rest(a), Rest(b), n - 1);
      var x, y := Eval(m, Rest(a), n - 1), Eval(m, Rest(b), n - 1);
      MapLinear(m, x, y);
      XorSwap(Map(m, x), Map(m, y), Low(a), Low(b));
    }
  }

  lemma {:induction false} EvalZero(m: Columns, n: nat)
    ensures Eval(m, 0, n) == 0
    decreases n
  {
    hide Map, Xor;
    if n > 0 {
      EvalZero(m, n - 1);
      assert Rest(0) == 0 && Low(0) == 0;
      MapZero(m);
      XorZero(0);
    }
  }

  lemma EvalAdd(m: Columns, c: bv32, c0: bv32, mask: bv32, k: bv32)
    ensures Eval(m, Add(c, c0, mask, k), 6) == Add(Eval(m, c, 6), c0, mask, Eval(m, k, 6))
  {
    hide Eval, Bit, Xor;
    EvalLinear(m, c, k, 6);
  }

  lemma SixAdd(m: Columns, c: bv32, c0: bv32, mask: bv32, k: bv32)
    ensures Six(m, Add(c, c0, mask, k)) == Add(Six(m, c), c0, mask, Six(m, k))
  {
    hide Map, Add;
    MapAdd(m, c, c0, mask, k);
    var c1, k1 := Map(m, c), Map(m, k);
    MapAdd(m, c1, c0, mask, k1);
    var c2, k2 := Map(m, c1), Map(m, k1);
    MapAdd(m, c2, c0, mask, k2);
    var c3, k3 := Map(m, c2), Map(m, k2);
    MapAdd(m, c3, c0, mask, k3);
    var c4, k4 := Map(m, c3), Map(m, k3);
    MapAdd(m, c4, c0, mask, k4);
    MapAdd(m, Map(m, c4), c0, mask, Map(m, k4));
  }

  lemma SixZero(m: Columns)
    ensures Six(m, 0) == 0
  {
    hide Map;
    MapZero(m);
  }

  /** The generator vanishes at the element m multiplies by: what Reduce adds for a leading
      coefficient has the value of the leading term. */
  predicate Root(m: Columns) {
    && Eval(m, 0x3b6a57b2, 6) == Six(m, 1)
    && Eval(m, 0x26508e6d, 6) == Six(m, 2)
    && Eval(m, 0x1ea119fa, 6) == Six(m, 4)
    && Eval(m, 0x3d4233dd, 6) == Six(m, 8)
    && Eval(m, 0x2a1462b3, 6) == Six(m, 16)
  }

  lemma SymbolBits(c0: bv32)
    requires c0 < 32
    ensures c0 == Add(Add(Add(Add(Add(0, c0, 1, 1), c0, 2, 2), c0, 4, 4), c0, 8, 8), c0, 16, 16)
  {
  }

  lemma ReduceValue(m: Columns, c0: bv32)
    requires Root(m) && c0 < 32
    ensures Eval(m, Reduce(0, c0), 6) == Six(m, c0)
  {
    hide Eval, Six, Add;
    SymbolBits(c0);
    EvalZero(m, 6);
    SixZero(m);
    var x1, y1 := Add(0, c0, 1, 0x3b6a57b2), Add(0, c0, 1, 1);
    EvalAdd(m, 0, c0, 1, 0x3b6a57b2); SixAdd(m, 0, c0, 1, 1);
    var x2, y2 := Add(x1, c0, 2, 0x26508e6d), Add(y1, c0, 2, 2);
    EvalAdd(m, x1, c0, 2, 0x26508e6d); SixAdd(m, y1, c0, 2, 2);
    var x3, y3 := Add(x2, c0, 4, 0x1ea119fa), Add(y2, c0, 4, 4);
    EvalAdd(m, x2, c0, 4, 0x1ea119fa); SixAdd(m, y2, c0, 4, 4);
    var x4, y4 := Add(x3, c0, 8, 0x3d4233dd), Add(y3, c0, 8, 8);
    EvalAdd(m, x3, c0, 8, 0x3d4233dd); SixAdd(m, y3, c0, 8, 8);
    EvalAdd(m, x4, c0, 16, 0x2a1462b3); SixAdd(m, y4, c0, 16, 16);
  }

  function Tail(c: bv32): bv32 { c & 0x1ffffff }
  function Head(c: bv32): bv32 { Top(c) << 25 }

  lemma Shifted(c: bv32, v: bv8)
    requires c < 0x40000000 && v < 32
    ensures var l := Xor(Lower(c), Wide(v)); Rest(l) == Tail(c) && Low(l) == Wide(v)
    ensures c == Xor(Tail(c), Head(c)) && Tail(c) < 0x2000000 && Top(c) < 32
  {
  }

  lemma RestRange(c: bv32)
    ensures c < 0x2000000 ==> Rest(c) < 0x100000
    ensures c < 0x100000 ==> Rest(c) < 0x8000
    ensures c < 0x8000 ==> Rest(c) < 0x400
    ensures c < 0x400 ==> Rest(c) < 0x20
    ensures c < 0x20 ==> Rest(c) == 0
  {
  }

  lemma EvalTail(m: Columns, c: bv32)
    requires c < 0x2000000
    ensures Eval(m, c, 6) == Eval(m, c, 5)
  {
    hide Map, Xor, Rest, Low;
    var c1 := Rest(c); RestRange(c);
    var c2 := Rest(c1); RestRange(c1);
    var c3 := Rest(c2); RestRange(c2);
    var c4 := Rest(c3); RestRange(c3);
    RestRange(c4);
    EvalZero(m, 1);
    EvalZero(m, 0);
    assert Eval(m, c4, 2) == Eval(m, c4, 1);
    assert Eval(m, c3, 3) == Eval(m, c3, 2);
    assert Eval(m, c2, 4) == Eval(m, c2, 3);
    assert Eval(m, c1, 5) == Eval(m, c1, 4);
  }

  lemma HeadParts(x: bv32)
    requires x < 32
    ensures Rest(x << 25) == x << 20 && Low(x << 25) == 0
    ensures Rest(x << 20) == x << 15 && Low(x << 20) == 0
    ensures Rest(x << 15) == x << 10 && Low(x << 15) == 0
    ensures Rest(x << 10) == x << 5 && Low(x << 10) == 0
    ensures Rest(x << 5) == x && Low(x << 5) == 0
    ensures Low(x) == x && Rest(x) == 0
  {
  }

  lemma EvalShift(m: Columns, c: bv32, n: nat)
    requires n > 0 && Low(c) == 0
    ensures Eval(m, c, n) == Map(m, Eval(m, Rest(c), n - 1))
  {
    hide Map, Xor, Low, Rest;
    XorZero(Map(m, Eval(m, Rest(c), n - 1)));
  }

  lemma EvalHead(m: Columns, x: bv32)
    requires x < 32
    ensures Map(m, Eval(m, x << 25, 6)) == Six(m, x)
  {
    hide Map, Xor, Low, Rest, Eval;
    HeadParts(x);
    EvalShift(m, x << 25, 6);
    EvalShift(m, x << 20, 5);
    EvalShift(m, x << 15, 4);
    EvalShift(m, x << 10, 3);
    EvalShift(m, x << 5, 2);
    EvalOne(m, x);
  }

  lemma EvalOne(m: Columns, x: bv32)
    requires Low(x) == x && Rest(x) == 0
    ensures Eval(m, x, 1) == x
  {
    hide Map, Xor, Low, Rest;
    EvalZero(m, 0);
    MapZero(m);
    XorZero(x);
  }

  /** Taking in a symbol multiplies the value by the root and adds the symbol. */
  lemma EvalStep(m: Columns, c: bv32, v: bv8)
    requires Root(m) && c < 0x40000000 && v < 32
    ensures Eval(m, Step(c, v), 6) == Xor(Map(m, Eval(m, c, 6)), Wide(v))
  {
    hide Map, Xor, Low, Rest, Eval, Reduce, Root, Tail, Head, Top, Lower, Wide, Six;
    var l, t := Xor(Lower(c), Wide(v)), Top(c);
    Shifted(c, v);
    XorZero(l);
    XorZero(t);
    ReduceLinear(l, 0, 0, t);
    ReduceNothing(l);
    EvalLinear(m, l, Reduce(0, t), 6);
    ReduceValue(m, t);
    var low := Eval(m, Tail(c), 5);
    EvalFirst(m, l, 6);
    EvalLinear(m, Tail(c), Head(c), 6);
    EvalTail(m, Tail(c));
    MapLinear(m, low, Eval(m, Head(c), 6));
    HeadIs(m, c);
    XorAssociates(Map(m, low), Wide(v), Six(m, t));
    XorCommutes(Wide(v), Six(m, t));
    XorAssociates(Map(m, low), Six(m, t), Wide(v));
  }

  lemma EvalFirst(m: Columns, c: bv32, n: nat)
    requires n > 0
    ensures Eval(m, c, n) == Xor(Map(m, Eval(m, Rest(c), n - 1)), Low(c))
  {
  }

  lemma HeadIs(m: Columns, c: bv32)
    requires Top(c) < 32
    ensures Map(m, Eval(m, Head(c), 6)) == Six(m, Top(c))
  {
    hide Map, Eval, Six, Top;
    EvalHead(m, Top(c));
  }

  // The symbols are a field of their own, and everything here commutes with multiplying by its
  // element 2, so that the generator need be evaluated only once at each root

  /** Both symbols of a pair times 2. */
  const DOUBLE := Columns(0x2, 0x4, 0x8, 0x10, 0x9, 0x40, 0x80, 0x100, 0x200, 0x120)

  /** Every symbol of c times 2. */
  function Scale(c: bv32): bv32 {
    var h := (c >> 4) & 0x2108421;
    ((c & 0x1ef7bdef) << 1) ^ h ^ (h << 3)
  }

  lemma ScaleRest(c: bv32)
    requires c < 0x40000000
    ensures Rest(Scale(c)) == Scale(Rest(c)) && Rest(c) < 0x40000000
    ensures Low(Scale(c)) == Scale(Low(c)) && Low(c) < 32
  {
  }

  lemma ScaleSymbol(v: bv32)
    requires v < 32
    ensures Scale(v) == Map(DOUBLE, v)
  {
  }

  lemma DoubleTurn()
    ensures After(GAMMA1, DOUBLE) == After(DOUBLE, GAMMA1)
  {
  }

  lemma {:induction false} TurnsDouble(n: nat, v: bv32)
    ensures Turns(n, Map(DOUBLE, v)) == Map(DOUBLE, Turns(n, v))
  {
    hide Map, After;
    if n > 0 {
      TurnsDouble(n - 1, v);
      DoubleTurn();
      MapAfter(GAMMA1, DOUBLE, Turns(n - 1, v));
      MapAfter(DOUBLE, GAMMA1, Turns(n - 1, v));
    }
  }

  lemma MapDouble(m: Columns, n: nat, v: bv32)
    requires Raises(m, n)
    ensures Map(m, Map(DOUBLE, v)) == Map(DOUBLE, Map(m, v))
  {
    hide Map, Turns;
    TurnsDouble(n, v);
    assert Map(m, v) == Turns(n, v);
  }

  lemma {:induction false} EvalScale(m: Columns, t: nat, c: bv32, n: nat)
    requires Raises(m, t) && c < 0x40000000
    ensures Eval(m, Scale(c), n) == Map(DOUBLE, Eval(m, c, n))
    decreases n
  {
    hide Map, Xor, Low, Rest, Scale, Raises;
    if n == 0 {
      MapZero(DOUBLE);
    } else {
      ScaleRest(c);
      ScaleSymbol(Low(c));
      EvalScale(m, t, Rest(c), n - 1);
      MapDouble(m, t, Eval(m, Rest(c), n - 1));
      MapLinear(DOUBLE, Map(m, Eval(m, Rest(c), n - 1)), Low(c));
    }
  }

  lemma SixDouble(m: Columns, t: nat, v: bv32)
    requires Raises(m, t)
    ensures Six(m, Map(DOUBLE, v)) == Map(DOUBLE, Six(m, v))
  {
    hide Map, Raises;
    MapDouble(m, t, v);
    var v1 := Map(m, v);
    MapDouble(m, t, v1);
    var v2 := Map(m, v1);
    MapDouble(m, t, v2);
    var v3 := Map(m, v2);
    MapDouble(m, t, v3);
    var v4 := Map(m, v3);
    MapDouble(m, t, v4);
    MapDouble(m, t, Map(m, v4));
  }

  lemma ScaledGenerator()
    ensures Scale(0x3b6a57b2) == 0x26508e6d && Scale(0x26508e6d) == 0x1ea119fa
    ensures Scale(0x1ea119fa) == 0x3d4233dd && Scale(0x3d4233dd) == 0x2a1462b3
    ensures Map(DOUBLE, 1) == 2 && Map(DOUBLE, 2) == 4 && Map(DOUBLE, 4) == 8 && Map(DOUBLE, 8) == 16
  {
  }

  lemma RootScales(m: Columns, t: nat)
    requires Raises(m, t) && Eval(m, 0x3b6a57b2, 6) == Six(m, 1)
    ensures Root(m)
  {
    hide Scale, Map, Eval, Six, Raises;
    ScaledGenerator();
    EvalScale(m, t, 0x3b6a57b2, 6); SixDouble(m, t, 1);
    EvalScale(m, t, 0x26508e6d, 6); SixDouble(m, t, 2);
    EvalScale(m, t, 0x1ea119fa, 6); SixDouble(m, t, 4);
    EvalScale(m, t, 0x3d4233dd, 6); SixDouble(m, t, 8);
  }

  /** The generator's lower part evaluated symbol by symbol. */
  lemma Horner(m: Columns, x5: bv32, x4: bv32, x3: bv32, x2: bv32, x1: bv32, x0: bv32)
    requires x5 == 29 && Xor(Map(m, x5), 22) == x4 && Xor(Map(m, x4), 20) == x3 && Xor(Map(m, x3), 21) == x2
    requires Xor(Map(m, x2), 29) == x1 && Xor(Map(m, x1), 18) == x0
    ensures Eval(m, 0x3b6a57b2, 6) == x0
  {
    hide Map, Eval, Xor, Rest, Low;
    GeneratorParts();
    EvalOne(m, 29);
    EvalFirst(m, 0x3b6, 2);
    EvalFirst(m, 0x76d4, 3);
    EvalFirst(m, 0xeda95, 4);
    EvalFirst(m, 0x1db52bd, 5);
    EvalFirst(m, 0x3b6a57b2, 6);
  }

  lemma GeneratorParts()
    ensures Rest(0x3b6a57b2) == 0x1db52bd && Low(0x3b6a57b2) == 18
    ensures Rest(0x1db52bd) == 0xeda95 && Low(0x1db52bd) == 29
    ensures Rest(0xeda95) == 0x76d4 && Low(0xeda95) == 21
    ensures Rest(0x76d4) == 0x3b6 && Low(0x76d4) == 20
    ensures Rest(0x3b6) == 29 && Low(0x3b6) == 22
    ensures Rest(29) == 0 && Low(29) == 29
  {
  }

  lemma Values24()
    ensures Xor(Map(GAMMA24, 0x1d), 22) == 0x1e8 && Xor(Map(GAMMA24, 0x1e8), 20) == 0x1e8 && Xor(Map(GAMMA24, 0x1e8), 21) == 0x1e9
    ensures Xor(Map(GAMMA24, 0x1e9), 29) == 0x169 && Xor(Map(GAMMA24, 0x169), 18) == 0x325
    ensures Map(GAMMA24, 0x1) == 0x88 && Map(GAMMA24, 0x88) == 0x371 && Map(GAMMA24, 0x371) == 0x304
    ensures Map(GAMMA24, 0x304) == 0xe3 && Map(GAMMA24, 0xe3) == 0xf0 && Map(GAMMA24, 0xf0) == 0x325
  {
  }

  lemma Root24()
    ensures Root(GAMMA24)
  {
    hide Map, Raises, Xor, Eval;
    Values24();
    Horner(GAMMA24, 0x1d, 0x1e8, 0x1e8, 0x1e9, 0x169, 0x325);
    RootPowers();
    RootScales(GAMMA24, 24);
  }

  lemma Values25()
    ensures Xor(Map(GAMMA25, 0x1d), 22) == 0x2a1 && Xor(Map(GAMMA25, 0x2a1), 20) == 0x7c && Xor(Map(GAMMA25, 0x7c), 21) == 0x159
    ensures Xor(Map(GAMMA25, 0x159), 29) == 0x197 && Xor(Map(GAMMA25, 0x197), 18) == 0x82
    ensures Map(GAMMA25, 0x1) == 0x21e && Map(GAMMA25, 0x21e) == 0x1c5 && Map(GAMMA25, 0x1c5) == 0x3af
    ensures Map(GAMMA25, 0x3af) == 0x280 && Map(GAMMA25, 0x280) == 0x2d5 && Map(GAMMA25, 0x2d5) == 0x82
  {
  }

  lemma Root25()
    ensures Root(GAMMA25)
  {
    hide Map, Raises, Xor, Eval;
    Values25();
    Horner(GAMMA25, 0x1d, 0x2a1, 0x7c, 0x159, 0x197, 0x82);
    RootPowers();
    RootScales(GAMMA25, 25);
  }

  lemma Values26()
    ensures Xor(Map(GAMMA26, 0x1d), 22) == 0x258 && Xor(Map(GAMMA26, 0x258), 20) == 0xa0 && Xor(Map(GAMMA26, 0xa0), 21) == 0x245
    ensures Xor(Map(GAMMA26, 0x245), 29) == 0x2e7 && Xor(Map(GAMMA26, 0x2e7), 18) == 0x1fe
    ensures Map(GAMMA26, 0x1) == 0xa3 && Map(GAMMA26, 0xa3) == 0x3b5 && Map(GAMMA26, 0x3b5) == 0x15a
    ensures Map(GAMMA26, 0x15a) == 0x8e && Map(GAMMA26, 0x8e) == 0x20f && Map(GAMMA26, 0x20f) == 0x1fe
  {
  }

  lemma Root26()
    ensures Root(GAMMA26)
  {
    hide Map, Raises, Xor, Eval;
    Values26();
    Horner(GAMMA26, 0x1d, 0x258, 0xa0, 0x245, 0x2e7, 0x1fe);
    RootPowers();
    RootScales(GAMMA26, 26);
  }

  function Gamma(t: nat): Columns
    requires 24 <= t <= 26
  {
    if t == 24 then GAMMA24 else if t == 25 then GAMMA25 else GAMMA26
  }

  lemma GammaFacts(t: nat)
    requires 24 <= t <= 26
    ensures Root(Gamma(t)) && Raises(Gamma(t), t)
  {
    hide Root, Raises;
    RootPowers();
    Root24();
    Root25();
    Root26();
  }

  // Lists of symbols as polynomials

  /** The value of the list as a polynomial, after a value so far. */
  function Value(t: nat, a: bv32, d: seq<bv8>): bv32
    decreases |d|
  {
    if d == [] then a else Value(t, Xor(Turns(t, a), Wide(d[0])), d[1..])
  }

  /** A list and its remainder have the same value at each root. */
  lemma {:induction false} RemainderValue(t: nat, c: bv32, d: seq<bv8>)
    requires 24 <= t <= 26 && c < 0x40000000 && Symbols(d)
    ensures Eval(Gamma(t), Remainder(c, d), 6) == Value(t, Eval(Gamma(t), c, 6), d)
    decreases |d|
  {
    hide Eval, Step, Map, Turns, Wide, Xor, Root;
    if d != [] {
      var m := Gamma(t);
      GammaFacts(t);
      EvalStep(m, c, d[0]);
      StepRange(c, d[0]);
      assert Map(m, Eval(m, c, 6)) == Turns(t, Eval(m, c, 6));
      RemainderValue(t, Step(c, d[0]), d[1..]);
    }
  }

  lemma {:induction false} ValueSplit(t: nat, a: bv32, d: seq<bv8>)
    ensures Value(t, a, d) == Xor(Turns(t * |d|, a), Value(t, 0, d))
    decreases |d|
  {
    hide Turn, Xor, Wide;
    XorZero(a);
    if d != [] {
      var n, x, rest := t * |d[1..]|, Wide(d[0]), Value(t, 0, d[1..]);
      TurnsZero(t);
      XorZero(x);
      ValueSplit(t, Xor(Turns(t, a), x), d[1..]);
      ValueSplit(t, x, d[1..]);
      TurnsLinear(n, Turns(t, a), x);
      TurnsAdd(n, t, a);
      assert n + t == t * |d|;
      XorAssociates(Turns(n + t, a), Turns(n, x), rest);
    }
  }

  /** What a symbol with p symbols after it adds to the value of a list. */
  function Term(t: nat, p: nat, x: bv8): bv32 { Turns(t * p, Wide(x)) }

  /** Zeroes in front count nothing, and the first symbol its place. */
  lemma {:induction false} ValueFirst(t: nat, d: seq<bv8>, i: nat)
    requires i < |d| && Zeroes(d[..i])
    ensures Value(t, 0, d) == Xor(Term(t, |d| - 1 - i, d[i]), Value(t, 0, d[i + 1..]))
    decreases i
  {
    hide Turns, Xor;
    TurnsZero(t);
    XorZero(Wide(d[0]));
    if i == 0 {
      ValueSplit(t, Wide(d[0]), d[1..]);
    } else {
      assert d[..i][0] == 0 && d[1..][..i - 1] == d[..i][1..];
      assert d[1..][i..] == d[i + 1..];
      ValueFirst(t, d[1..], i - 1);
    }
  }

  lemma {:induction false} ValueZeroes(t: nat, d: seq<bv8>)
    requires Zeroes(d)
    ensures Value(t, 0, d) == 0
    decreases |d|
  {
    hide Turns, Xor;
    if d != [] {
      TurnsZero(t);
      XorZero(0);
      ValueZeroes(t, d[1..]);
    }
  }

  /** Zero everywhere but at three places. */
  ghost predicate OnlyAt(d: seq<bv8>, i: nat, j: nat, k: nat) {
    i < j < k < |d| && forall n | 0 <= n < |d| && n != i && n != j && n != k :: d[n] == 0
  }

  function Three(a: bv32, b: bv32, c: bv32): bv32 { Xor(a, Xor(b, c)) }

  lemma ValueOfThree(t: nat, d: seq<bv8>, i: nat, j: nat, k: nat)
    requires OnlyAt(d, i, j, k)
    ensures Value(t, 0, d) == Three(Term(t, |d| - 1 - i, d[i]), Term(t, |d| - 1 - j, d[j]), Term(t, |d| - 1 - k, d[k]))
  {
    hide Term, Xor, Value;
    ValueFirst(t, d, i);
    var e, f := d[i + 1..], d[j + 1..];
    ValueFirst(t, e, j - i - 1);
    assert e[j - i..] == f;
    ValueFirst(t, f, k - j - 1);
    assert f[k - j..] == d[k + 1..];
    ValueZeroes(t, d[k + 1..]);
    XorZero(Term(t, |d| - 1 - k, d[k]));
  }

  // Three places are told apart by three consecutive roots

  ghost predicate Apart(p: nat, q: nat) { p != q && p < q + 1023 && q < p + 1023 }

  /** Elements f, g and h at three places with sums zero at three consecutive powers of the places. */
  ghost predicate Vanish(p: nat, q: nat, r: nat, f: bv32, g: bv32, h: bv32) {
    && Three(f, g, h) == 0
    && Three(Turns(p, f), Turns(q, g), Turns(r, h)) == 0
    && Three(Turns(p, Turns(p, f)), Turns(q, Turns(q, g)), Turns(r, Turns(r, h))) == 0
  }

  lemma ThreeLinear(n: nat, a: bv32, b: bv32, c: bv32)
    ensures Turns(n, Three(a, b, c)) == Three(Turns(n, a), Turns(n, b), Turns(n, c))
  {
    hide Turns, Xor;
    TurnsLinear(n, a, Xor(b, c));
    TurnsLinear(n, b, c);
  }

  /** Two sums of three that vanish and share their last term. */
  lemma ThreeEliminate(a: bv32, b: bv32, c: bv32, d: bv32, e: bv32)
    requires Three(a, b, e) == 0 && Three(c, d, e) == 0
    ensures Xor(a, c) == Xor(b, d)
  {
    hide Xor;
    XorEqual(a, Xor(b, e));
    XorEqual(c, Xor(d, e));
    XorSwap(b, e, d, e);
    XorZero(e);
    XorZero(Xor(b, d));
  }

  /** One step of the elimination: the last place drops out. */
  lemma DropLast(p: nat, q: nat, r: nat, f: bv32, g: bv32, h: bv32)
    requires Three(f, g, h) == 0 && Three(Turns(p, f), Turns(q, g), Turns(r, h)) == 0
    ensures Xor(Turns(p, f), Turns(r, f)) == Xor(Turns(q, g), Turns(r, g))
  {
    hide Turns, Xor, Three;
    ThreeLinear(r, f, g, h);
    TurnsZero(r);
    ThreeEliminate(Turns(p, f), Turns(q, g), Turns(r, f), Turns(r, g), Turns(r, h));
  }

  lemma PairTurns(p: nat, r: nat, f: bv32)
    ensures Xor(Turns(p, Turns(p, f)), Turns(r, Turns(p, f))) == Turns(p, Xor(Turns(p, f), Turns(r, f)))
  {
    hide Turns, Xor;
    TurnsLinear(p, Turns(p, f), Turns(r, f));
    TurnsCommute(p, r, f);
  }

  lemma FirstVanishes(p: nat, q: nat, r: nat, f: bv32, g: bv32, h: bv32)
    requires Vanish(p, q, r, f, g, h) && Apart(p, q) && Apart(p, r) && f < 0x400
    ensures f == 0
  {
    hide Turns, Xor, Three;
    var x := Xor(Turns(p, f), Turns(r, f));
    DropLast(p, q, r, f, g, h);
    DropLast(p, q, r, Turns(p, f), Turns(q, g), Turns(r, h));
    PairTurns(p, r, f);
    PairTurns(q, r, g);
    TurnsRange(p, f);
    TurnsRange(r, f);
    XorSmall(Turns(p, f), Turns(r, f));
    PowersDiffer(p, q, x);
    XorEqual(Turns(p, f), Turns(r, f));
    PowersDiffer(p, r, f);
  }

  lemma ThreeRotates(a: bv32, b: bv32, c: bv32)
    ensures Three(a, b, c) == Three(b, c, a)
  {
    hide Xor;
    XorCommutes(a, Xor(b, c));
    XorAssociates(b, c, a);
  }

  lemma VanishRotates(p: nat, q: nat, r: nat, f: bv32, g: bv32, h: bv32)
    requires Vanish(p, q, r, f, g, h)
    ensures Vanish(q, r, p, g, h, f)
  {
    hide Turns, Three;
    ThreeRotates(f, g, h);
    ThreeRotates(Turns(p, f), Turns(q, g), Turns(r, h));
    ThreeRotates(Turns(p, Turns(p, f)), Turns(q, Turns(q, g)), Turns(r, Turns(r, h)));
  }

  lemma AllVanish(p: nat, q: nat, r: nat, f: bv32, g: bv32, h: bv32)
    requires Vanish(p, q, r, f, g, h) && Apart(p, q) && Apart(p, r) && Apart(q, r)
    requires f < 0x400 && g < 0x400 && h < 0x400
    ensures f == 0 && g == 0 && h == 0
  {
    hide Vanish;
    FirstVanishes(p, q, r, f, g, h);
    VanishRotates(p, q, r, f, g, h);
    FirstVanishes(q, r, p, g, h, f);
    VanishRotates(q, r, p, g, h, f);
    FirstVanishes(r, p, q, h, f, g);
  }

  /** The value of a symbol at a place at three roots, from the first of them. */
  lemma AtRoots(p: nat, x: bv32)
    ensures var f := Turns(24 * p, x); Turns(25 * p, x) == Turns(p, f) && Turns(26 * p, x) == Turns(p, Turns(p, f))
  {
    hide Turns;
    TurnsAdd(p, 24 * p, x);
    TurnsAdd(p, 25 * p, x);
  }

  // The code

  /** No remainder means that the values at the three roots vanish. */
  lemma ThreeVanish(d: seq<bv8>, i: nat, j: nat, k: nat)
    requires Symbols(d) && OnlyAt(d, i, j, k) && Remainder(0, d) == 0
    ensures var p, q, r := |d| - 1 - i, |d| - 1 - j, |d| - 1 - k;
      Vanish(p, q, r, Term(24, p, d[i]), Term(24, q, d[j]), Term(24, r, d[k]))
  {
    hide Turns, Three, Value, Remainder, Eval, Wide, Vanish, Symbols;
    var p, q, r := |d| - 1 - i, |d| - 1 - j, |d| - 1 - k;
    NoValue(24, d, i, j, k);
    NoValue(25, d, i, j, k);
    NoValue(26, d, i, j, k);
    AtRoots(p, Wide(d[i]));
    AtRoots(q, Wide(d[j]));
    AtRoots(r, Wide(d[k]));
    MakeVanish(p, q, r, Term(24, p, d[i]), Term(24, q, d[j]), Term(24, r, d[k]));
  }

  lemma NoValue(t: nat, d: seq<bv8>, i: nat, j: nat, k: nat)
    requires 24 <= t <= 26 && Symbols(d) && OnlyAt(d, i, j, k) && Remainder(0, d) == 0
    ensures Three(Term(t, |d| - 1 - i, d[i]), Term(t, |d| - 1 - j, d[j]), Term(t, |d| - 1 - k, d[k])) == 0
  {
    hide Term, Three, Value, Remainder, Eval, Symbols;
    RemainderValue(t, 0, d);
    EvalZero(Gamma(t), 6);
    ValueOfThree(t, d, i, j, k);
  }

  /** Symbols at three places within 1023 that leave no remainder are zero. */
  lemma ThreeLeaveRemainder(d: seq<bv8>, i: nat, j: nat, k: nat)
    requires Symbols(d) && OnlyAt(d, i, j, k) && k - i < 1023 && Remainder(0, d) == 0
    ensures Zeroes(d)
  {
    hide Term, Vanish, Remainder;
    var p, q, r := |d| - 1 - i, |d| - 1 - j, |d| - 1 - k;
    ThreeVanish(d, i, j, k);
    TermFacts(24, p, d[i]);
    TermFacts(24, q, d[j]);
    TermFacts(24, r, d[k]);
    AllVanish(p, q, r, Term(24, p, d[i]), Term(24, q, d[j]), Term(24, r, d[k]));
  }

  lemma TermFacts(t: nat, p: nat, x: bv8)
    ensures Term(t, p, x) < 0x400 && (Term(t, p, x) == 0 ==> x == 0)
  {
    hide Turns;
    WideSmall(x);
    TurnsRange(t * p, Wide(x));
    if Term(t, p, x) == 0 { TurnsInjective(t * p, Wide(x)); }
  }

  lemma MakeVanish(p: nat, q: nat, r: nat, f: bv32, g: bv32, h: bv32)
    requires Three(f, g, h) == 0 && Three(Turns(p, f), Turns(q, g), Turns(r, h)) == 0
    requires Three(Turns(p, Turns(p, f)), Turns(q, Turns(q, g)), Turns(r, Turns(r, h))) == 0
    ensures Vanish(p, q, r, f, g, h)
  {
  }

  lemma WideSmall(v: bv8)
    ensures Wide(v) < 0x400 && (Wide(v) == 0 ==> v == 0)
  {
  }

  /** Two lists that differ, but in at most three places, all within 1023 consecutive ones, have
      different remainders. */
  lemma ThreeErrorsDetected(c: bv32, v: seq<bv8>, w: seq<bv8>, i: nat, j: nat, k: nat)
    requires |v| == |w| && Symbols(v) && Symbols(w) && v != w
    requires i < j < k < |v| && k - i < 1023
    requires forall n | 0 <= n < |v| && n != i && n != j && n != k :: v[n] == w[n]
    ensures Remainder(c, v) != Remainder(c, w)
  {
    hide Remainder, Xor;
    var d := Difference(v, w);
    DifferenceNonzero(v, w);
    forall n | 0 <= n < |d| && n != i && n != j && n != k ensures d[n] == 0 {
      SelfXor(v[n]);
    }
    RemainderLinear(c, c, v, w);
    XorZero(c);
    XorEqual(Remainder(c, v), Remainder(c, w));
    if Remainder(c, v) == Remainder(c, w) {
      ThreeLeaveRemainder(d, i, j, k);
    }
  }
}
