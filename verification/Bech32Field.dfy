/** The field with 1024 elements in which the generator of the Bech32 code has its roots: the
    powers of one element, as linear maps of ten bits, and the order of that element. */
module Bech32Field {
  import opened Bech32Code
  import Powers

  // Linear maps of ten bits

  /** What a linear map makes of each bit. */
  datatype Columns = Columns(c0: bv32, c1: bv32, c2: bv32, c3: bv32, c4: bv32,
                             c5: bv32, c6: bv32, c7: bv32, c8: bv32, c9: bv32)

  function Map(m: Columns, v: bv32): bv32 {
    var a := Add(Add(Add(Add(Add(0, v, 1, m.c0), v, 2, m.c1), v, 4, m.c2), v, 8, m.c3), v, 16, m.c4);
    Add(Add(Add(Add(Add(a, v, 32, m.c5), v, 64, m.c6), v, 128, m.c7), v, 256, m.c8), v, 512, m.c9)
  }

  function After(m: Columns, p: Columns): Columns {
    Columns(Map(m, p.c0), Map(m, p.c1), Map(m, p.c2), Map(m, p.c3), Map(m, p.c4),
            Map(m, p.c5), Map(m, p.c6), Map(m, p.c7), Map(m, p.c8), Map(m, p.c9))
  }

  lemma HighBitsOfXor(a: bv32, b: bv32)
    ensures ((a ^ b) & 32 != 0) == ((a & 32 != 0) != (b & 32 != 0))
    ensures ((a ^ b) & 64 != 0) == ((a & 64 != 0) != (b & 64 != 0))
    ensures ((a ^ b) & 128 != 0) == ((a & 128 != 0) != (b & 128 != 0))
    ensures ((a ^ b) & 256 != 0) == ((a & 256 != 0) != (b & 256 != 0))
    ensures ((a ^ b) & 512 != 0) == ((a & 512 != 0) != (b & 512 != 0))
  {
  }

  lemma HighBitsLinear(a: bv32, b: bv32)
    ensures BitLinear(a, b, 32) && BitLinear(a, b, 64) && BitLinear(a, b, 128) && BitLinear(a, b, 256)
    ensures BitLinear(a, b, 512)
  {
    HighBitsOfXor(a, b);
  }

  lemma MapLinear(m: Columns, a: bv32, b: bv32)
    ensures Map(m, Xor(a, b)) == Xor(Map(m, a), Map(m, b))
  {
    hide Add, Xor, BitLinear;
    BitsLinear(a, b);
    HighBitsLinear(a, b);
    XorZero(0);
    var x0, y0 := Add(0, a, 1, m.c0), Add(0, b, 1, m.c0);
    AddLinear(0, 0, a, b, 1, m.c0);
    var x1, y1 := Add(x0, a, 2, m.c1), Add(y0, b, 2, m.c1);
    AddLinear(x0, y0, a, b, 2, m.c1);
    var x2, y2 := Add(x1, a, 4, m.c2), Add(y1, b, 4, m.c2);
    AddLinear(x1, y1, a, b, 4, m.c2);
    var x3, y3 := Add(x2, a, 8, m.c3), Add(y2, b, 8, m.c3);
    AddLinear(x2, y2, a, b, 8, m.c3);
    var x4, y4 := Add(x3, a, 16, m.c4), Add(y3, b, 16, m.c4);
    AddLinear(x3, y3, a, b, 16, m.c4);
    var x5, y5 := Add(x4, a, 32, m.c5), Add(y4, b, 32, m.c5);
    AddLinear(x4, y4, a, b, 32, m.c5);
    var x6, y6 := Add(x5, a, 64, m.c6), Add(y5, b, 64, m.c6);
    AddLinear(x5, y5, a, b, 64, m.c6);
    var x7, y7 := Add(x6, a, 128, m.c7), Add(y6, b, 128, m.c7);
    AddLinear(x6, y6, a, b, 128, m.c7);
    var x8, y8 := Add(x7, a, 256, m.c8), Add(y7, b, 256, m.c8);
    AddLinear(x7, y7, a, b, 256, m.c8);
    AddLinear(x8, y8, a, b, 512, m.c9);
  }

  lemma MapZero(m: Columns)
    ensures Map(m, 0) == 0
  {
    hide Xor;
  }

  lemma MapAdd(m: Columns, c: bv32, c0: bv32, mask: bv32, k: bv32)
    ensures Map(m, Add(c, c0, mask, k)) == Add(Map(m, c), c0, mask, Map(m, k))
  {
    hide Map, Bit, Xor;
    MapLinear(m, c, k);
  }

  lemma MapAfter(m: Columns, p: Columns, v: bv32)
    ensures Map(After(m, p), v) == Map(m, Map(p, v))
  {
    hide Add;
    MapZero(m);
    var x0 := Add(0, v, 1, p.c0);
    MapAdd(m, 0, v, 1, p.c0);
    var x1 := Add(x0, v, 2, p.c1);
    MapAdd(m, x0, v, 2, p.c1);
    var x2 := Add(x1, v, 4, p.c2);
    MapAdd(m, x1, v, 4, p.c2);
    var x3 := Add(x2, v, 8, p.c3);
    MapAdd(m, x2, v, 8, p.c3);
    var x4 := Add(x3, v, 16, p.c4);
    MapAdd(m, x3, v, 16, p.c4);
    var x5 := Add(x4, v, 32, p.c5);
    MapAdd(m, x4, v, 32, p.c5);
    var x6 := Add(x5, v, 64, p.c6);
    MapAdd(m, x5, v, 64, p.c6);
    var x7 := Add(x6, v, 128, p.c7);
    MapAdd(m, x6, v, 128, p.c7);
    var x8 := Add(x7, v, 256, p.c8);
    MapAdd(m, x7, v, 256, p.c8);
    MapAdd(m, x8, v, 512, p.c9);
  }

  // Multiplication by a generator of the field. An element is a pair of symbols, the upper one the
  // coefficient of the generator, whose square is 6 times itself plus 19.

  const GAMMA1 := Columns(0x20, 0x40, 0x80, 0x100, 0x200, 0xd3, 0x18f, 0x31e, 0x335, 0x363)
  const GAMMA2 := Columns(0xd3, 0x18f, 0x31e, 0x335, 0x363, 0xf1, 0x1cb, 0x396, 0x225, 0x16a)
  const GAMMA4 := Columns(0x62, 0xc4, 0x188, 0x310, 0x329, 0x11c, 0x211, 0x12b, 0x256, 0x1a5)
  const GAMMA5 := Columns(0x11c, 0x211, 0x12b, 0x256, 0x1a5, 0xb5, 0x143, 0x286, 0x2c, 0x58)
  const GAMMA8 := Columns(0x3c9, 0x2b2, 0x6d, 0xda, 0x19d, 0x3e7, 0x2ee, 0xfc, 0x1d1, 0x38b)
  const GAMMA16 := Columns(0x35b, 0x3bf, 0x277, 0x1e7, 0x3ce, 0x2b9, 0x7b, 0xdf, 0x197, 0x307)
  const GAMMA21 := Columns(0x1c9, 0x392, 0x22d, 0x17a, 0x2dd, 0x84, 0x108, 0x210, 0x129, 0x252)
  const GAMMA24 := Columns(0x88, 0x110, 0x209, 0x132, 0x24d, 0x21e, 0x135, 0x243, 0x1a6, 0x34c)
  const GAMMA25 := Columns(0x21e, 0x135, 0x243, 0x1a6, 0x34c, 0xa3, 0x146, 0x28c, 0x38, 0x59)
  const GAMMA26 := Columns(0xa3, 0x146, 0x28c, 0x38, 0x59, 0x3ad, 0x27a, 0x1fd, 0x3d3, 0x2af)
  const GAMMA29 := Columns(0xd0, 0x189, 0x312, 0x32d, 0x37a, 0x91, 0x10b, 0x216, 0x125, 0x24a)
  const GAMMA32 := Columns(0x26, 0x4c, 0x98, 0x119, 0x21b, 0x13, 0xf, 0x1e, 0x15, 0x3)
  const GAMMA33 := Columns(0x13, 0xf, 0x1e, 0x15, 0x3, 0x260, 0x1e0, 0x3c0, 0x2a0, 0x60)
  const GAMMA64 := Columns(0xc7, 0x18e, 0x31c, 0x331, 0x36b, 0x271, 0x1eb, 0x3d6, 0x2a5, 0x6a)
  const GAMMA85 := Columns(0x36e, 0x3fc, 0x2f1, 0xeb, 0x1d6, 0xca, 0x194, 0x301, 0x322, 0x364)
  const GAMMA93 := Columns(0x156, 0x285, 0x2a, 0x54, 0x81, 0x7a, 0xdd, 0x193, 0x30f, 0x33e)
  const GAMMA128 := Columns(0x68, 0xd0, 0x189, 0x312, 0x32d, 0x5c, 0x91, 0x10b, 0x216, 0x125)
  const GAMMA256 := Columns(0x3df, 0x2b7, 0x67, 0xce, 0x19c, 0x127, 0x24e, 0x1bc, 0x351, 0x3ab)
  const GAMMA341 := Columns(0x18d, 0x31a, 0x33d, 0x373, 0x3ef, 0x18b, 0x316, 0x325, 0x36a, 0x3f4)
  const GAMMA512 := Columns(0x355, 0x3a3, 0x266, 0x1ec, 0x3d8, 0x379, 0x3fb, 0x2ff, 0xf7, 0x1c7)

  function Turn(v: bv32): bv32 { Map(GAMMA1, v) }

  /** The n-th power of the generator times v. */
  function Turns(n: nat, v: bv32): bv32 {
    if n == 0 then v else Turn(Turns(n - 1, v))
  }

  lemma TurnRange(v: bv32)
    ensures Turn(v) < 0x400
  {
  }

  lemma TurnInjective(v: bv32)
    requires v < 0x400 && Turn(v) == 0
    ensures v == 0
  {
  }

  lemma {:induction false} TurnsRange(n: nat, v: bv32)
    requires v < 0x400
    ensures Turns(n, v) < 0x400
  {
    hide Turn;
    if n > 0 { TurnRange(Turns(n - 1, v)); }
  }

  lemma {:induction false} TurnsLinear(n: nat, a: bv32, b: bv32)
    ensures Turns(n, Xor(a, b)) == Xor(Turns(n, a), Turns(n, b))
  {
    hide Map, Xor;
    if n > 0 {
      TurnsLinear(n - 1, a, b);
      MapLinear(GAMMA1, Turns(n - 1, a), Turns(n - 1, b));
    }
  }

  lemma {:induction false} TurnsAdd(m: nat, n: nat, v: bv32)
    ensures Turns(m + n, v) == Turns(m, Turns(n, v))
  {
    hide Turn;
    if m > 0 { TurnsAdd(m - 1, n, v); }
  }

  lemma TurnsCommute(m: nat, n: nat, v: bv32)
    ensures Turns(m, Turns(n, v)) == Turns(n, Turns(m, v))
  {
    TurnsAdd(m, n, v);
    TurnsAdd(n, m, v);
  }

  lemma {:induction false} TurnsZero(n: nat)
    ensures Turns(n, 0) == 0
  {
    hide Map;
    MapZero(GAMMA1);
    if n > 0 { TurnsZero(n - 1); }
  }

  lemma {:induction false} TurnsInjective(n: nat, v: bv32)
    requires v < 0x400 && Turns(n, v) == 0
    ensures v == 0
  {
    hide Turn;
    if n > 0 {
      TurnsRange(n - 1, v);
      TurnInjective(Turns(n - 1, v));
      TurnsInjective(n - 1, v);
    }
  }

  lemma TurnsSame(n: nat, a: bv32, b: bv32)
    requires a < 0x400 && b < 0x400 && Turns(n, a) == Turns(n, b)
    ensures a == b
  {
    hide Xor, Turns;
    TurnsLinear(n, a, b);
    XorZero(Turns(n, a));
    XorSmall(a, b);
    TurnsInjective(n, Xor(a, b));
    XorEqual(a, b);
  }

  lemma XorSmall(a: bv32, b: bv32)
    requires a < 0x400 && b < 0x400
    ensures Xor(a, b) < 0x400
  {
  }

  // Powers of the generator

  ghost predicate Raises(m: Columns, n: nat) {
    forall v :: Map(m, v) == Turns(n, v)
  }

  lemma RaisesAfter(m: Columns, a: nat, p: Columns, b: nat)
    requires Raises(m, a) && Raises(p, b)
    ensures Raises(After(m, p), a + b)
  {
    hide Map, Turns, After;
    forall v ensures Map(After(m, p), v) == Turns(a + b, v) {
      MapAfter(m, p, v);
      TurnsAdd(a, b, v);
      assert Map(p, v) == Turns(b, v);
    }
  }

  lemma Product2()
    ensures After(GAMMA1, GAMMA1) == GAMMA2
  {
  }

  lemma Product4()
    ensures After(GAMMA2, GAMMA2) == GAMMA4
  {
  }

  lemma Product5()
    ensures After(GAMMA4, GAMMA1) == GAMMA5
  {
  }

  lemma Product8()
    ensures After(GAMMA4, GAMMA4) == GAMMA8
  {
  }

  lemma Product16()
    ensures After(GAMMA8, GAMMA8) == GAMMA16
  {
  }

  lemma Product21()
    ensures After(GAMMA16, GAMMA5) == GAMMA21
  {
  }

  lemma Product24()
    ensures After(GAMMA16, GAMMA8) == GAMMA24
  {
  }

  lemma Product25()
    ensures After(GAMMA24, GAMMA1) == GAMMA25
  {
  }

  lemma Product26()
    ensures After(GAMMA24, GAMMA2) == GAMMA26
  {
  }

  lemma Product29()
    ensures After(GAMMA25, GAMMA4) == GAMMA29
  {
  }

  lemma Product32()
    ensures After(GAMMA16, GAMMA16) == GAMMA32
  {
  }

  lemma Product33()
    ensures After(GAMMA32, GAMMA1) == GAMMA33
  {
  }

  lemma Product64()
    ensures After(GAMMA32, GAMMA32) == GAMMA64
  {
  }

  lemma Product85()
    ensures After(GAMMA64, GAMMA21) == GAMMA85
  {
  }

  lemma Product93()
    ensures After(GAMMA64, GAMMA29) == GAMMA93
  {
  }

  lemma Product128()
    ensures After(GAMMA64, GAMMA64) == GAMMA128
  {
  }

  lemma Product256()
    ensures After(GAMMA128, GAMMA128) == GAMMA256
  {
  }

  lemma Product341()
    ensures After(GAMMA256, GAMMA85) == GAMMA341
  {
  }

  lemma Product512()
    ensures After(GAMMA256, GAMMA256) == GAMMA512
  {
  }

  lemma Product1024()
    ensures After(GAMMA512, GAMMA512) == GAMMA1
  {
  }

  lemma LowPowers()
    ensures Raises(GAMMA1, 1) && Raises(GAMMA2, 2) && Raises(GAMMA4, 4) && Raises(GAMMA8, 8)
    ensures Raises(GAMMA16, 16) && Raises(GAMMA32, 32) && Raises(GAMMA64, 64)
  {
    hide After, Raises;
    FirstPower();
    RaisesAfter(GAMMA1, 1, GAMMA1, 1); Product2();
    RaisesAfter(GAMMA2, 2, GAMMA2, 2); Product4();
    RaisesAfter(GAMMA4, 4, GAMMA4, 4); Product8();
    RaisesAfter(GAMMA8, 8, GAMMA8, 8); Product16();
    RaisesAfter(GAMMA16, 16, GAMMA16, 16); Product32();
    RaisesAfter(GAMMA32, 32, GAMMA32, 32); Product64();
  }

  lemma FirstPower()
    ensures Raises(GAMMA1, 1)
  {
    hide Map;
    forall v ensures Map(GAMMA1, v) == Turns(1, v) {
      assert Turns(1, v) == Turn(Turns(0, v));
    }
  }

  lemma RootPowers()
    ensures Raises(GAMMA24, 24) && Raises(GAMMA25, 25) && Raises(GAMMA26, 26)
  {
    hide After, Raises;
    LowPowers();
    RaisesAfter(GAMMA16, 16, GAMMA8, 8); Product24();
    RaisesAfter(GAMMA24, 24, GAMMA1, 1); Product25();
    RaisesAfter(GAMMA24, 24, GAMMA2, 2); Product26();
  }

  /** The powers whose exponents are the largest proper divisors of 1023, and the 1024th. */
  lemma HighPowers()
    ensures Raises(GAMMA33, 33) && Raises(GAMMA93, 93) && Raises(GAMMA341, 341) && Raises(GAMMA1, 1024)
  {
    hide After, Raises;
    LowPowers();
    RootPowers();
    RaisesAfter(GAMMA32, 32, GAMMA1, 1); Product33();
    RaisesAfter(GAMMA25, 25, GAMMA4, 4); Product29();
    RaisesAfter(GAMMA64, 64, GAMMA29, 29); Product93();
    RaisesAfter(GAMMA4, 4, GAMMA1, 1); Product5();
    RaisesAfter(GAMMA16, 16, GAMMA5, 5); Product21();
    RaisesAfter(GAMMA64, 64, GAMMA21, 21); Product85();
    RaisesAfter(GAMMA64, 64, GAMMA64, 64); Product128();
    RaisesAfter(GAMMA128, 128, GAMMA128, 128); Product256();
    RaisesAfter(GAMMA256, 256, GAMMA85, 85); Product341();
    RaisesAfter(GAMMA256, 256, GAMMA256, 256); Product512();
    RaisesAfter(GAMMA512, 512, GAMMA512, 512); Product1024();
  }

  // The generator has order 1023, and no lower power of it is one

  lemma Moves33(v: bv32)
    requires v < 0x400 && Map(GAMMA33, v) == v
    ensures v == 0
  {
  }

  lemma Moves93(v: bv32)
    requires v < 0x400 && Map(GAMMA93, v) == v
    ensures v == 0
  {
  }

  lemma Moves341(v: bv32)
    requires v < 0x400 && Map(GAMMA341, v) == v
    ensures v == 0
  {
  }

  lemma Period(v: bv32)
    requires v < 0x400
    ensures Turns(1023, v) == v
  {
    hide Map;
    HighPowers();
    assert Map(GAMMA1, v) == Turns(1024, v);
    FirstPower();
    assert Map(GAMMA1, v) == Turns(1, v);
    TurnsAdd(1, 1023, v);
    TurnsRange(1023, v);
    TurnsSame(1, Turns(1023, v), v);
  }

  /** Exponents that leave v alone have a common divisor that does. */
  lemma {:induction false} CommonDivisor(a: nat, b: nat, v: bv32) returns (g: nat, x: nat, y: nat)
    requires a > 0 && b > 0 && Turns(a, v) == v && Turns(b, v) == v
    ensures g > 0 && a == g * x && b == g * y && Turns(g, v) == v
    decreases a + b
  {
    hide Turns;
    if a == b {
      g, x, y := a, 1, 1;
    } else if a > b {
      TurnsAdd(a - b, b, v);
      g, x, y := CommonDivisor(a - b, b, v);
      x := x + y;
    } else {
      TurnsAdd(b - a, a, v);
      g, x, y := CommonDivisor(a, b - a, v);
      y := x + y;
    }
  }

  lemma {:induction false} MultipleFixed(g: nat, q: nat, v: bv32)
    requires Turns(g, v) == v
    ensures Turns(g * q, v) == v
  {
    hide Turn;
    if q > 0 {
      MultipleFixed(g, q - 1, v);
      MultipleStep(g, q);
      TurnsAdd(g * (q - 1), g, v);
    }
  }

  lemma MultipleStep(g: nat, q: nat)
    requires q > 0
    ensures g * q == g * (q - 1) + g
  {
  }

  lemma SmallDivisor(g: int, x: int)
    requires g * x == 1023 && 1 <= x <= 31
    ensures x == 1 || x == 3 || x == 11 || x == 31
  {
    assert x in {1, 2, 3, 4, 5, 6, 7, 8, 9, 10, 11, 12, 13, 14, 15, 16,
                 17, 18, 19, 20, 21, 22, 23, 24, 25, 26, 27, 28, 29, 30, 31};
  }

  lemma ProperDivisor(g: int, x: int) returns (q: nat)
    requires g * x == 1023 && g >= 1 && x >= 2
    ensures g * q == 33 || g * q == 93 || g * q == 341
  {
    if x <= 31 {
      SmallDivisor(g, x);
      q := 1;
    } else {
      if g >= 32 {
        Powers.MulMonotone(32, g, 32);
        assert false;
      }
      SmallDivisor(x, g);
      q := if g == 1 then 33 else if g == 3 then 11 else 3;
    }
  }

  lemma ShareOf(g: nat, x: nat, y: nat, n: nat)
    requires g * x == 1023 && g * y == n && 0 < n < 1023
    ensures x >= 2
  {
    assert y >= 1;
    assert g * y >= g;
  }

  /** No power between the first and the 1022nd leaves anything but zero alone. */
  lemma NothingFixed(n: nat, v: bv32)
    requires 0 < n < 1023 && v < 0x400 && Turns(n, v) == v
    ensures v == 0
  {
    hide Turns, Map;
    Period(v);
    var g, x, y := CommonDivisor(1023, n, v);
    ShareOf(g, x, y, n);
    var q := ProperDivisor(g, x);
    MultipleFixed(g, q, v);
    HighPowers();
    assert Map(GAMMA33, v) == Turns(33, v) && Map(GAMMA93, v) == Turns(93, v) && Map(GAMMA341, v) == Turns(341, v);
    if g * q == 33 { Moves33(v); } else if g * q == 93 { Moves93(v); } else { Moves341(v); }
  }

  lemma PowersDiffer(p: nat, q: nat, v: bv32)
    requires v < 0x400 && p != q && p < q + 1023 && q < p + 1023 && Turns(p, v) == Turns(q, v)
    ensures v == 0
  {
    hide Turns;
    var low, n := if p < q then p else q, if p < q then q - p else p - q;
    TurnsAdd(low, n, v);
    TurnsRange(n, v);
    TurnsSame(low, Turns(n, v), v);
    NothingFixed(n, v);
  }
}
