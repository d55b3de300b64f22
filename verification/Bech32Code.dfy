/** The checksum of Bech32 strings (BIP 173): a BCH code over 5-bit symbols, held as a 30-bit
    remainder. */
module Bech32Code {

  // Exclusive or, named so that proofs can treat it as an operation with laws

  function Xor(a: bv32, b: bv32): bv32 { a ^ b }

  lemma XorAssociates(a: bv32, b: bv32, c: bv32)
    ensures Xor(Xor(a, b), c) == Xor(a, Xor(b, c))
  {
  }

  lemma XorCommutes(a: bv32, b: bv32)
    ensures Xor(a, b) == Xor(b, a)
  {
  }

  lemma XorSwap(a: bv32, b: bv32, c: bv32, d: bv32)
    ensures Xor(Xor(a, b), Xor(c, d)) == Xor(Xor(a, c), Xor(b, d))
  {
    hide Xor;
    XorAssociates(a, b, Xor(c, d));
    XorAssociates(b, c, d);
    XorCommutes(b, c);
    XorAssociates(c, b, d);
    XorAssociates(a, c, Xor(b, d));
  }

  lemma XorZero(a: bv32)
    ensures Xor(a, 0) == a && Xor(0, a) == a && Xor(a, a) == 0
  {
  }

  lemma XorEqual(a: bv32, b: bv32)
    ensures Xor(a, b) == 0 <==> a == b
  {
  }

  /** What is added twice is gone. */
  lemma XorCancel(a: bv32, b: bv32)
    ensures Xor(a, Xor(a, b)) == b
  {
  }

  // One step

  predicate Bit(c: bv32, mask: bv32) { c & mask != 0 }

  /** Adds a constant if the bit of c0 is set. */
  function Add(c: bv32, c0: bv32, mask: bv32, k: bv32): bv32 {
    if Bit(c0, mask) then Xor(c, k) else c
  }

  /** Adds the leading coefficient times the generator's lower part. */
  function Reduce(c: bv32, c0: bv32): bv32 {
    Add(Add(Add(Add(Add(c, c0, 1, 0x3b6a57b2), c0, 2, 0x26508e6d), c0, 4, 0x1ea119fa), c0, 8, 0x3d4233dd),
        c0, 16, 0x2a1462b3)
  }

  function Lower(c: bv32): bv32 { (c & 0x1ffffff) << 5 }
  function Top(c: bv32): bv32 { c >> 25 }
  function Wide(v: bv8): bv32 { v as bv32 }

  /** One symbol is taken in: the remainder times x plus the symbol, modulo the generator. */
  function Step(c: bv32, v: bv8): bv32 {
    Reduce(Xor(Lower(c), Wide(v)), Top(c))
  }

  /** A number with a symbol appended. */
  function Join(c: bv32, v: bv8): bv32 { (c << 5) | (v as bv32) }

  lemma StepRange(c: bv32, v: bv8)
    requires c < 0x40000000 && v < 32
    ensures Step(c, v) < 0x40000000
  {
  }

  /** No remainder but zero vanishes when a zero symbol is taken in. */
  lemma StepInjective(c: bv32)
    requires c < 0x40000000 && Step(c, 0) == 0
    ensures c == 0
  {
    hide Reduce, Xor;
    assert Wide(0) == 0;
    XorZero(Lower(c));
    ReduceSum(Lower(c), Top(c));
    SumInjective(c);
  }

  lemma AddSum(c: bv32, c0: bv32, mask: bv32, k: bv32)
    ensures Add(c, c0, mask, k) == c ^ (if c0 & mask != 0 then k else 0)
  {
  }

  lemma ReduceSum(c: bv32, c0: bv32)
    ensures Reduce(c, c0) == c
      ^ (if c0 & 1 != 0 then 0x3b6a57b2 else 0)
      ^ (if c0 & 2 != 0 then 0x26508e6d else 0)
      ^ (if c0 & 4 != 0 then 0x1ea119fa else 0)
      ^ (if c0 & 8 != 0 then 0x3d4233dd else 0)
      ^ (if c0 & 16 != 0 then 0x2a1462b3 else 0)
  {
    hide Add;
    var c1 := Add(c, c0, 1, 0x3b6a57b2);
    AddSum(c, c0, 1, 0x3b6a57b2);
    var c2 := Add(c1, c0, 2, 0x26508e6d);
    AddSum(c1, c0, 2, 0x26508e6d);
    var c3 := Add(c2, c0, 4, 0x1ea119fa);
    AddSum(c2, c0, 4, 0x1ea119fa);
    var c4 := Add(c3, c0, 8, 0x3d4233dd);
    AddSum(c3, c0, 8, 0x3d4233dd);
    AddSum(c4, c0, 16, 0x2a1462b3);
  }

  lemma SumInjective(c: bv32)
    requires c < 0x40000000
    requires ((c & 0x1ffffff) << 5)
      ^ (if (c >> 25) & 1 != 0 then 0x3b6a57b2 else 0)
      ^ (if (c >> 25) & 2 != 0 then 0x26508e6d else 0)
      ^ (if (c >> 25) & 4 != 0 then 0x1ea119fa else 0)
      ^ (if (c >> 25) & 8 != 0 then 0x3d4233dd else 0)
      ^ (if (c >> 25) & 16 != 0 then 0x2a1462b3 else 0) == 0
    ensures c == 0
  {
  }

  /** Below 25 bits a step is a plain shift. */
  lemma StepShifts(c: bv32, v: bv8)
    requires c < 0x2000000 && v < 32
    ensures Step(c, v) == Join(c, v)
    ensures Step(c, v) == 0 ==> c == 0 && v == 0
  {
    hide Xor, Lower, Wide, Top, Reduce, Join;
    TopZero(c);
    ReduceNothing(Xor(Lower(c), Wide(v)));
    Disjoint(c, v);
  }

  lemma TopZero(c: bv32)
    requires c < 0x2000000
    ensures Top(c) == 0
  {
  }

  lemma ReduceNothing(c: bv32)
    ensures Reduce(c, 0) == c
  {
    hide Xor;
  }

  lemma Disjoint(c: bv32, v: bv8)
    requires c < 0x2000000 && v < 32
    ensures Xor(Lower(c), Wide(v)) == Join(c, v)
    ensures Join(c, v) == 0 ==> c == 0 && v == 0
  {
  }

  ghost predicate BitLinear(a: bv32, b: bv32, mask: bv32) {
    Bit(Xor(a, b), mask) == (Bit(a, mask) != Bit(b, mask))
  }

  lemma BitsOfXor(a: bv32, b: bv32)
    ensures ((a ^ b) & 1 != 0) == ((a & 1 != 0) != (b & 1 != 0))
    ensures ((a ^ b) & 2 != 0) == ((a & 2 != 0) != (b & 2 != 0))
    ensures ((a ^ b) & 4 != 0) == ((a & 4 != 0) != (b & 4 != 0))
    ensures ((a ^ b) & 8 != 0) == ((a & 8 != 0) != (b & 8 != 0))
    ensures ((a ^ b) & 16 != 0) == ((a & 16 != 0) != (b & 16 != 0))
  {
  }

  lemma BitsLinear(a: bv32, b: bv32)
    ensures BitLinear(a, b, 1) && BitLinear(a, b, 2) && BitLinear(a, b, 4) && BitLinear(a, b, 8) && BitLinear(a, b, 16)
  {
    BitsOfXor(a, b);
  }

  lemma AddLinear(x: bv32, y: bv32, a: bv32, b: bv32, mask: bv32, k: bv32)
    requires BitLinear(a, b, mask)
    ensures Add(Xor(x, y), Xor(a, b), mask, k) == Xor(Add(x, a, mask, k), Add(y, b, mask, k))
  {
    hide Bit, Xor;
    XorSwap(x, k, y, k);
    XorZero(k);
    XorZero(Xor(x, y));
    XorSwap(x, k, y, 0);
    XorSwap(x, 0, y, k);
    XorZero(x);
    XorZero(y);
  }

  lemma ReduceLinear(x: bv32, y: bv32, a: bv32, b: bv32)
    ensures Reduce(Xor(x, y), Xor(a, b)) == Xor(Reduce(x, a), Reduce(y, b))
  {
    hide Add, Xor, BitLinear;
    BitsLinear(a, b);
    var x1, y1 := Add(x, a, 1, 0x3b6a57b2), Add(y, b, 1, 0x3b6a57b2);
    AddLinear(x, y, a, b, 1, 0x3b6a57b2);
    var x2, y2 := Add(x1, a, 2, 0x26508e6d), Add(y1, b, 2, 0x26508e6d);
    AddLinear(x1, y1, a, b, 2, 0x26508e6d);
    var x3, y3 := Add(x2, a, 4, 0x1ea119fa), Add(y2, b, 4, 0x1ea119fa);
    AddLinear(x2, y2, a, b, 4, 0x1ea119fa);
    var x4, y4 := Add(x3, a, 8, 0x3d4233dd), Add(y3, b, 8, 0x3d4233dd);
    AddLinear(x3, y3, a, b, 8, 0x3d4233dd);
    AddLinear(x4, y4, a, b, 16, 0x2a1462b3);
  }

  lemma ShiftLinear(a: bv32, b: bv32)
    ensures Lower(Xor(a, b)) == Xor(Lower(a), Lower(b))
    ensures Top(Xor(a, b)) == Xor(Top(a), Top(b))
  {
  }

  lemma WideLinear(x: bv8, y: bv8)
    ensures Wide(x ^ y) == Xor(Wide(x), Wide(y))
  {
  }

  /** A step is linear: it distributes over exclusive or. */
  lemma StepLinear(a: bv32, b: bv32, x: bv8, y: bv8)
    ensures Step(Xor(a, b), x ^ y) == Xor(Step(a, x), Step(b, y))
  {
    hide Xor, Lower, Top, Wide, Reduce;
    ShiftLinear(a, b);
    WideLinear(x, y);
    XorSwap(Lower(a), Lower(b), Wide(x), Wide(y));
    ReduceLinear(Xor(Lower(a), Wide(x)), Xor(Lower(b), Wide(y)), Top(a), Top(b));
  }

  // Whole lists

  ghost predicate Symbols(v: seq<bv8>) {
    forall i | 0 <= i < |v| :: v[i] < 32
  }

  /** The remainder after a list of symbols, from a given one on. */
  function Remainder(c: bv32, v: seq<bv8>): bv32
    decreases |v|
  {
    if v == [] then c else Remainder(Step(c, v[0]), v[1..])
  }

  lemma {:induction false} RemainderRange(c: bv32, v: seq<bv8>)
    requires c < 0x40000000 && Symbols(v)
    ensures Remainder(c, v) < 0x40000000
    decreases |v|
  {
    hide Step;
    if v != [] {
      StepRange(c, v[0]);
      RemainderRange(Step(c, v[0]), v[1..]);
    }
  }

  lemma {:induction false} RemainderAppend(c: bv32, v: seq<bv8>, w: seq<bv8>)
    ensures Remainder(c, v + w) == Remainder(Remainder(c, v), w)
    decreases |v|
  {
    hide Step;
    if v == [] {
      assert v + w == w;
    } else {
      assert (v + w)[1..] == v[1..] + w;
      RemainderAppend(Step(c, v[0]), v[1..], w);
    }
  }

  /** The difference of two lists, symbol by symbol. */
  function Difference(v: seq<bv8>, w: seq<bv8>): (r: seq<bv8>)
    requires |v| == |w|
    ensures |r| == |v|
  {
    seq(|v|, i requires 0 <= i < |v| => v[i] ^ w[i])
  }

  /** The remainder is linear: it distributes over exclusive or. */
  lemma {:induction false} RemainderLinear(a: bv32, b: bv32, v: seq<bv8>, w: seq<bv8>)
    requires |v| == |w|
    ensures Remainder(Xor(a, b), Difference(v, w)) == Xor(Remainder(a, v), Remainder(b, w))
    decreases |v|
  {
    hide Step, Xor;
    if v != [] {
      StepLinear(a, b, v[0], w[0]);
      assert Difference(v, w)[1..] == Difference(v[1..], w[1..]);
      RemainderLinear(Step(a, v[0]), Step(b, w[0]), v[1..], w[1..]);
    }
  }

  ghost predicate Zeroes(v: seq<bv8>) {
    forall i | 0 <= i < |v| :: v[i] == 0
  }

  lemma {:induction false} NonzeroStays(c: bv32, v: seq<bv8>)
    requires 0 != c < 0x40000000 && Zeroes(v)
    ensures Remainder(c, v) != 0
    decreases |v|
  {
    hide Step;
    if v != [] {
      StepRange(c, 0);
      if Step(c, 0) == 0 {
        StepInjective(c);
        assert false;
      }
      NonzeroStays(Step(c, 0), v[1..]);
    }
  }

  /** Up to six symbols, taken in from nothing, vanish only if all are zero. */
  lemma {:induction false} WindowNonzero(v: seq<bv8>)
    requires |v| <= 6 && Symbols(v) && !Zeroes(v)
    ensures 0 != Remainder(0, v) < 0x40000000
  {
    hide Step;
    WindowFrom(0, v, 6);
    RemainderRange(0, v);
  }

  /** A remainder that leaves room for the symbols to come keeps all there is. */
  lemma {:induction false} WindowFrom(c: bv32, v: seq<bv8>, room: nat)
    requires |v| <= room <= 6 && Roomy(c, room) && Symbols(v)
    requires c != 0 || !Zeroes(v)
    ensures Remainder(c, v) != 0
    decreases |v|
  {
    hide Step;
    if v != [] {
      RoomyStep(c, v[0], room);
      WindowFrom(Step(c, v[0]), v[1..], room - 1);
    }
  }

  predicate Roomy(c: bv32, room: nat) {
    if room == 0 then c < 0x40000000 else if room == 1 then c < 0x2000000 else if room == 2 then c < 0x100000
    else if room == 3 then c < 0x8000 else if room == 4 then c < 0x400 else if room == 5 then c < 0x20 else c == 0
  }

  lemma RoomyStep(c: bv32, v: bv8, room: nat)
    requires 1 <= room <= 6 && Roomy(c, room) && v < 32
    ensures Roomy(Step(c, v), room - 1)
    ensures c != 0 || v != 0 ==> Step(c, v) != 0
  {
    hide Step, Join;
    RoomySmall(c, room);
    StepShifts(c, v);
    JoinRoomy(c, v, room);
  }

  lemma RoomySmall(c: bv32, room: nat)
    requires 1 <= room <= 6 && Roomy(c, room)
    ensures c < 0x2000000
  {
  }

  lemma JoinRoomy(c: bv32, v: bv8, room: nat)
    requires 1 <= room <= 6 && Roomy(c, room) && v < 32
    ensures Roomy(Join(c, v), room - 1)
  {
  }

  /** Two lists that differ, but only within six consecutive places, have different remainders. */
  lemma BurstDetected(c: bv32, before: seq<bv8>, v: seq<bv8>, w: seq<bv8>, after: seq<bv8>)
    requires |v| == |w| <= 6 && v != w && Symbols(v) && Symbols(w)
    ensures Remainder(c, before + v + after) != Remainder(c, before + w + after)
  {
    hide Step, Xor, Remainder;
    var d := Remainder(c, before);
    RemainderAppend(c, before + v, after);
    RemainderAppend(c, before, v);
    RemainderAppend(c, before + w, after);
    RemainderAppend(c, before, w);
    var x, y := Remainder(d, v), Remainder(d, w);
    RemainderLinear(d, d, v, w);
    XorZero(d);
    DifferenceNonzero(v, w);
    WindowNonzero(Difference(v, w));
    RemainderLinear(x, y, after, after);
    DifferenceSelf(after);
    NonzeroStays(Xor(x, y), Difference(after, after));
    XorEqual(Remainder(x, after), Remainder(y, after));
  }

  lemma DifferenceNonzero(v: seq<bv8>, w: seq<bv8>)
    requires |v| == |w| && v != w && Symbols(v) && Symbols(w)
    ensures Symbols(Difference(v, w)) && !Zeroes(Difference(v, w))
  {
    forall i | 0 <= i < |v| ensures Difference(v, w)[i] < 32 { SymbolXor(v[i], w[i]); }
    var i :| 0 <= i < |v| && v[i] != w[i];
    SymbolXor(v[i], w[i]);
    assert Difference(v, w)[i] != 0;
  }

  lemma SymbolXor(x: bv8, y: bv8)
    requires x < 32 && y < 32
    ensures x ^ y < 32 && (x ^ y == 0 <==> x == y)
  {
  }

  lemma DifferenceSelf(v: seq<bv8>)
    ensures Zeroes(Difference(v, v))
  {
    forall i | 0 <= i < |v| ensures Difference(v, v)[i] == 0 { SelfXor(v[i]); }
  }

  lemma SelfXor(x: bv8)
    ensures x ^ x == 0
  {
  }
}
