/** Bech32 strings (BIP 173): a human-readable part, a separator and symbols with a checksum. */
module Bech32 {
  import opened Basics
  import opened Bech32Code
  import opened Bech32Errors

  type Text = seq<bv8>

  const SEPARATOR: bv8 := 49
  const CHECKSUM_SIZE := 6
  const MAX_LENGTH := 90

  // Characters

  /** The character of a symbol: the string qpzry9x8gf2tvdw0s3jn54khce6mua7l by position. */
  function Charset(x: bv8): bv8 {
    if x == 0 then 113 else if x == 1 then 112 else if x == 2 then 122 else if x == 3 then 114 else
    if x == 4 then 121 else if x == 5 then 57 else if x == 6 then 120 else if x == 7 then 56 else
    if x == 8 then 103 else if x == 9 then 102 else if x == 10 then 50 else if x == 11 then 116 else
    if x == 12 then 118 else if x == 13 then 100 else if x == 14 then 119 else if x == 15 then 48 else
    if x == 16 then 115 else if x == 17 then 51 else if x == 18 then 106 else if x == 19 then 110 else
    if x == 20 then 53 else if x == 21 then 52 else if x == 22 then 107 else if x == 23 then 104 else
    if x == 24 then 99 else if x == 25 then 101 else if x == 26 then 54 else if x == 27 then 109 else
    if x == 28 then 117 else if x == 29 then 97 else if x == 30 then 55 else if x == 31 then 108 else 0
  }

  const NO_SYMBOL: bv8 := 0xff

  function SymbolOfLower(x: bv8): bv8 {
    if x == 48 then 15 else if x == 50 then 10 else if x == 51 then 17 else if x == 52 then 21 else
    if x == 53 then 20 else if x == 54 then 26 else if x == 55 then 30 else if x == 56 then 7 else
    if x == 57 then 5 else if x == 97 then 29 else if x == 99 then 24 else if x == 100 then 13 else
    if x == 101 then 25 else if x == 102 then 9 else if x == 103 then 8 else if x == 104 then 23 else
    if x == 106 then 18 else if x == 107 then 22 else if x == 108 then 31 else if x == 109 then 27 else
    if x == 110 then 19 else if x == 112 then 1 else if x == 113 then 0 else if x == 114 then 3 else
    if x == 115 then 16 else if x == 116 then 11 else if x == 117 then 28 else if x == 118 then 12 else
    if x == 119 then 14 else if x == 120 then 6 else if x == 121 then 4 else if x == 122 then 2 else NO_SYMBOL
  }

  function LowerCase(c: bv8): bv8 { if 65 <= c <= 90 then c + 32 else c }

  /** The symbol of a character. The table has the same entries for a letter in either case. */
  function CharsetRev(c: bv8): bv8 { SymbolOfLower(LowerCase(c)) }

  predicate Printable(c: bv8) { 33 <= c <= 126 }
  predicate IsLower(c: bv8) { 97 <= c <= 122 }
  predicate IsUpper(c: bv8) { 65 <= c <= 90 }

  lemma CharsetRange(v: bv8)
    requires v < 32
    ensures 48 <= Charset(v) <= 122 && !(65 <= Charset(v) <= 90) && Charset(v) != 49
  {
  }

  lemma CharsetThere(v: bv8)
    requires v < 32
    ensures SymbolOfLower(Charset(v)) == v
  {
  }

  lemma CharsetBack(c: bv8)
    requires SymbolOfLower(c) != NO_SYMBOL
    ensures SymbolOfLower(c) < 32 && Charset(SymbolOfLower(c)) == c
  {
  }

  lemma CharsetFacts(v: bv8)
    requires v < 32
    ensures Printable(Charset(v)) && !IsUpper(Charset(v)) && Charset(v) != SEPARATOR
    ensures CharsetRev(Charset(v)) == v
  {
    hide Charset, SymbolOfLower;
    CharsetRange(v);
    CharsetThere(v);
  }

  lemma CharsetRevFacts(c: bv8)
    requires CharsetRev(c) != NO_SYMBOL
    ensures CharsetRev(c) < 32 && Charset(CharsetRev(c)) == LowerCase(c)
  {
    hide Charset, SymbolOfLower, LowerCase;
    CharsetBack(LowerCase(c));
  }

  lemma LowerCaseFacts(c: bv8)
    ensures !IsUpper(LowerCase(c)) && (!IsUpper(c) ==> LowerCase(c) == c)
    ensures LowerCase(c) == SEPARATOR <==> c == SEPARATOR
  {
  }

  // Checksums

  function HighPart(c: bv8): bv8 { c >> 5 }
  function LowPart(c: bv8): bv8 { c & 0x1f }

  /** The human-readable part as symbols: high parts, a zero, low parts. */
  function ExpandHRP(hrp: Text): (r: seq<bv8>)
    ensures |r| == 2 * |hrp| + 1
  {
    seq(|hrp|, i requires 0 <= i < |hrp| => HighPart(hrp[i])) + [0] + seq(|hrp|, i requires 0 <= i < |hrp| => LowPart(hrp[i]))
  }

  lemma PartsAreSymbols(c: bv8)
    ensures HighPart(c) < 32 && LowPart(c) < 32
  {
  }

  lemma ExpandedSymbols(hrp: Text)
    ensures Symbols(ExpandHRP(hrp))
  {
    hide HighPart, LowPart;
    var e := ExpandHRP(hrp);
    forall i | 0 <= i < |e| ensures e[i] < 32 {
      if i < |hrp| { PartsAreSymbols(hrp[i]); }
      if i > |hrp| { PartsAreSymbols(hrp[i - |hrp| - 1]); }
    }
  }

  predicate VerifyChecksum(hrp: Text, values: seq<bv8>) {
    Remainder(1, ExpandHRP(hrp) + values) == 1
  }

  function Drop(x: bv32): bv32 { x >> 5 }

  /** A 30-bit number without its last 6 - i groups of 5 bits. */
  function Leading(m: bv32, i: nat): bv32
    requires i <= 6
    decreases 6 - i
  {
    if i == 6 then m else Drop(Leading(m, i + 1))
  }

  function LowGroup(x: bv32): (r: bv8)
    ensures r < 32
  {
    (x & 31) as bv8
  }

  /** The group of 5 bits i places from the top. */
  function Group(m: bv32, i: nat): (r: bv8)
    requires i < 6
    ensures r < 32
  {
    LowGroup(Leading(m, i + 1))
  }

  const SIX_ZEROES: seq<bv8> := [0, 0, 0, 0, 0, 0]

  function CreateChecksum(hrp: Text, values: seq<bv8>): (r: seq<bv8>)
    ensures |r| == CHECKSUM_SIZE
  {
    Groups(Xor(Remainder(1, ExpandHRP(hrp) + values + SIX_ZEROES), 1))
  }

  function Groups(m: bv32): (r: seq<bv8>)
    ensures |r| == CHECKSUM_SIZE && Symbols(r)
  {
    [Group(m, 0), Group(m, 1), Group(m, 2), Group(m, 3), Group(m, 4), Group(m, 5)]
  }

  lemma DropRange(x: bv32)
    ensures Drop(x) <= x
    ensures x < 0x40000000 ==> Drop(x) < 0x2000000
  {
  }

  lemma {:induction false} LeadingRange(m: bv32, i: nat)
    requires m < 0x40000000 && i <= 6
    ensures Leading(m, i) < 0x40000000
    decreases 6 - i
  {
    hide Drop;
    if i < 6 {
      LeadingRange(m, i + 1);
      DropRange(Leading(m, i + 1));
    }
  }

  lemma JoinGroups(x: bv32)
    ensures Join(Drop(x), LowGroup(x)) == x
  {
  }

  /** One more group joins the ones before. */
  lemma GroupStep(m: bv32, i: nat)
    requires m < 0x40000000 && i < 6
    ensures Step(Leading(m, i), Group(m, i)) == Leading(m, i + 1)
  {
    hide Step, Drop, LowGroup, Join;
    var x := Leading(m, i + 1);
    LeadingRange(m, i + 1);
    DropRange(x);
    JoinGroups(x);
    StepShifts(Drop(x), LowGroup(x));
  }

  /** Six symbols taken in from nothing are the number they are the groups of. */
  lemma GroupsRemainder(m: bv32)
    requires m < 0x40000000
    ensures Remainder(0, Groups(m)) == m
  {
    hide Step, Group, Leading;
    SixSteps(0, Groups(m));
    GroupStep(m, 0);
    GroupStep(m, 1);
    GroupStep(m, 2);
    GroupStep(m, 3);
    GroupStep(m, 4);
    GroupStep(m, 5);
    LeadingEnds(m);
  }

  lemma LeadingEnds(m: bv32)
    requires m < 0x40000000
    ensures Leading(m, 0) == 0 && Leading(m, 6) == m
  {
    hide Drop;
    assert Leading(m, 0) == Drop(Drop(Drop(Drop(Drop(Drop(m))))));
    DropSix(m);
  }

  lemma DropSix(m: bv32)
    requires m < 0x40000000
    ensures Drop(Drop(Drop(Drop(Drop(Drop(m)))))) == 0
  {
  }

  lemma SixSteps(c: bv32, g: seq<bv8>)
    requires |g| == 6
    ensures Remainder(c, g) == Step(Step(Step(Step(Step(Step(c, g[0]), g[1]), g[2]), g[3]), g[4]), g[5])
  {
    hide Step;
    var c1 := Step(c, g[0]);
    var c2 := Step(c1, g[1]);
    var c3 := Step(c2, g[2]);
    var c4 := Step(c3, g[3]);
    var c5 := Step(c4, g[4]);
    assert Remainder(c, g) == Remainder(c1, g[1..]);
    assert Remainder(c1, g[1..]) == Remainder(c2, g[2..]) by { assert g[1..][1..] == g[2..]; }
    assert Remainder(c2, g[2..]) == Remainder(c3, g[3..]) by { assert g[2..][1..] == g[3..]; }
    assert Remainder(c3, g[3..]) == Remainder(c4, g[4..]) by { assert g[3..][1..] == g[4..]; }
    assert Remainder(c4, g[4..]) == Remainder(c5, g[5..]) by { assert g[4..][1..] == g[5..]; }
    assert Remainder(c5, g[5..]) == Step(c5, g[5]) by { assert g[5..][1..] == []; }
  }

  /** Created checksums verify. */
  lemma ChecksumVerifies(hrp: Text, values: seq<bv8>)
    requires Symbols(values)
    ensures VerifyChecksum(hrp, values + CreateChecksum(hrp, values))
  {
    hide Step, Xor, Group, Remainder, ExpandHRP, Groups;
    var e := ExpandHRP(hrp) + values;
    ExpandedSymbols(hrp);
    var c := Remainder(1, e);
    RemainderRange(1, e);
    var z := Remainder(c, SIX_ZEROES);
    RemainderAppend(1, e, SIX_ZEROES);
    RemainderRange(c, SIX_ZEROES);
    var m := Xor(z, 1);
    FlipRange(z);
    var g := Groups(m);
    GroupsRemainder(m);
    RemainderAppend(1, e, g);
    RemainderLinear(c, 0, SIX_ZEROES, g);
    XorZero(c);
    ZeroDifference(g);
    XorCancel(z, 1);
    assert ExpandHRP(hrp) + (values + g) == e + g;
  }

  lemma FlipRange(z: bv32)
    requires z < 0x40000000
    ensures Xor(z, 1) < 0x40000000
  {
  }

  lemma ZeroDifference(g: seq<bv8>)
    requires |g| == 6
    ensures Difference(SIX_ZEROES, g) == g
  {
    forall i | 0 <= i < 6 ensures Difference(SIX_ZEROES, g)[i] == g[i] { ZeroXor(g[i]); }
  }

  lemma ZeroXor(x: bv8)
    ensures 0 ^ x == x
  {
  }

  /** Symbols that differ, but only within six consecutive places, do not both verify. */
  lemma BurstRejected(hrp: Text, before: seq<bv8>, v: seq<bv8>, w: seq<bv8>, after: seq<bv8>)
    requires |v| == |w| <= 6 && v != w && Symbols(v) && Symbols(w)
    requires VerifyChecksum(hrp, before + v + after)
    ensures !VerifyChecksum(hrp, before + w + after)
  {
    hide Step, Remainder, ExpandHRP;
    var e := ExpandHRP(hrp);
    BurstDetected(1, e + before, v, w, after);
    assert e + (before + v + after) == e + before + v + after;
    assert e + (before + w + after) == e + before + w + after;
  }

  /** Symbols that differ, but in at most three places within 1023 consecutive ones, do not both verify. */
  lemma ThreeErrorsRejected(hrp: Text, v: seq<bv8>, w: seq<bv8>, i: nat, j: nat, k: nat)
    requires |v| == |w| && v != w && Symbols(v) && Symbols(w)
    requires i < j < k < |v| && k - i < 1023
    requires forall n | 0 <= n < |v| && n != i && n != j && n != k :: v[n] == w[n]
    requires VerifyChecksum(hrp, v)
    ensures !VerifyChecksum(hrp, w)
  {
    hide Step, Remainder, ExpandHRP;
    var e := ExpandHRP(hrp);
    RemainderAppend(1, e, v);
    RemainderAppend(1, e, w);
    ThreeErrorsDetected(Remainder(1, e), v, w, i, j, k);
  }

  // The human-readable part

  lemma PartsTell(c: bv8, d: bv8)
    ensures HighPart(c) == HighPart(d) && LowPart(c) == LowPart(d) ==> c == d
  {
  }

  lemma ExpandedAt(hrp: Text, i: nat)
    requires i < |hrp|
    ensures ExpandHRP(hrp)[i] == HighPart(hrp[i]) && ExpandHRP(hrp)[|hrp|] == 0 && ExpandHRP(hrp)[|hrp| + 1 + i] == LowPart(hrp[i])
  {
  }

  /** Different human-readable parts have different expansions. */
  lemma ExpandInjective(a: Text, b: Text)
    requires ExpandHRP(a) == ExpandHRP(b)
    ensures a == b
  {
    hide ExpandHRP, HighPart, LowPart;
    assert |ExpandHRP(a)| == 2 * |a| + 1 && |ExpandHRP(b)| == 2 * |b| + 1;
    forall i | 0 <= i < |a| ensures a[i] == b[i] {
      ExpandedAt(a, i);
      ExpandedAt(b, i);
      PartsTell(a[i], b[i]);
    }
  }

  /** Two expansions with the same symbols after them differ only where their characters do. */
  lemma ExpandedSame(a: Text, b: Text, values: seq<bv8>, n: nat)
    requires |a| == |b| && n < 2 * |a| + 1 + |values|
    requires n < |a| ==> HighPart(a[n]) == HighPart(b[n])
    requires |a| < n < 2 * |a| + 1 ==> LowPart(a[n - |a| - 1]) == LowPart(b[n - |a| - 1])
    ensures (ExpandHRP(a) + values)[n] == (ExpandHRP(b) + values)[n]
  {
    hide HighPart, LowPart;
  }

  /** Symbols verify with only one of two human-readable parts whose expansions differ in at most three places. */
  lemma ExpandedRejected(a: Text, b: Text, values: seq<bv8>, i: nat, j: nat, k: nat)
    requires |a| == |b| && a != b && Symbols(values) && i < j < k < 2 * |a| + 1 && k - i < 1023
    requires forall n | 0 <= n < 2 * |a| + 1 + |values| && n != i && n != j && n != k ::
      (ExpandHRP(a) + values)[n] == (ExpandHRP(b) + values)[n]
    requires VerifyChecksum(a, values)
    ensures !VerifyChecksum(b, values)
  {
    hide Remainder, ExpandHRP;
    ExpandedSymbols(a);
    ExpandedSymbols(b);
    var v, w := ExpandHRP(a) + values, ExpandHRP(b) + values;
    if v == w {
      assert v[..2 * |a| + 1] == ExpandHRP(a) && w[..2 * |a| + 1] == ExpandHRP(b);
      ExpandInjective(a, b);
    }
    ThreeErrorsDetected(1, v, w, i, j, k);
  }

  /** A wrong character in the human-readable part is detected. */
  lemma HrpErrorRejected(a: Text, b: Text, values: seq<bv8>, i: nat)
    requires |a| == |b| <= 1021 && i < |a| && a[i] != b[i] && Symbols(values)
    requires forall n | 0 <= n < |a| && n != i :: a[n] == b[n]
    requires VerifyChecksum(a, values)
    ensures !VerifyChecksum(b, values)
  {
    hide VerifyChecksum, ExpandHRP, HighPart, LowPart;
    forall n | 0 <= n < 2 * |a| + 1 + |values| && n != i && n != |a| && n != |a| + 1 + i
      ensures (ExpandHRP(a) + values)[n] == (ExpandHRP(b) + values)[n]
    {
      ExpandedSame(a, b, values, n);
    }
    ExpandedRejected(a, b, values, i, |a|, |a| + 1 + i);
  }

  /** So are two wrong ones with the same high parts, as in a word of lower case letters. */
  lemma HrpLettersRejected(a: Text, b: Text, values: seq<bv8>, i: nat, j: nat)
    requires |a| == |b| <= 1021 && i < j < |a| && a != b && Symbols(values)
    requires forall n | 0 <= n < |a| && n != i && n != j :: a[n] == b[n]
    requires HighPart(a[i]) == HighPart(b[i]) && HighPart(a[j]) == HighPart(b[j])
    requires VerifyChecksum(a, values)
    ensures !VerifyChecksum(b, values)
  {
    hide VerifyChecksum, ExpandHRP, HighPart, LowPart;
    forall n | 0 <= n < 2 * |a| + 1 + |values| && n != |a| && n != |a| + 1 + i && n != |a| + 1 + j
      ensures (ExpandHRP(a) + values)[n] == (ExpandHRP(b) + values)[n]
    {
      ExpandedSame(a, b, values, n);
    }
    ExpandedRejected(a, b, values, |a|, |a| + 1 + i, |a| + 1 + j);
  }

  /** The six checksum symbols that verify are the created ones. */
  lemma ChecksumUnique(hrp: Text, values: seq<bv8>, checksum: seq<bv8>)
    requires Symbols(values) && Symbols(checksum) && |checksum| == CHECKSUM_SIZE
    requires VerifyChecksum(hrp, values + checksum)
    ensures checksum == CreateChecksum(hrp, values)
  {
    hide VerifyChecksum;
    var created := CreateChecksum(hrp, values);
    ChecksumVerifies(hrp, values);
    assert values + checksum + [] == values + checksum && values + created + [] == values + created;
    if checksum != created {
      BurstRejected(hrp, values, checksum, created, []);
      assert false;
    }
  }

  // Strings

  function Chars(values: seq<bv8>): (r: Text)
    ensures |r| == |values|
  {
    seq(|values|, i requires 0 <= i < |values| => Charset(values[i]))
  }

  function SymbolsOf(str: Text): (r: seq<bv8>)
    ensures |r| == |str|
  {
    seq(|str|, i requires 0 <= i < |str| => CharsetRev(str[i]))
  }

  function Lowered(str: Text): (r: Text)
    ensures |r| == |str|
  {
    seq(|str|, i requires 0 <= i < |str| => LowerCase(str[i]))
  }

  function Encode(hrp: Text, values: seq<bv8>): Text {
    hrp + [SEPARATOR] + Chars(values + CreateChecksum(hrp, values))
  }

  /** The place of the last separator, or -1. */
  function LastSeparator(str: Text): (r: int)
    ensures -1 <= r < |str|
  {
    if str == [] then -1
    else if str[|str| - 1] == SEPARATOR then |str| - 1
    else LastSeparator(str[..|str| - 1])
  }

  ghost predicate AllPrintable(str: Text) {
    forall i | 0 <= i < |str| :: Printable(str[i])
  }

  ghost predicate MixedCase(str: Text) {
    (exists i | 0 <= i < |str| :: IsLower(str[i])) && (exists i | 0 <= i < |str| :: IsUpper(str[i]))
  }

  ghost predicate WellPlaced(str: Text) {
    |str| <= MAX_LENGTH && 1 <= LastSeparator(str) <= |str| - 7
  }

  ghost predicate AllSymbols(str: Text) {
    forall i | 0 <= i < |str| :: CharsetRev(str[i]) != NO_SYMBOL
  }

  datatype Decoded = Decoded(hrp: Text, values: seq<bv8>)

  ghost function Decode(str: Text): Option<Decoded> {
    if !AllPrintable(str) || MixedCase(str) || !WellPlaced(str) then None
    else
      var pos := LastSeparator(str);
      var hrp, tail := Lowered(str[..pos]), str[pos + 1..];
      if !AllSymbols(tail) || !VerifyChecksum(hrp, SymbolsOf(tail)) then None
      else Some(Decoded(hrp, SymbolsOf(tail)[..|tail| - CHECKSUM_SIZE]))
  }

  lemma {:induction false} LastSeparatorIs(head: Text, tail: Text)
    requires forall i | 0 <= i < |tail| :: tail[i] != SEPARATOR
    ensures LastSeparator(head + [SEPARATOR] + tail) == |head|
    decreases |tail|
  {
    var s := head + [SEPARATOR] + tail;
    if tail != [] {
      var short := tail[..|tail| - 1];
      assert s[..|s| - 1] == head + [SEPARATOR] + short;
      LastSeparatorIs(head, short);
    }
  }

  lemma {:induction false} LastSeparatorSplits(str: Text)
    requires LastSeparator(str) >= 0
    ensures var pos := LastSeparator(str); str == str[..pos] + [SEPARATOR] + str[pos + 1..]
  {
    if str[|str| - 1] != SEPARATOR { LastSeparatorSplits(str[..|str| - 1]); }
  }

  /** What can be encoded: a printable human-readable part without capitals, and a total length
      within the limit. */
  ghost predicate Encodable(hrp: Text, values: seq<bv8>) {
    && hrp != [] && AllPrintable(hrp) && (forall i | 0 <= i < |hrp| :: !IsUpper(hrp[i]))
    && Symbols(values) && |hrp| + 1 + |values| + 6 <= 90
  }

  lemma CharsFacts(values: seq<bv8>)
    requires Symbols(values)
    ensures AllPrintable(Chars(values)) && AllSymbols(Chars(values)) && SymbolsOf(Chars(values)) == values
    ensures forall i | 0 <= i < |values| :: !IsUpper(Chars(values)[i]) && Chars(values)[i] != SEPARATOR
  {
    hide Charset, CharsetRev, Printable, IsUpper;
    var chars := Chars(values);
    forall i | 0 <= i < |values|
      ensures Printable(chars[i]) && CharsetRev(chars[i]) == values[i] != NO_SYMBOL
      ensures !IsUpper(chars[i]) && chars[i] != SEPARATOR
    {
      CharsetFacts(values[i]);
      SymbolPresent(values[i]);
    }
  }

  lemma SymbolPresent(v: bv8)
    requires v < 32
    ensures v != NO_SYMBOL
  {
  }

  lemma LoweredSame(str: Text)
    requires forall i | 0 <= i < |str| :: !IsUpper(str[i])
    ensures Lowered(str) == str
  {
    hide LowerCase, IsUpper;
    forall i | 0 <= i < |str| ensures Lowered(str)[i] == str[i] { LowerCaseFacts(str[i]); }
  }

  /** Decoding an encoding gives back the human-readable part and the symbols. */
  lemma DecodeEncode(hrp: Text, values: seq<bv8>)
    requires Encodable(hrp, values)
    ensures Decode(Encode(hrp, values)) == Some(Decoded(hrp, values))
  {
    hide Charset, CharsetRev, Printable, IsUpper, IsLower, LowerCase, CreateChecksum, VerifyChecksum;
    var all := values + CreateChecksum(hrp, values);
    ChecksumIsSymbols(hrp, values);
    var tail := Chars(all);
    CharsFacts(all);
    ChecksumVerifies(hrp, values);
    LastSeparatorIs(hrp, tail);
    LoweredSame(hrp);
    var s := Encode(hrp, values);
    SeparatorFacts();
    NoCapitals(s, hrp, tail);
    assert s[..|hrp|] == hrp && s[|hrp| + 1..] == tail;
    assert all[..|all| - CHECKSUM_SIZE] == values;
  }

  lemma ChecksumIsSymbols(hrp: Text, values: seq<bv8>)
    requires Symbols(values)
    ensures Symbols(values + CreateChecksum(hrp, values))
  {
  }

  lemma SeparatorFacts()
    ensures Printable(SEPARATOR) && !IsUpper(SEPARATOR) && LowerCase(SEPARATOR) == SEPARATOR
  {
  }

  lemma NoCapitals(s: Text, hrp: Text, tail: Text)
    requires s == hrp + [SEPARATOR] + tail && !IsUpper(SEPARATOR)
    requires forall i | 0 <= i < |hrp| :: !IsUpper(hrp[i])
    requires forall i | 0 <= i < |tail| :: !IsUpper(tail[i])
    ensures !MixedCase(s)
  {
    hide IsUpper, IsLower;
    assert forall i | 0 <= i < |s| :: !IsUpper(s[i]);
  }

  /** Whatever decodes, in either case, is the encoding of what it decodes to, in lower case. */
  lemma EncodeDecode(str: Text)
    requires Decode(str).Some?
    ensures var d := Decode(str).value; Encode(d.hrp, d.values) == Lowered(str)
  {
    hide Charset, CharsetRev, Printable, IsUpper, IsLower, LowerCase, CreateChecksum, VerifyChecksum, MixedCase;
    var pos := LastSeparator(str);
    LastSeparatorSplits(str);
    var hrp, tail := Lowered(str[..pos]), str[pos + 1..];
    var all := SymbolsOf(tail);
    CharsBack(tail);
    var n := |tail| - CHECKSUM_SIZE;
    assert all == all[..n] + all[n..];
    ChecksumUnique(hrp, all[..n], all[n..]);
    SeparatorFacts();
    assert Encode(hrp, all[..n]) == hrp + [SEPARATOR] + Lowered(tail);
    LoweredSplit(str, pos);
  }

  lemma LowerCaseTwice(c: bv8)
    ensures LowerCase(LowerCase(c)) == LowerCase(c) && CharsetRev(LowerCase(c)) == CharsetRev(c)
    ensures !IsUpper(LowerCase(c)) && (Printable(LowerCase(c)) <==> Printable(c)) && (LowerCase(c) == SEPARATOR <==> c == SEPARATOR)
  {
    hide SymbolOfLower;
    LowerTwice(c);
  }

  lemma LowerTwice(c: bv8)
    ensures LowerCase(LowerCase(c)) == LowerCase(c)
    ensures !IsUpper(LowerCase(c)) && (Printable(LowerCase(c)) <==> Printable(c)) && (LowerCase(c) == SEPARATOR <==> c == SEPARATOR)
  {
  }

  lemma {:induction false} LastSeparatorLowered(str: Text)
    ensures LastSeparator(Lowered(str)) == LastSeparator(str)
    decreases |str|
  {
    hide LowerCase, CharsetRev, Printable, IsUpper;
    if str != [] {
      var n := |str| - 1;
      LowerCaseTwice(str[n]);
      LastSeparatorLowered(str[..n]);
      assert Lowered(str)[..n] == Lowered(str[..n]);
    }
  }

  /** The case of a string does not matter, as long as it is not mixed. */
  lemma DecodeLowered(str: Text)
    requires !MixedCase(str)
    ensures Decode(Lowered(str)) == Decode(str)
  {
    hide LowerCase, CharsetRev, Printable, IsUpper, IsLower, VerifyChecksum, LastSeparator;
    var low := Lowered(str);
    LastSeparatorLowered(str);
    forall i | 0 <= i < |str|
      ensures Printable(low[i]) == Printable(str[i]) && !IsUpper(low[i])
      ensures LowerCase(low[i]) == low[i] && CharsetRev(low[i]) == CharsetRev(str[i])
    {
      LowerCaseTwice(str[i]);
    }
    assert !MixedCase(low);
    assert AllPrintable(low) <==> AllPrintable(str) by { SamePrintable(low, str); }
    var pos := LastSeparator(str);
    if 1 <= pos <= |str| - 7 {
      assert Lowered(low[..pos]) == Lowered(str[..pos]);
      var a, b := low[pos + 1..], str[pos + 1..];
      forall i | 0 <= i < |b| ensures CharsetRev(a[i]) == CharsetRev(b[i]) {
        assert a[i] == low[pos + 1 + i] && b[i] == str[pos + 1 + i];
      }
      assert SymbolsOf(a) == SymbolsOf(b);
      assert AllSymbols(a) <==> AllSymbols(b) by { SameSymbols(a, b); }
    }
  }

  lemma SamePrintable(a: Text, b: Text)
    requires |a| == |b| && forall i | 0 <= i < |a| :: Printable(a[i]) == Printable(b[i])
    ensures AllPrintable(a) <==> AllPrintable(b)
  {
    hide Printable;
    if AllPrintable(a) {
      forall i | 0 <= i < |b| ensures Printable(b[i]) { assert Printable(a[i]); }
    }
    if AllPrintable(b) {
      forall i | 0 <= i < |a| ensures Printable(a[i]) { assert Printable(b[i]); }
    }
  }

  lemma SameSymbols(a: Text, b: Text)
    requires |a| == |b| && forall i | 0 <= i < |a| :: CharsetRev(a[i]) == CharsetRev(b[i])
    ensures AllSymbols(a) <==> AllSymbols(b)
  {
    hide CharsetRev;
    if AllSymbols(a) {
      forall i | 0 <= i < |b| ensures CharsetRev(b[i]) != NO_SYMBOL { assert CharsetRev(a[i]) != NO_SYMBOL; }
    }
    if AllSymbols(b) {
      forall i | 0 <= i < |a| ensures CharsetRev(a[i]) != NO_SYMBOL { assert CharsetRev(b[i]) != NO_SYMBOL; }
    }
  }

  /** A string decodes to a human-readable part and symbols exactly if it is their encoding, in one case throughout. */
  lemma DecodeExactly(str: Text, hrp: Text, values: seq<bv8>)
    ensures Decode(str) == Some(Decoded(hrp, values)) <==>
      Encodable(hrp, values) && Lowered(str) == Encode(hrp, values) && !MixedCase(str)
  {
    hide Encode, Lowered, MixedCase;
    if Decode(str) == Some(Decoded(hrp, values)) {
      EncodeDecode(str);
      DecodedEncodable(str);
    }
    if Encodable(hrp, values) && Lowered(str) == Encode(hrp, values) && !MixedCase(str) {
      DecodeEncode(hrp, values);
      DecodeLowered(str);
    }
  }

  lemma DecodedEncodable(str: Text)
    requires Decode(str).Some?
    ensures !MixedCase(str) && Encodable(Decode(str).value.hrp, Decode(str).value.values)
  {
    hide LowerCase, CharsetRev, Printable, IsUpper, IsLower, VerifyChecksum, LastSeparator, MixedCase;
    var pos := LastSeparator(str);
    var hrp, tail := Lowered(str[..pos]), str[pos + 1..];
    forall i | 0 <= i < |hrp| ensures Printable(hrp[i]) && !IsUpper(hrp[i]) {
      LowerCaseTwice(str[i]);
    }
    forall i | 0 <= i < |tail| ensures SymbolsOf(tail)[i] < 32 {
      RevSymbol(tail[i]);
    }
  }

  lemma RevSymbol(c: bv8)
    requires CharsetRev(c) != NO_SYMBOL
    ensures CharsetRev(c) < 32
  {
  }

  lemma LoweredSplit(str: Text, pos: nat)
    requires pos < |str| && str[pos] == SEPARATOR
    ensures Lowered(str) == Lowered(str[..pos]) + [SEPARATOR] + Lowered(str[pos + 1..])
  {
    hide LowerCase;
    SeparatorFacts();
  }

  lemma CharsBack(tail: Text)
    requires AllSymbols(tail)
    ensures Symbols(SymbolsOf(tail)) && Chars(SymbolsOf(tail)) == Lowered(tail)
  {
    hide Charset, CharsetRev, LowerCase;
    forall i | 0 <= i < |tail|
      ensures SymbolsOf(tail)[i] < 32 && Chars(SymbolsOf(tail))[i] == Lowered(tail)[i]
    {
      CharsetRevFacts(tail[i]);
    }
  }

  // An address of BIP 173

  const BC: Text := [98, 99]
  const BC_PROGRAM: seq<bv8> := [16, 14, 20, 15, 0]
  const BC_CHECKSUM: seq<bv8> := [29, 17, 18, 6, 17, 16]

  lemma BcExpanded()
    ensures ExpandHRP(BC) == [3, 3, 0, 2, 3]
  {
    hide HighPart, LowPart;
    BcParts();
    ExpandedAt(BC, 0);
    ExpandedAt(BC, 1);
  }

  lemma BcParts()
    ensures HighPart(98) == 3 && HighPart(99) == 3 && LowPart(98) == 2 && LowPart(99) == 3
  {
  }

  lemma BcHead()
    ensures Step(1, 3) == 0x23 && Step(0x23, 3) == 0x463 && Step(0x463, 0) == 0x8c60 && Step(0x8c60, 2) == 0x118c02
    ensures Step(0x118c02, 3) == 0x2318043
  {
  }

  lemma BcMiddle()
    ensures Step(0x2318043, 16) == 0x3d5a5fc2 && Step(0x3d5a5fc2, 14) == 0x4ec3eb7 && Step(0x4ec3eb7, 20) == 0x3bd75899
    ensures Step(0x3bd75899, 15) == 0x8760c09 && Step(0x8760c09, 0) == 0x106098da
  {
  }

  lemma BcTail()
    ensures Step(0x106098da, 29) == 0x31512880 && Step(0x31512880, 17) == 0x3d73417f && Step(0x3d73417f, 18) == 0x1cfe90b
    ensures Step(0x1cfe90b, 6) == 0x39fd2166 && Step(0x39fd2166, 17) == 0x36536445 && Step(0x36536445, 16) == 1
  {
  }

  lemma FiveSteps(c: bv32, g: seq<bv8>)
    requires |g| == 5
    ensures Remainder(c, g) == Step(Step(Step(Step(Step(c, g[0]), g[1]), g[2]), g[3]), g[4])
  {
    hide Step;
    var c1 := Step(c, g[0]);
    var c2 := Step(c1, g[1]);
    var c3 := Step(c2, g[2]);
    var c4 := Step(c3, g[3]);
    assert Remainder(c, g) == Remainder(c1, g[1..]);
    assert Remainder(c1, g[1..]) == Remainder(c2, g[2..]) by { assert g[1..][1..] == g[2..]; }
    assert Remainder(c2, g[2..]) == Remainder(c3, g[3..]) by { assert g[2..][1..] == g[3..]; }
    assert Remainder(c3, g[3..]) == Remainder(c4, g[4..]) by { assert g[3..][1..] == g[4..]; }
    assert Remainder(c4, g[4..]) == Step(c4, g[4]) by { assert g[4..][1..] == []; }
  }

  lemma BcVerifies()
    ensures VerifyChecksum(BC, BC_PROGRAM + BC_CHECKSUM)
  {
    hide Step, Remainder, ExpandHRP;
    var e := ExpandHRP(BC);
    BcExpanded();
    RemainderAppend(1, e, BC_PROGRAM + BC_CHECKSUM);
    RemainderAppend(Remainder(1, e), BC_PROGRAM, BC_CHECKSUM);
    FiveSteps(1, e);
    BcHead();
    FiveSteps(0x2318043, BC_PROGRAM);
    BcMiddle();
    SixSteps(0x106098da, BC_CHECKSUM);
    BcTail();
  }

  /** The address bc1sw50qa3jx3s, in its two directions. */
  lemma BcAddress()
    ensures Encode(BC, BC_PROGRAM) == [98, 99, 49, 115, 119, 53, 48, 113, 97, 51, 106, 120, 51, 115]
    ensures Decode(Encode(BC, BC_PROGRAM)) == Some(Decoded(BC, BC_PROGRAM))
  {
    hide VerifyChecksum, CreateChecksum, Charset, Decode, AllPrintable;
    BcVerifies();
    ChecksumUnique(BC, BC_PROGRAM, BC_CHECKSUM);
    BcCharset();
    var v := BC_PROGRAM + BC_CHECKSUM;
    assert v == [16, 14, 20, 15, 0, 29, 17, 18, 6, 17, 16];
    BcEncodable();
    DecodeEncode(BC, BC_PROGRAM);
  }

  lemma BcCharset()
    ensures Charset(16) == 115 && Charset(14) == 119 && Charset(20) == 53 && Charset(15) == 48 && Charset(0) == 113
    ensures Charset(29) == 97 && Charset(17) == 51 && Charset(18) == 106 && Charset(6) == 120
  {
  }

  lemma BcEncodable()
    ensures Encodable(BC, BC_PROGRAM)
  {
  }
}
