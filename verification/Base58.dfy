/** Base 58 text: numbers between base 256 and base 58, with leading zeroes kept by count. */
module Base58 {
  import opened Basics
  import opened Digits

  /** A character of a C string. */
  type Char = x: int | 1 <= x < 256 witness 1

  // Room for the digits

  /** 138 hundredths of a base 58 digit per byte, and one, are always enough. */
  lemma EncodeRoom(n: nat)
    ensures Power(256, n) <= Power(58, n * 138 / 100 + 1)
  {
    hide Power;
    var q, r := n / 8, n % 8;
    EightBytes();
    PowerRatio(256, 8, 58, 11, q);
    FewBytes(r);
    PowerAdd(256, 8 * q, r);
    var k := r * 138 / 100 + 1;
    PowerAdd(58, 11 * q, k);
    Products(Power(256, 8 * q), Power(58, 11 * q), Power(256, r), Power(58, k));
    PowerMonotone(58, 11 * q + k, n * 138 / 100 + 1);
  }

  lemma EightBytes()
    ensures Power(256, 8) <= Power(58, 11)
  {
  }

  lemma FewBytes(r: nat)
    requires r < 8
    ensures Power(256, r) <= Power(58, r * 138 / 100 + 1)
  {
    assert Power(256, 0) <= Power(58, 1) && Power(256, 1) <= Power(58, 2);
    assert Power(256, 2) <= Power(58, 3) && Power(256, 3) <= Power(58, 5);
    assert Power(256, 4) <= Power(58, 6) && Power(256, 5) <= Power(58, 7);
    assert Power(256, 6) <= Power(58, 9) && Power(256, 7) <= Power(58, 10);
  }

  /** 733 thousandths of a byte per base 58 digit, and one, are always enough. */
  lemma DecodeRoom(n: nat)
    ensures Power(58, n) <= Power(256, n * 733 / 1000 + 1)
  {
    hide Power;
    var q, r := n / 71, n % 71;
    SeventyOneDigits();
    PowerRatio(58, 71, 256, 52, q);
    FewDigits(r);
    PowerAdd(58, 71 * q, r);
    var k := r * 733 / 1000 + 1;
    PowerAdd(256, 52 * q, k);
    Products(Power(58, 71 * q), Power(256, 52 * q), Power(58, r), Power(256, k));
    PowerMonotone(256, 52 * q + k, n * 733 / 1000 + 1);
  }

  lemma Squared(b: nat, k: nat, v: nat)
    requires Power(b, k) == v
    ensures Power(b, 2 * k) == v * v
  {
    PowerAdd(b, k, k);
  }

  lemma SeventyOneDigits()
    ensures Power(58, 71) <= Power(256, 52)
  {
    assert Power(58, 8) == 0x7479027ea100 && Power(58, 7) == 0x202161caa80;
    Squared(58, 8, 0x7479027ea100);
    Squared(58, 16, 0x34fde3761da26b26e1410000);
    Squared(58, 32, 0xaf820335d9b3d9cf58b911d87035677fb7f528100000000);
    PowerAdd(58, 64, 7);
    assert Power(256, 8) == 0x10000000000000000 && Power(256, 4) == 0x100000000;
    Squared(256, 8, 0x10000000000000000);
    Squared(256, 16, 0x100000000000000000000000000000000);
    PowerAdd(256, 32, 16);
    PowerAdd(256, 48, 4);
  }

  lemma FewDigits(r: nat)
    requires r < 71
    ensures Power(58, r) <= Power(256, r * 733 / 1000 + 1)
  {
    hide Power;
    var a, s := r / 15, r % 15;
    FifteenDigits();
    PowerRatio(58, 15, 256, 11, a);
    FewerDigits(s);
    PowerAdd(58, 15 * a, s);
    PowerAdd(256, 11 * a, BytesFor(s));
    Products(Power(58, 15 * a), Power(256, 11 * a), Power(58, s), Power(256, BytesFor(s)));
    PowerMonotone(256, 11 * a + BytesFor(s), r * 733 / 1000 + 1);
  }

  function BytesFor(s: nat): nat
    requires s < 15
  {
    if s == 0 then 0 else if s < 4 then s else if s < 8 then s - 1 else if s < 12 then s - 2 else s - 3
  }

  lemma FifteenDigits()
    ensures Power(58, 15) <= Power(256, 11)
  {
    PowerAdd(58, 8, 7);
    PowerAdd(256, 8, 3);
    assert Power(58, 8) == 0x7479027ea100 && Power(58, 7) == 0x202161caa80;
    assert Power(256, 8) == 0x10000000000000000 && Power(256, 3) == 0x1000000;
  }

  lemma FewerDigits(s: nat)
    requires s < 15
    ensures Power(58, s) <= Power(256, BytesFor(s))
  {
    assert Power(58, 0) <= Power(256, 0) && Power(58, 1) <= Power(256, 1) && Power(58, 2) <= Power(256, 2);
    assert Power(58, 3) <= Power(256, 3) && Power(58, 4) <= Power(256, 3) && Power(58, 5) <= Power(256, 4);
    assert Power(58, 6) <= Power(256, 5) && Power(58, 7) <= Power(256, 6) && Power(58, 8) <= Power(256, 6);
    assert Power(58, 9) <= Power(256, 7) && Power(58, 10) <= Power(256, 8) && Power(58, 11) <= Power(256, 9);
    assert Power(58, 12) <= Power(256, 9) && Power(58, 13) <= Power(256, 10) && Power(58, 14) <= Power(256, 11);
  }

  // Characters

  /** The alphabet: digits and letters without 0, I, O and l, in that order. */
  function CharOf(d: nat): Char
    requires d < 58
  {
    if d < 9 then 49 + d else if d < 17 then 65 + (d - 9) else if d < 22 then 74 + (d - 17)
    else if d < 33 then 80 + (d - 22) else if d < 44 then 97 + (d - 33) else 109 + (d - 44)
  }

  const NOT_FOUND: nat := 58

  function DigitOf(c: Char): (d: nat)
    ensures d <= 58 && (d < 58 ==> CharOf(d) == c)
  {
    if 49 <= c <= 57 then c - 49 else if 65 <= c <= 72 then c - 65 + 9 else if 74 <= c <= 78 then c - 74 + 17
    else if 80 <= c <= 90 then c - 80 + 22 else if 97 <= c <= 107 then c - 97 + 33 else if 109 <= c <= 122 then c - 109 + 44
    else NOT_FOUND
  }

  lemma DigitOfChar(d: nat)
    requires d < 58
    ensures DigitOf(CharOf(d)) == d && !IsSpace(CharOf(d)) && (CharOf(d) == ONE <==> d == 0)
  {
  }

  /** The alphabet is all digits and letters but 0, I, O and l, in the order of their codes. */
  lemma AlphabetExactly(c: Char)
    ensures DigitOf(c) < 58 <==> (48 <= c <= 57 || 65 <= c <= 90 || 97 <= c <= 122) && c != 48 && c != 73 && c != 79 && c != 108
    ensures forall d, e | 0 <= d < e < 58 :: CharOf(d) < CharOf(e)
  {
  }

  const ONE: Char := 49

  predicate IsSpace(c: Char) { c == 32 || 9 <= c <= 13 }

  // Prefixes

  /** How many leading elements are a given one. */
  function Count<T(==)>(s: seq<T>, x: T): (z: nat)
    ensures z <= |s| && (forall i | 0 <= i < z :: s[i] == x) && (z < |s| ==> s[z] != x)
  {
    if s != [] && s[0] == x then 1 + Count(s[1..], x) else 0
  }

  lemma {:induction false} CountIs<T>(s: seq<T>, x: T, z: nat)
    requires z <= |s| && (forall i | 0 <= i < z :: s[i] == x) && (z < |s| ==> s[z] != x)
    ensures Count(s, x) == z
  {
    if z > 0 { CountIs(s[1..], x, z - 1); }
  }

  function Spaces(s: seq<Char>): (z: nat)
    ensures z <= |s| && (forall i | 0 <= i < z :: IsSpace(s[i])) && (z < |s| ==> !IsSpace(s[z]))
  {
    if s != [] && IsSpace(s[0]) then 1 + Spaces(s[1..]) else 0
  }

  /** The length up to the first space. */
  function WordLength(s: seq<Char>): (z: nat)
    ensures z <= |s| && (forall i | 0 <= i < z :: !IsSpace(s[i])) && (z < |s| ==> IsSpace(s[z]))
  {
    if s != [] && !IsSpace(s[0]) then 1 + WordLength(s[1..]) else 0
  }

  // Encoding and decoding

  function Repeat<T>(x: T, n: nat): (r: seq<T>)
    ensures |r| == n && forall i | 0 <= i < n :: r[i] == x
  {
    seq(n, _ => x)
  }

  function Chars(digits: seq<nat>): (r: seq<Char>)
    requires DigitsOf(58, digits)
    ensures |r| == |digits|
  {
    seq(|digits|, i requires 0 <= i < |digits| => CharOf(digits[i]))
  }

  function DigitsIn(s: seq<Char>): (r: seq<nat>)
    ensures |r| == |s|
  {
    seq(|s|, i requires 0 <= i < |s| => DigitOf(s[i]))
  }

  function Encode(bytes: seq<byte>): seq<Char> {
    var z := Count(bytes, 0);
    MinimalFacts(58, Num(256, bytes[z..]));
    Repeat(ONE, z) + Chars(Minimal(58, Num(256, bytes[z..])))
  }

  ghost predicate InAlphabet(s: seq<Char>) { DigitsOf(58, DigitsIn(s)) }

  /** The value of a word of the alphabet: a zero byte per leading 1, then the number's bytes. */
  function BytesOf(word: seq<Char>): (r: seq<byte>)
  {
    var z := Count(word, ONE);
    MinimalFacts(256, Num(58, DigitsIn(word[z..])));
    AsBytes(Repeat(0, z)) + AsBytes(Minimal(256, Num(58, DigitsIn(word[z..]))))
  }

  function AsBytes(s: seq<nat>): (r: seq<byte>)
    requires DigitsOf(256, s)
    ensures r == s
  {
    seq(|s|, i requires 0 <= i < |s| => s[i])
  }

  /** The text without the spaces around it. */
  function Word(s: seq<Char>): seq<Char> {
    var t := s[Spaces(s)..];
    t[..WordLength(t)]
  }

  /** Text is accepted if it is a word of the alphabet with nothing but spaces around it. */
  ghost function Decode(s: seq<Char>): Option<seq<byte>> {
    var t := s[Spaces(s)..];
    var rest := t[WordLength(t)..];
    if InAlphabet(Word(s)) && Spaces(rest) == |rest| then Some(BytesOf(Word(s))) else None
  }

  // Round trips

  lemma CharsFacts(digits: seq<nat>)
    requires DigitsOf(58, digits)
    ensures DigitsIn(Chars(digits)) == digits
    ensures forall i | 0 <= i < |digits| :: !IsSpace(Chars(digits)[i]) && (Chars(digits)[i] == ONE <==> digits[i] == 0)
  {
    forall i | 0 <= i < |digits|
      ensures DigitsIn(Chars(digits))[i] == digits[i]
      ensures !IsSpace(Chars(digits)[i]) && (Chars(digits)[i] == ONE <==> digits[i] == 0)
    {
      DigitOfChar(digits[i]);
    }
  }

  /** Counting leading elements in front of something that starts otherwise. */
  lemma CountRepeat<T>(x: T, z: nat, s: seq<T>)
    requires s != [] ==> s[0] != x
    ensures Count(Repeat(x, z) + s, x) == z && (Repeat(x, z) + s)[z..] == s
  {
    CountIs(Repeat(x, z) + s, x, z);
  }

  lemma WordWhole(s: seq<Char>)
    requires forall i | 0 <= i < |s| :: !IsSpace(s[i])
    ensures Spaces(s) == 0 && s[0..] == s && WordLength(s) == |s| && s[..|s|] == s && Word(s) == s && Spaces([]) == 0
  {
  }

  /** Decoding an encoding returns the bytes. */
  lemma DecodeEncode(bytes: seq<byte>)
    ensures Decode(Encode(bytes)) == Some(bytes)
  {
    hide CharOf, DigitOf, IsSpace, Num, Minimal, Count, InAlphabet, BytesOf, Spaces, WordLength;
    var z := Count(bytes, 0);
    var v := Num(256, bytes[z..]);
    MinimalFacts(58, v);
    var digits := Minimal(58, v);
    CharsFacts(digits);
    var text := Encode(bytes);
    OneFacts(z);
    assert forall i | 0 <= i < |text| :: !IsSpace(text[i]);
    WordWhole(text);
    AlphabetJoin(z, digits);
    BytesBack(bytes);
  }

  ghost predicate AllSpaces(s: seq<Char>) { forall i | 0 <= i < |s| :: IsSpace(s[i]) }

  ghost predicate NoSpaces(s: seq<Char>) { forall i | 0 <= i < |s| :: !IsSpace(s[i]) }

  /** A word of the alphabet is decoded whatever spaces surround it, and no other word is. */
  lemma DecodeWord(before: seq<Char>, word: seq<Char>, after: seq<Char>)
    requires AllSpaces(before) && NoSpaces(word) && AllSpaces(after)
    ensures Decode(before + word + after) == if InAlphabet(word) then Some(BytesOf(word)) else None
  {
    hide InAlphabet, BytesOf, Spaces, WordLength, IsSpace;
    var s := before + word + after;
    if word == [] {
      SpacesAre(s, []);
      assert s + [] == s && s[|s|..] == [];
      WordWhole([]);
    } else {
      SpacesAre(before, word + after);
      assert s == before + (word + after) && s[|before|..] == word + after;
      WordIs(word, after);
      SpacesAre(after, []);
      assert (word + after)[|word|..] == after && after + [] == after && (word + after)[..|word|] == word;
    }
  }

  ghost predicate Spaced(s: seq<Char>, before: seq<Char>, word: seq<Char>, after: seq<Char>) {
    s == before + word + after && AllSpaces(before) && NoSpaces(word) && AllSpaces(after)
  }

  /** A text is accepted exactly if it is one word of the alphabet with spaces around it. */
  lemma DecodeAccepts(s: seq<Char>)
    ensures Decode(s).Some? <==> exists before, word, after :: Spaced(s, before, word, after) && InAlphabet(word)
  {
    hide InAlphabet, BytesOf, Spaces, WordLength, IsSpace;
    if Decode(s).Some? {
      var n := Spaces(s);
      var t := s[n..];
      var m := WordLength(t);
      assert s == s[..n] + t[..m] + t[m..];
      assert Spaced(s, s[..n], t[..m], t[m..]);
    }
    forall before, word, after | Spaced(s, before, word, after) && InAlphabet(word) ensures Decode(s).Some? {
      DecodeWord(before, word, after);
    }
  }

  lemma {:induction false} SpacesAre(before: seq<Char>, rest: seq<Char>)
    requires AllSpaces(before) && (rest == [] || !IsSpace(rest[0]))
    ensures Spaces(before + rest) == |before|
    decreases |before|
  {
    hide IsSpace;
    if before == [] {
      assert before + rest == rest;
    } else {
      assert (before + rest)[1..] == before[1..] + rest;
      SpacesAre(before[1..], rest);
    }
  }

  lemma {:induction false} WordIs(word: seq<Char>, after: seq<Char>)
    requires (forall i | 0 <= i < |word| :: !IsSpace(word[i])) && (after == [] || IsSpace(after[0]))
    ensures WordLength(word + after) == |word|
    decreases |word|
  {
    hide IsSpace;
    if word == [] {
      assert word + after == after;
    } else {
      assert (word + after)[1..] == word[1..] + after;
      WordIs(word[1..], after);
    }
  }

  /** The characters of an encoding stand for the bytes encoded. */
  lemma BytesBack(bytes: seq<byte>)
    ensures BytesOf(Encode(bytes)) == bytes
  {
    hide CharOf, DigitOf, IsSpace, Num, Minimal, Count;
    var z := Count(bytes, 0);
    var rest: seq<nat> := bytes[z..];
    var v := Num(256, rest);
    MinimalFacts(58, v);
    MinimalZero(58, v);
    CharsFacts(Minimal(58, v));
    CountRepeat(ONE, z, Chars(Minimal(58, v)));
    MinimalUnique(256, rest);
    assert bytes == Repeat(0, z) + rest;
  }

  lemma MinimalZero(b: nat, v: nat)
    requires b >= 2
    ensures Minimal(b, v) != [] ==> Minimal(b, v)[0] != 0
  {
    MinimalFacts(b, v);
  }

  lemma OneFacts(z: nat)
    ensures !IsSpace(ONE) && DigitOf(ONE) == 0
  {
  }

  lemma AlphabetJoin(z: nat, digits: seq<nat>)
    requires DigitsOf(58, digits) && DigitsIn(Chars(digits)) == digits
    ensures InAlphabet(Repeat(ONE, z) + Chars(digits))
  {
    hide CharOf, DigitOf, IsSpace;
    OneFacts(z);
    var s, d := Repeat(ONE, z) + Chars(digits), DigitsIn(Repeat(ONE, z) + Chars(digits));
    forall i | 0 <= i < |s| ensures d[i] < 58 {
      if i >= z { assert d[i] == DigitsIn(Chars(digits))[i - z]; }
    }
  }

  /** Encoding what a text decodes to returns the text, without the spaces around it. */
  lemma EncodeDecode(s: seq<Char>)
    requires Decode(s).Some?
    ensures Encode(Decode(s).value) == Word(s)
  {
    hide CharOf, DigitOf, IsSpace, Num, Minimal;
    var word := Word(s);
    var z := Count(word, ONE);
    var tail := word[z..];
    var digits := DigitsIn(tail);
    AlphabetTail(word, z);
    var v := Num(58, digits);
    MinimalFacts(256, v);
    MinimalZero(256, v);
    var bytes := BytesOf(word);
    CountRepeat(0, z, Minimal(256, v));
    assert bytes == Repeat(0, z) + Minimal(256, v);
    CountBytes(bytes, z);
    MinimalUnique(58, digits);
    CharsOfDigits(tail);
    assert word == Repeat(ONE, z) + tail;
  }

  lemma CountBytes(bytes: seq<byte>, z: nat)
    requires z <= |bytes| && (forall i | 0 <= i < z :: bytes[i] == 0) && (z < |bytes| ==> bytes[z] != 0)
    ensures Count(bytes, 0) == z
  {
    CountIs(bytes, 0, z);
  }

  lemma AlphabetTail(word: seq<Char>, z: nat)
    requires InAlphabet(word) && z == Count(word, ONE)
    ensures DigitsOf(58, DigitsIn(word[z..])) && (word[z..] != [] ==> DigitsIn(word[z..])[0] != 0)
  {
    hide CharOf, IsSpace;
    var d := DigitsIn(word[z..]);
    forall i | 0 <= i < |d| ensures d[i] < 58 { assert d[i] == DigitsIn(word)[z + i]; }
    if z < |word| { ZeroDigit(word[z]); }
  }

  lemma ZeroDigit(c: Char)
    ensures DigitOf(c) == 0 <==> c == ONE
  {
  }

  lemma CharsOfDigits(tail: seq<Char>)
    requires DigitsOf(58, DigitsIn(tail))
    ensures Chars(DigitsIn(tail)) == tail
  {
    hide CharOf, DigitOf;
    forall i | 0 <= i < |tail| ensures Chars(DigitsIn(tail))[i] == tail[i] {
      assert DigitsIn(tail)[i] == DigitOf(tail[i]) < 58;
    }
  }
}
