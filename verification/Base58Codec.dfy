/** Base 58 encoding and decoding: repeated multiply-and-add on a buffer of digits, in place. */
module Base58Codec {
  import opened Basics
  import B = Base58
  import opened Digits
  import opened Powers

  // One multiply-and-add

  /** The i lowest digits of before, times m, plus c, are those of after with a carry out. */
  ghost predicate Converted(b: nat, m: nat, c: nat, before: seq<nat>, after: seq<nat>, carry: nat, i: nat) {
    && i <= |before| == |after|
    && Num(b, after[|after| - i..]) + carry * Power(b, i) == Num(b, before[|before| - i..]) * m + c
  }

  lemma ConvertStart(b: nat, m: nat, c: nat, s: seq<nat>)
    ensures Converted(b, m, c, s, s, c, 0)
  {
    assert s[|s|..] == [];
  }

  /** A column of the product: the carry and a digit times the multiplier. */
  function Total(carry: nat, m: nat, d: nat): nat { carry + m * d }

  function Quotient(t: nat, b: nat): nat
    requires b >= 1
  {
    Parts(t, b);
    t / b
  }

  function Remainder(t: nat, b: nat): (r: nat)
    requires b >= 1
    ensures r < b
  {
    Parts(t, b);
    t % b
  }

  lemma ConvertStep(b: nat, m: nat, c: nat, before: seq<nat>, mid: seq<nat>, after: seq<nat>, carry: nat, i: nat)
    requires b >= 2 && Converted(b, m, c, before, mid, carry, i) && i < |before| == |after|
    requires after[|after| - i..] == mid[|mid| - i..]
    requires after[|after| - 1 - i] == Remainder(Total(carry, m, before[|before| - 1 - i]), b)
    ensures Converted(b, m, c, before, after, Quotient(Total(carry, m, before[|before| - 1 - i]), b), i + 1)
  {
    hide Num, Power;
    var n := |before|;
    var d := before[n - 1 - i];
    var t := Total(carry, m, d);
    Parts(t, b);
    assert before[n - (i + 1)..] == [d] + before[n - i..];
    assert after[n - (i + 1)..] == [t % b] + after[n - i..];
    NumCons(b, d, before[n - i..]);
    NumCons(b, t % b, after[n - i..]);
    PowerStep(b, i);
    Column(b, m, c, d, carry, Power(b, i), Num(b, before[n - i..]), Num(b, after[n - i..]), t / b, t % b);
  }

  lemma PowerStep(b: nat, i: nat)
    ensures Power(b, i + 1) == b * Power(b, i)
  {
  }

  lemma Column(b: int, m: int, c: int, d: int, carry: int, p: int, v: int, w: int, q: int, r: int)
    requires w + carry * p == v * m + c && carry + m * d == q * b + r
    ensures (r * p + w) + q * (b * p) == (d * p + v) * m + c
  {
    calc {
      r * p + q * (b * p);
      { MulAssociates(q, b, p); }
      r * p + (q * b) * p;
      (q * b + r) * p;
      (carry + m * d) * p;
      carry * p + (m * d) * p;
      { assert (m * d) * p == (d * p) * m by { MulAssociates(m, d, p); } }
      carry * p + (d * p) * m;
    }
    assert (d * p + v) * m == (d * p) * m + v * m;
  }

  ghost predicate ZeroesUpTo(s: seq<nat>, n: nat) {
    n <= |s| && forall i | 0 <= i < n :: s[i] == 0
  }

  /** The buffer can hold the next number. */
  ghost predicate RoomFor(b: nat, m: nat, c: nat, s: seq<nat>) {
    Num(b, s) * m + c < Power(b, |s|)
  }

  ghost predicate IsProduct(b: nat, m: nat, c: nat, before: seq<nat>, after: seq<nat>) {
    Num(b, after) == Num(b, before) * m + c
  }

  /** When the buffer has room, no carry is left, and the whole buffer holds the new number. */
  lemma ConvertDone(b: nat, m: nat, c: nat, before: seq<nat>, after: seq<nat>, carry: nat, i: nat)
    requires b >= 1 && Converted(b, m, c, before, after, carry, i)
    requires after[..|after| - i] == before[..|before| - i] && ZeroesUpTo(before, |before| - i)
    requires carry == 0 || i == |before|
    requires RoomFor(b, m, c, before)
    ensures carry == 0 && IsProduct(b, m, c, before, after) && ZeroesUpTo(after, |after| - i)
  {
    hide Num, Power;
    var n := |before|;
    assert forall k | 0 <= k < n - i :: after[k] == after[..n - i][k];
    LeadingZeroes(b, n - i, before);
    LeadingZeroes(b, n - i, after);
    NoCarry(Num(b, after[n - i..]), carry, Power(b, i), Num(b, before) * m + c);
  }

  lemma NoCarry(w: nat, carry: nat, p: nat, total: int)
    requires w + carry * p == total && (carry == 0 || total < p)
    ensures carry == 0 && w == total
  {
    MultipleSize(carry, p);
  }

  /** Replaces the number in the buffer by itself times m plus c, given room for it. */
  method MulAdd(buf: array<nat>, b: nat, m: nat, c: nat, length: nat) returns (newLength: nat)
    requires b >= 2 && length <= buf.Length && DigitsOf(b, buf[..]) && ZeroesUpTo(buf[..], buf.Length - length)
    requires RoomFor(b, m, c, buf[..])
    modifies buf
    ensures IsProduct(b, m, c, old(buf[..]), buf[..])
    ensures newLength <= buf.Length && DigitsOf(b, buf[..]) && ZeroesUpTo(buf[..], buf.Length - newLength)
  {
    hide Converted, Num, Power, ZeroesUpTo, Total, Quotient, Remainder, RoomFor, IsProduct;
    ghost var before := buf[..];
    var size := buf.Length;
    var carry := c;
    var i := 0;
    ConvertStart(b, m, c, before);
    while (carry != 0 || i < length) && i < size
      invariant 0 <= i <= size
      invariant Converted(b, m, c, before, buf[..], carry, i)
      invariant buf[..size - i] == before[..size - i] && DigitsOf(b, buf[..])
    {
      ghost var mid := buf[..];
      assert buf[size - 1 - i] == before[..size - i][size - 1 - i];
      var t := Total(carry, m, buf[size - 1 - i]);
      buf[size - 1 - i] := Remainder(t, b);
      ConvertStep(b, m, c, before, mid, buf[..], carry, i);
      carry := Quotient(t, b);
      i := i + 1;
      assert buf[..size - i] == mid[..size - i + 1][..size - i] == before[..size - i];
    }
    ZeroesLess(before, size - length, size - i);
    ConvertDone(b, m, c, before, buf[..], carry, i);
    newLength := i;
  }

  lemma ZeroesLess(s: seq<nat>, n: nat, k: int)
    requires ZeroesUpTo(s, n)
    ensures 0 <= k <= n ==> ZeroesUpTo(s, k)
  {
  }

  /** Where the number in the buffer starts. */
  method SkipZeroes(buf: array<nat>, b: nat, length: nat) returns (it: nat)
    requires b >= 2 && length <= buf.Length && DigitsOf(b, buf[..]) && ZeroesUpTo(buf[..], buf.Length - length)
    ensures it <= buf.Length && buf[it..] == Minimal(b, Num(b, buf[..]))
  {
    ghost var first := buf.Length - length;
    LeadingZeroes(b, first, buf[..]);
    assert buf[..][first..] == buf[first..];
    assert DigitsOf(b, buf[first..]);
    StrippedMinimal(b, buf[first..]);
    it := buf.Length - length;
    while it < buf.Length && buf[it] == 0
      invariant first <= it <= buf.Length
      invariant Stripped(buf[it..]) == Stripped(buf[first..])
    {
      assert buf[it..][1..] == buf[it + 1..];
      it := it + 1;
    }
  }

  // Encoding

  method Encode(bytes: seq<byte>) returns (str: seq<B.Char>)
    ensures str == B.Encode(bytes)
  {
    hide Num, Power, Minimal, ZeroesUpTo, B.CharOf;
    var zeroes := 0;
    while zeroes < |bytes| && bytes[zeroes] == 0
      invariant zeroes <= |bytes| && forall i | 0 <= i < zeroes :: bytes[i] == 0
    {
      zeroes := zeroes + 1;
    }
    B.CountIs(bytes, 0, zeroes);
    var rest := bytes[zeroes..];
    str := EncodeDigits(rest);
    var lead := [];
    var i := 0;
    while i < zeroes
      invariant i <= zeroes && lead == B.Repeat(B.ONE, i)
    {
      lead := lead + [B.ONE];
      i := i + 1;
    }
    str := lead + str;
  }

  /** The base 58 characters of the number some bytes stand for. */
  method EncodeDigits(rest: seq<byte>) returns (str: seq<B.Char>)
    ensures DigitsOf(58, Minimal(58, Num(256, rest))) && str == B.Chars(Minimal(58, Num(256, rest)))
  {
    hide Num, Power, Minimal, ZeroesUpTo, B.CharOf;
    var size := |rest| * 138 / 100 + 1;
    var b58 := new nat[size](_ => 0);
    AllZero(58, b58[..]);
    NumNothing(256, rest);
    var length: nat, j := 0, 0;
    while j < |rest|
      invariant j <= |rest| && length <= size
      invariant Num(58, b58[..]) == Num(256, rest[..j])
      invariant DigitsOf(58, b58[..]) && ZeroesUpTo(b58[..], size - length)
    {
      EncodeRoomAt(rest, j);
      length := MulAdd(b58, 58, 256, rest[j], length);
      j := j + 1;
    }
    assert rest[..j] == rest;
    MinimalFacts(58, Num(256, rest));
    var it := SkipZeroes(b58, 58, length);
    str := [];
    ghost var digits := b58[it..];
    ghost var first := it;
    while it < size
      invariant first <= it <= size && |str| == it - first
      invariant forall k | 0 <= k < |str| :: str[k] == B.CharOf(digits[k])
    {
      assert b58[it] == digits[it - first];
      str := str + [B.CharOf(b58[it])];
      it := it + 1;
    }
  }

  lemma AllZero(b: nat, s: seq<nat>)
    requires b >= 1 && forall i | 0 <= i < |s| :: s[i] == 0
    ensures Num(b, s) == 0 && DigitsOf(b, s) && ZeroesUpTo(s, |s|)
  {
    LeadingZeroes(b, |s|, s);
    assert s[|s|..] == [];
  }

  lemma NumNothing(b: nat, s: seq<nat>)
    ensures Num(b, s[..0]) == 0
  {
  }

  /** One more byte still fits the buffer. */
  lemma EncodeRoomAt(rest: seq<byte>, j: nat)
    requires j < |rest|
    ensures Num(256, rest[..j + 1]) == Num(256, rest[..j]) * 256 + rest[j]
    ensures Num(256, rest[..j + 1]) < Power(58, |rest| * 138 / 100 + 1)
  {
    hide Power, Num;
    assert rest[..j + 1] == rest[..j] + [rest[j]];
    NumSnoc(256, rest[..j], rest[j]);
    NumBound(256, rest[..j + 1]);
    PowerMonotone(256, j + 1, |rest|);
    B.EncodeRoom(|rest|);
  }

  // Decoding

  method Decode(psz: seq<B.Char>) returns (ok: bool, vch: seq<byte>)
    ensures (if ok then Some(vch) else None) == B.Decode(psz)
  {
    hide Num, Power, Minimal, B.IsSpace, B.DigitOf, B.BytesOf, B.InAlphabet;
    vch := [];
    var start := SkipSpaces(psz);
    var text := psz[start..];
    var word: nat;
    ok, word, vch := DecodeWord(text);
    if !ok { return; }
    var rest := SkipSpaces(text[word..]);
    ok := word + rest == |text|;
  }

  method SkipSpaces(s: seq<B.Char>) returns (n: nat)
    ensures n == B.Spaces(s)
  {
    n := 0;
    assert s[0..] == s;
    while n < |s| && B.IsSpace(s[n])
      invariant n <= |s| && n + B.Spaces(s[n..]) == B.Spaces(s)
    {
      assert s[n..][1..] == s[n + 1..];
      n := n + 1;
    }
  }

  /** Decodes up to the first space or the end; fails at a character outside the alphabet. */
  method DecodeWord(text: seq<B.Char>) returns (ok: bool, n: nat, vch: seq<byte>)
    ensures n <= |text|
    ensures ok ==> n == B.WordLength(text) && vch == B.BytesOf(text[..n])
    ensures ok == B.InAlphabet(text[..B.WordLength(text)])
  {
    hide Num, Power, Minimal, ZeroesUpTo, B.IsSpace, B.DigitOf, B.WordLength, B.Count, B.InAlphabet;
    ghost var length' := B.WordLength(text);
    ghost var word := text[..length'];
    var zeroes := 0;
    while zeroes < |text| && text[zeroes] == B.ONE
      invariant zeroes <= |text| && forall i | 0 <= i < zeroes :: text[i] == B.ONE
    {
      zeroes := zeroes + 1;
    }
    OnesInWord(text, zeroes);
    var strlen := |text| - zeroes;
    var size := strlen * 733 / 1000 + 1;
    var b256 := new nat[size](_ => 0);
    AllZero(256, b256[..]);
    ghost var digits := B.DigitsIn(word[zeroes..]);
    NumNothing(58, digits);
    var length: nat := 0;
    n, ok, vch := zeroes, true, [];
    while n < |text| && !B.IsSpace(text[n])
      invariant zeroes <= n <= length' && length <= size
      invariant DigitsOf(58, digits[..n - zeroes])
      invariant Num(256, b256[..]) == Num(58, digits[..n - zeroes])
      invariant DigitsOf(256, b256[..]) && ZeroesUpTo(b256[..], size - length)
    {
      WordGoesOn(text, n);
      var ch := B.DigitOf(text[n]);
      assert ch == digits[n - zeroes] == B.DigitsIn(word)[n];
      if ch == B.NOT_FOUND {
        NoLetter(word, n);
        ok := false;
        return;
      }
      DecodeRoomAt(digits, n - zeroes, strlen);
      length := MulAdd(b256, 256, 58, ch, length);
      n := n + 1;
    }
    WordEnds(text, n);
    assert digits[..n - zeroes] == digits;
    LettersAll(word, zeroes);
    MinimalFacts(256, Num(58, digits));
    var it := SkipZeroes(b256, 256, length);
    vch := Output(zeroes, b256[it..]);
  }

  method Output(zeroes: nat, digits: seq<nat>) returns (vch: seq<byte>)
    requires DigitsOf(256, digits)
    ensures vch == B.AsBytes(B.Repeat(0, zeroes)) + B.AsBytes(digits)
  {
    vch := seq(zeroes, _ => 0);
    var i := 0;
    while i < |digits|
      invariant i <= |digits| && |vch| == zeroes + i
      invariant forall k | 0 <= k < zeroes :: vch[k] == 0
      invariant forall k | 0 <= k < i :: vch[zeroes + k] == digits[k]
    {
      vch := vch + [digits[i]];
      i := i + 1;
    }
  }

  lemma OnesInWord(text: seq<B.Char>, zeroes: nat)
    requires zeroes <= |text| && (forall i | 0 <= i < zeroes :: text[i] == B.ONE) && (zeroes < |text| ==> text[zeroes] != B.ONE)
    ensures zeroes <= B.WordLength(text) && B.Count(text[..B.WordLength(text)], B.ONE) == zeroes
  {
    hide B.IsSpace;
    B.OneFacts(zeroes);
    WordAtLeast(text, zeroes);
    B.CountIs(text[..B.WordLength(text)], B.ONE, zeroes);
  }

  lemma {:induction false} WordAtLeast(text: seq<B.Char>, k: nat)
    requires k <= |text| && forall i | 0 <= i < k :: !B.IsSpace(text[i])
    ensures k <= B.WordLength(text)
    decreases k
  {
    if k > 0 { WordAtLeast(text[1..], k - 1); }
  }

  lemma WordGoesOn(text: seq<B.Char>, n: nat)
    requires n <= B.WordLength(text) && n < |text| && !B.IsSpace(text[n])
    ensures n < B.WordLength(text)
  {
  }

  lemma WordEnds(text: seq<B.Char>, n: nat)
    requires n <= B.WordLength(text) && (n < |text| ==> B.IsSpace(text[n]))
    ensures n == B.WordLength(text)
  {
  }

  lemma NoLetter(word: seq<B.Char>, n: nat)
    requires n < |word| && B.DigitsIn(word)[n] == B.NOT_FOUND
    ensures !B.InAlphabet(word)
  {
  }

  lemma LettersAll(word: seq<B.Char>, zeroes: nat)
    requires zeroes == B.Count(word, B.ONE) && DigitsOf(58, B.DigitsIn(word[zeroes..]))
    ensures B.InAlphabet(word)
  {
    hide B.IsSpace, B.DigitOf;
    B.OneFacts(zeroes);
    var d := B.DigitsIn(word);
    forall i | 0 <= i < |d| ensures d[i] < 58 {
      if i >= zeroes { assert d[i] == B.DigitsIn(word[zeroes..])[i - zeroes]; }
    }
  }

  lemma DecodeRoomAt(digits: seq<nat>, j: nat, strlen: nat)
    requires j < |digits| <= strlen && DigitsOf(58, digits[..j]) && digits[j] < 58
    ensures DigitsOf(58, digits[..j + 1])
    ensures Num(58, digits[..j + 1]) == Num(58, digits[..j]) * 58 + digits[j]
    ensures Num(58, digits[..j + 1]) < Power(256, strlen * 733 / 1000 + 1)
  {
    hide Power, Num;
    assert digits[..j + 1] == digits[..j] + [digits[j]];
    NumSnoc(58, digits[..j], digits[j]);
    NumBound(58, digits[..j + 1]);
    PowerMonotone(58, j + 1, strlen);
    B.DecodeRoom(strlen);
  }
}
