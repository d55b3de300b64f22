/** Bech32 encoding and decoding as loops over strings and symbol lists. */
module Bech32Codec {
  import opened Basics
  import B = Bech32
  import opened Bech32Code

  /** The remainder of a list with an implicit one in front. */
  method PolyMod(v: seq<bv8>) returns (c: bv32)
    ensures c == Remainder(1, v)
  {
    hide Add, Xor, Lower, Top, Wide;
    c := 1;
    var i := 0;
    assert v[0..] == v;
    while i < |v|
      invariant i <= |v|
      invariant Remainder(c, v[i..]) == Remainder(1, v)
    {
      assert v[i..][0] == v[i] && v[i..][1..] == v[i + 1..];
      var c0 := Top(c);
      c := Xor(Lower(c), Wide(v[i]));
      c := Add(c, c0, 1, 0x3b6a57b2);
      c := Add(c, c0, 2, 0x26508e6d);
      c := Add(c, c0, 4, 0x1ea119fa);
      c := Add(c, c0, 8, 0x3d4233dd);
      c := Add(c, c0, 16, 0x2a1462b3);
      i := i + 1;
    }
    assert v[i..] == [];
  }

  method ExpandHRP(hrp: B.Text) returns (r: seq<bv8>)
    ensures r == B.ExpandHRP(hrp)
  {
    hide B.HighPart, B.LowPart;
    var n := |hrp|;
    var ret := new bv8[2 * n + 1](_ => 0);
    var i := 0;
    while i < n
      invariant i <= n
      invariant forall k | 0 <= k < i :: ret[k] == B.HighPart(hrp[k]) && ret[k + n + 1] == B.LowPart(hrp[k])
    {
      ret[i] := B.HighPart(hrp[i]);
      ret[i + n + 1] := B.LowPart(hrp[i]);
      i := i + 1;
    }
    ret[n] := 0;
    r := ret[..];
    assert forall k | 0 <= k < 2 * n + 1 :: r[k] == B.ExpandHRP(hrp)[k];
  }

  method VerifyChecksum(hrp: B.Text, values: seq<bv8>) returns (ok: bool)
    ensures ok == B.VerifyChecksum(hrp, values)
  {
    var e := ExpandHRP(hrp);
    var c := PolyMod(e + values);
    ok := c == 1;
  }

  method CreateChecksum(hrp: B.Text, values: seq<bv8>) returns (r: seq<bv8>)
    ensures r == B.CreateChecksum(hrp, values)
  {
    hide B.Group, Remainder, B.ExpandHRP;
    var enc := ExpandHRP(hrp);
    enc := enc + values;
    enc := enc + B.SIX_ZEROES;
    var mod := PolyMod(enc);
    mod := Xor(mod, 1);
    var ret := new bv8[6](_ => 0);
    var i := 0;
    while i < 6
      invariant i <= 6
      invariant forall k | 0 <= k < i :: ret[k] == B.Group(mod, k)
    {
      ret[i] := B.Group(mod, i);
      i := i + 1;
    }
    r := ret[..];
    assert r == B.Groups(mod);
  }

  method Encode(hrp: B.Text, values: seq<bv8>) returns (r: B.Text)
    requires Symbols(values)
    ensures r == B.Encode(hrp, values)
  {
    hide B.Charset, B.CreateChecksum;
    var checksum := CreateChecksum(hrp, values);
    var combined := values + checksum;
    r := hrp + [B.SEPARATOR];
    var i := 0;
    while i < |combined|
      invariant i <= |combined|
      invariant r == hrp + [B.SEPARATOR] + B.Chars(combined)[..i]
    {
      assert B.Chars(combined)[..i + 1] == B.Chars(combined)[..i] + [B.Charset(combined[i])];
      r := r + [B.Charset(combined[i])];
      i := i + 1;
    }
    assert B.Chars(combined)[..i] == B.Chars(combined);
  }

  /** Whether all characters are printable, and which cases occur. */
  method Scan(str: B.Text) returns (ok: bool, lower: bool, upper: bool)
    ensures ok == B.AllPrintable(str)
    ensures ok ==> (lower && upper <==> B.MixedCase(str))
  {
    hide B.Printable, B.IsLower, B.IsUpper;
    ok, lower, upper := true, false, false;
    var i := 0;
    while i < |str|
      invariant i <= |str| && ok
      invariant forall k | 0 <= k < i :: B.Printable(str[k])
      invariant lower <==> exists k | 0 <= k < i :: B.IsLower(str[k])
      invariant upper <==> exists k | 0 <= k < i :: B.IsUpper(str[k])
    {
      var c := str[i];
      if !B.Printable(c) {
        ok := false;
        return;
      }
      if B.IsLower(c) { lower := true; }
      if B.IsUpper(c) { upper := true; }
      i := i + 1;
    }
  }

  method FindLast(str: B.Text) returns (pos: int)
    ensures pos == B.LastSeparator(str)
  {
    pos := |str| - 1;
    assert str[..pos + 1] == str;
    while pos >= 0
      invariant -1 <= pos < |str|
      invariant B.LastSeparator(str[..pos + 1]) == B.LastSeparator(str)
    {
      assert str[..pos + 1][pos] == str[pos] && str[..pos + 1][..pos] == str[..pos];
      if str[pos] == B.SEPARATOR { return; }
      pos := pos - 1;
    }
  }

  method ReadSymbols(tail: B.Text) returns (ok: bool, values: seq<bv8>)
    ensures ok == B.AllSymbols(tail)
    ensures ok ==> values == B.SymbolsOf(tail)
  {
    hide B.CharsetRev;
    ok, values := true, [];
    var i := 0;
    while i < |tail|
      invariant i <= |tail| && ok
      invariant forall k | 0 <= k < i :: B.CharsetRev(tail[k]) != B.NO_SYMBOL
      invariant values == B.SymbolsOf(tail)[..i]
    {
      var rev := B.CharsetRev(tail[i]);
      if rev == B.NO_SYMBOL {
        ok := false;
        return;
      }
      assert B.SymbolsOf(tail)[..i + 1] == B.SymbolsOf(tail)[..i] + [rev];
      values := values + [rev];
      i := i + 1;
    }
    assert B.SymbolsOf(tail)[..i] == B.SymbolsOf(tail);
  }

  method ToLower(str: B.Text) returns (r: B.Text)
    ensures r == B.Lowered(str)
  {
    hide B.LowerCase;
    r := [];
    var i := 0;
    while i < |str|
      invariant i <= |str|
      invariant r == B.Lowered(str)[..i]
    {
      assert B.Lowered(str)[..i + 1] == B.Lowered(str)[..i] + [B.LowerCase(str[i])];
      r := r + [B.LowerCase(str[i])];
      i := i + 1;
    }
    assert B.Lowered(str)[..i] == B.Lowered(str);
  }

  method Decode(str: B.Text) returns (r: Option<B.Decoded>)
    ensures r == B.Decode(str)
  {
    hide B.AllPrintable, B.MixedCase, B.AllSymbols, B.VerifyChecksum, B.LastSeparator;
    var printable, lower, upper := Scan(str);
    if !printable { return None; }
    if lower && upper { return None; }
    var pos := FindLast(str);
    if |str| > B.MAX_LENGTH || pos == -1 || pos == 0 || pos + 7 > |str| { return None; }
    var symbols, values := ReadSymbols(str[pos + 1..]);
    if !symbols { return None; }
    var hrp := ToLower(str[..pos]);
    var ok := VerifyChecksum(hrp, values);
    if !ok { return None; }
    return Some(B.Decoded(hrp, values[..|values| - B.CHECKSUM_SIZE]));
  }
}
