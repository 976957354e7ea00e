/**
 * The base64url codec of the lock page: `bufToBase64Url` and `base64UrlToBuf`.
 *
 * The encoder takes standard base64 (`btoa`), rewrites `+` and `/` into the URL- and
 * filename-safe symbols `-` and `_` of section 5 of RFC 4648, and drops the trailing
 * `=`, as section 3.2 of RFC 4648 allows. The decoder rewrites the two symbols back,
 * pads to a multiple of four and hands the result to `atob`.
 */
module Base64Url {
  import opened Wrappers
  import opened Base64

  /** `s.replace(/x/g, y)` for a one-character pattern. */
  function ReplaceAll(s: string, from: char, to: char): (r: string)
  {
    seq(|s|, i requires 0 <= i < |s| => if s[i] == from then to else s[i])
  }

  /** `s.replace(/c+$/, "")`: drops the longest run of `c` that ends the string. */
  function StripTrailing(s: string, c: char): (r: string)
    ensures r <= s
    ensures |r| == 0 || r[|r| - 1] != c
    ensures forall i :: |r| <= i < |s| ==> s[i] == c
    decreases |s|
  {
    if |s| > 0 && s[|s| - 1] == c then StripTrailing(s[..|s| - 1], c) else s
  }

  /** `"=".repeat(k)`. */
  function Repeat(c: char, k: nat): (r: string)
  {
    seq(k, _ => c)
  }

  /** The pad count of line 18, `(4 - len % 4) % 4`. */
  function PadCount(len: nat): (k: nat)
    ensures k < 4 && (len + k) % 4 == 0
  {
    (4 - len % 4) % 4
  }

  /** The alphabet of Table 2 in section 5 of RFC 4648. */
  predicate IsUrlSymbol(c: char) {
    'A' <= c <= 'Z' || 'a' <= c <= 'z' || '0' <= c <= '9' || c == '-' || c == '_'
  }

  function UrlSymbol(v: int): (c: char)
    requires 0 <= v < 64
    ensures IsUrlSymbol(c)
  {
    if v == 62 then '-' else if v == 63 then '_' else StdSymbol(v)
  }

  function UrlValue(c: char): (v: int)
    requires IsUrlSymbol(c)
    ensures 0 <= v < 64 && UrlSymbol(v) == c
  {
    if c == '-' then 62 else if c == '_' then 63 else StdValue(c).value
  }

  function UrlSymbols(v: seq<int>): (s: string)
    requires AllSextets(v)
  {
    seq(|v|, i requires 0 <= i < |v| => UrlSymbol(v[i]))
  }

  /**
   * What `bufToBase64Url` returns for a byte sequence (lines 10-13): rewriting `btoa`'s
   * output gives exactly the URL-safe symbols of the 6-bit groups, with no padding.
   */
  function UrlEncode(b: seq<byte>): (s: string)
    ensures s == UrlSymbols(Sextets(b))
    ensures |s| == (4 * |b| + 2) / 3
  {
    UrlRewriting(b);
    StripTrailing(ReplaceAll(ReplaceAll(EncodeStd(b), '+', '-'), '/', '_'), '=')
  }

  /** The standard base64 that `base64UrlToBuf` hands to `atob` (lines 17-19). */
  function PaddedStd(s: string): (r: string)
    ensures |r| % 4 == 0
  {
    var base64 := ReplaceAll(ReplaceAll(s, '-', '+'), '_', '/');
    base64 + Repeat('=', PadCount(|base64|))
  }

  /**
   * What `base64UrlToBuf` returns, None where `atob` throws (lines 17-24). A length of 1
   * modulo 4 is always rejected, whatever the characters.
   */
  function UrlDecode(s: string): (r: Option<seq<byte>>)
    ensures |s| % 4 == 1 ==> r.None?
  {
    if |s| % 4 == 1 then PaddedLengthOneModFour(s); ForgivingDecode(PaddedStd(s))
    else ForgivingDecode(PaddedStd(s))
  }

  /** `bufToBase64Url` (lines 6-14): builds the binary string byte by byte, then rewrites `btoa`'s output. */
  method BufToBase64Url(buffer: seq<byte>) returns (s: string)
    ensures s == UrlEncode(buffer)
    ensures |s| == (4 * |buffer| + 2) / 3 && |s| % 4 != 1
    ensures forall i :: 0 <= i < |s| ==> IsUrlSymbol(s[i])
    ensures UrlDecode(s) == Some(buffer)
  {
    var binary := "";
    for k := 0 to |buffer|
      invariant |binary| == k
      invariant forall j :: 0 <= j < k ==> binary[j] as int == buffer[j]
    {
      binary := binary + [buffer[k] as char];
    }
    assert CharCodes(binary) == buffer;
    var std := Btoa(binary).value;
    s := StripTrailing(ReplaceAll(ReplaceAll(std, '+', '-'), '/', '_'), '=');
    EncoderOutput(buffer);
    RoundTrip(buffer);
  }

  /** `base64UrlToBuf` (lines 16-25): None where `atob` throws; otherwise copies the character codes into a fresh byte array. */
  method Base64UrlToBuf(base64url: string) returns (r: Option<seq<byte>>)
    ensures r == UrlDecode(base64url)
  {
    var base64 := ReplaceAll(ReplaceAll(base64url, '-', '+'), '_', '/');
    var pad := Repeat('=', PadCount(|base64|));
    assert base64 + pad == PaddedStd(base64url);
    var binary := Atob(base64 + pad);
    if binary.None? {
      return None;
    }
    var text := binary.value;
    ghost var codes := CharCodes(text);
    var bytes := new byte[|text|];
    for i := 0 to |text|
      invariant bytes[..i] == codes[..i]
    {
      bytes[i] := text[i] as int;
    }
    assert bytes[..] == bytes[..|text|];
    assert codes[..|text|] == codes;
    r := Some(bytes[..]);
  }

  /**
   * The encoder's output (lines 10-13) uses only the URL-safe alphabet, so never `+`,
   * `/` or `=`, and has ceil(4n/3) characters, a length that is never 1 modulo 4.
   */
  lemma EncoderOutput(b: seq<byte>)
    ensures var s := UrlEncode(b);
      && |s| == (4 * |b| + 2) / 3 && |s| % 4 != 1
      && (forall i :: 0 <= i < |s| ==> IsUrlSymbol(s[i]))
      && '+' !in s && '/' !in s && '=' !in s
  {
    EncodedLength(|b|);
  }

  /** Rewriting `+` and `/` and dropping the padding leaves exactly the URL-safe symbols of the groups. */
  lemma UrlRewriting(b: seq<byte>)
    ensures StripTrailing(ReplaceAll(ReplaceAll(EncodeStd(b), '+', '-'), '/', '_'), '=') == UrlSymbols(Sextets(b))
  {
    var v := Sextets(b);
    var p := Padding(b);
    var x := ReplaceAll(ReplaceAll(EncodeStd(b), '+', '-'), '/', '_');
    var u := UrlSymbols(v);
    forall i | 0 <= i < |v|
      ensures x[i] == u[i]
    {
      assert EncodeStd(b)[i] == StdSymbol(v[i]);
    }
    forall i | |v| <= i < |x|
      ensures x[i] == '='
    {
      assert EncodeStd(b)[i] == p[i - |v|];
    }
    StripTrailingPadding(x, u);
  }

  /** Stripping a run of `c` from `prefix + run` gives `prefix` back when `prefix` does not end in `c`. */
  lemma StripTrailingPadding(x: string, prefix: string)
    requires prefix <= x
    requires |prefix| == 0 || prefix[|prefix| - 1] != '='
    requires forall i :: |prefix| <= i < |x| ==> x[i] == '='
    ensures StripTrailing(x, '=') == prefix
  {
    var r := StripTrailing(x, '=');
    assert |prefix| > 0 ==> x[|prefix| - 1] != '=';
    assert |r| > 0 ==> x[|r| - 1] != '=';
    assert |r| == |prefix|;
  }

  /** The encoder's output length is ceil(4n/3), which is never 1 modulo 4. */
  lemma EncodedLength(n: nat)
    ensures (4 * n + 2) / 3 % 4 != 1
    ensures (4 * n + 2) / 3 == 4 * (n / 3) + [0, 2, 3][n % 3]
  {
  }

  /** Rewriting `-` and `_` back turns the URL-safe symbols into the standard ones. */
  lemma ToStdOfUrlSymbols(v: seq<int>)
    requires AllSextets(v)
    ensures ReplaceAll(ReplaceAll(UrlSymbols(v), '-', '+'), '_', '/') == Symbols(v)
  {
  }

  /**
   * Standard symbols padded to a multiple of four decode to the values' bytes: the
   * decoder's pad count restores exactly the padding that the encoder stripped.
   */
  lemma DecodePadded(v: seq<int>)
    requires AllSextets(v) && |v| % 4 != 1
    ensures ForgivingDecode(Symbols(v) + Repeat('=', PadCount(|v|))) == Some(DecodeSextets(v))
  {
    var s := Symbols(v);
    var x := s + Repeat('=', PadCount(|v|));
    forall i | 0 <= i < |x|
      ensures !IsAsciiWhitespace(x[i])
    {
      if i < |s| {
        assert x[i] == StdSymbol(v[i]);
      } else {
        assert x[i] == '=';
      }
    }
    NoWhitespace(x);
    assert |s| > 0 ==> s[|s| - 1] == StdSymbol(v[|v| - 1]);
    PadCountOfEncoderLength(|v|);
    DropPaddingOfPadded(s, PadCount(|v|));
    StdValuesOfSymbols(v);
    ForgivingDecodeSteps(x, s, v);
  }

  /** The steps of forgiving-base64 decode, one premise each. */
  lemma ForgivingDecodeSteps(x: string, s: string, v: seq<int>)
    requires StripWhitespace(x) == x && |x| % 4 == 0
    requires DropPadding(x) == s && |s| % 4 != 1
    requires Values(s) == Some(v)
    ensures ForgivingDecode(x) == Some(DecodeSextets(v))
  {
  }

  /** On a length that is not 1 modulo 4 the decoder adds at most two `=`. */
  lemma PadCountOfEncoderLength(len: nat)
    requires len % 4 != 1
    ensures PadCount(len) <= 2
  {
  }

  /** Dropping the padding of a string that does not itself end in `=` gives the string back. */
  lemma DropPaddingOfPadded(s: string, k: nat)
    requires k <= 2
    requires |s| == 0 || s[|s| - 1] != '='
    ensures DropPadding(s + Repeat('=', k)) == s
  {
    var x := s + Repeat('=', k);
    if k == 2 {
      assert x[..|x| - 2] == s;
    } else if k == 1 {
      assert x[..|x| - 1] == s;
    } else {
      assert x == s;
    }
  }

  lemma NoWhitespace(x: string)
    requires forall i :: 0 <= i < |x| ==> !IsAsciiWhitespace(x[i])
    ensures StripWhitespace(x) == x
  {
    if |x| > 0 {
      NoWhitespace(x[1..]);
      assert x == [x[0]] + x[1..];
    }
  }

  lemma StdValuesOfSymbols(v: seq<int>)
    requires AllSextets(v)
    ensures Values(Symbols(v)) == Some(v)
  {
    var s := Symbols(v);
    forall i | 0 <= i < |s|
      ensures StdValue(s[i]) == Some(v[i])
    {
      StdValueOfSymbol(v[i]);
    }
    assert Values(s).Some?;
    var w := Values(s).value;
    assert |w| == |v|;
    forall i | 0 <= i < |v|
      ensures w[i] == v[i]
    {
      assert Symbols(w)[i] == StdSymbol(w[i]);
      StdValueOfSymbol(w[i]);
    }
    assert w == v;
  }

  /**
   * `atob` undoes `btoa` (lines 10 and 19): the standard encoding of a binary string
   * decodes back to it, its padding being exactly what the decoder drops.
   */
  lemma BtoaRoundTrip(s: string)
    ensures IsBinaryString(s) ==> Atob(Btoa(s).value) == Some(s)
  {
    if IsBinaryString(s) {
      var b := CharCodes(s);
      var v := Sextets(b);
      EncodedLength(|b|);
      assert Padding(b) == Repeat('=', PadCount(|v|));
      DecodePadded(v);
      DecodeSextetsOfSextets(b);
      assert ForgivingDecode(EncodeStd(b)) == Some(b);
    }
  }

  /** Round trip (lines 6-25): decoding the encoding of any byte sequence, the empty one included, gives it back. */
  lemma RoundTrip(b: seq<byte>)
    ensures UrlDecode(UrlEncode(b)) == Some(b)
  {
    var v := Sextets(b);
    ToStdOfUrlSymbols(v);
    EncodedLength(|b|);
    DecodePadded(v);
    DecodeSextetsOfSextets(b);
  }

  lemma {:induction false} StripWhitespaceAppend(a: string, b: string)
    ensures StripWhitespace(a + b) == StripWhitespace(a) + StripWhitespace(b)
    decreases |a|
  {
    if |a| > 0 {
      assert (a + b)[1..] == a[1..] + b;
      StripWhitespaceAppend(a[1..], b);
    } else {
      assert a + b == b;
    }
  }

  /**
   * A string whose length is 1 modulo 4 is rejected (line 19 throws): the pad count is
   * three, and `atob` removes at most two `=`, so one is left over.
   */
  lemma PaddedLengthOneModFour(s: string)
    requires |s| % 4 == 1
    ensures ForgivingDecode(PaddedStd(s)) == None
  {
    var base64 := ReplaceAll(ReplaceAll(s, '-', '+'), '_', '/');
    assert PadCount(|base64|) == 3;
    var pad := Repeat('=', 3);
    assert pad == "===";
    StripWhitespaceAppend(base64, pad);
    assert StripWhitespace(pad) == pad;
    var d0 := StripWhitespace(base64 + pad);
    var d := if |d0| % 4 == 0 then DropPadding(d0) else d0;
    assert d[|d| - 1] == '=';
    assert StdValue(d[|d| - 1]).None?;
  }

  /**
   * A character outside both alphabets, other than `=` and ASCII whitespace, makes the
   * decoder fail (line 19 throws) wherever it stands.
   */
  lemma DecodeRejectsForeignCharacter(s: string, i: nat)
    requires i < |s|
    requires StdValue(s[i]).None? && !IsUrlSymbol(s[i])
    requires s[i] != '=' && !IsAsciiWhitespace(s[i])
    ensures UrlDecode(s) == None
  {
    var c := s[i];
    var base64 := ReplaceAll(ReplaceAll(s, '-', '+'), '_', '/');
    assert base64[i] == c;
    var x := base64 + Repeat('=', PadCount(|base64|));
    assert x[i] == c;
    var d0 := StripWhitespace(x);
    assert c in d0;
    var j :| 0 <= j < |d0| && d0[j] == c;
    var d := if |d0| % 4 == 0 then DropPadding(d0) else d0;
    assert j < |d| && d[j] == c;
    assert Values(d).None?;
  }

  /**
   * An `=` that is not part of the final padding makes the decoder fail (line 19 throws):
   * a symbol and `=` are padded with two more `=`, `atob` drops two, and the `=` left is
   * not a symbol.
   */
  lemma DecodeRejectsStrayPadding(a: char)
    requires IsUrlSymbol(a)
    ensures UrlDecode([a, '=']) == None
  {
    var base64 := ReplaceAll(ReplaceAll([a, '='], '-', '+'), '_', '/');
    assert base64[1] == '=' && |base64| == 2;
    var x := PaddedStd([a, '=']);
    assert x == base64 + ['=', '='];
    forall i | 0 <= i < |x|
      ensures !IsAsciiWhitespace(x[i])
    {
    }
    NoWhitespace(x);
    var d := DropPadding(x);
    assert d == base64;
    assert Values(d).None? by { assert StdValue(d[1]).None?; }
  }

  /**
   * Whitespace makes the decoder fail when it moves the length off a multiple of four
   * (line 19 throws): line 18 counts the space when it pads two symbols around a space
   * with one `=`, and `atob`, which ignores the space, is left with three characters that
   * end in `=`.
   */
  lemma DecodeRejectsShiftingWhitespace(a: char, b: char)
    requires IsUrlSymbol(a) && IsUrlSymbol(b)
    ensures UrlDecode([a, ' ', b]) == None
  {
    var p := if a == '-' then '+' else if a == '_' then '/' else a;
    var q := if b == '-' then '+' else if b == '_' then '/' else b;
    var x := PaddedStd([a, ' ', b]);
    assert x == [p, ' ', q, '='] by {
      assert ReplaceAll(ReplaceAll([a, ' ', b], '-', '+'), '_', '/') == [p, ' ', q];
    }
    StripSpaceAfterFirst(p, q);
    var d := [p, q, '='];
    assert Values(d).None? by { assert StdValue(d[2]).None?; }
    UnpaddedDecodeFails(x, d);
  }

  /** Stripping whitespace from a symbol, a space, a symbol and `=` removes just the space. */
  lemma StripSpaceAfterFirst(p: char, q: char)
    requires !IsAsciiWhitespace(p) && !IsAsciiWhitespace(q)
    ensures StripWhitespace([p, ' ', q, '=']) == [p, q, '=']
  {
    var x := [p, ' ', q, '='];
    assert x[1..][1..] == [q, '='];
    NoWhitespace([q, '=']);
  }

  /** The decoder fails when the stripped input is not a multiple of four long and holds a non-symbol. */
  lemma UnpaddedDecodeFails(x: string, d: string)
    requires StripWhitespace(x) == d && |d| % 4 != 0
    requires Values(d).None?
    ensures ForgivingDecode(x) == None
  {
  }

  /**
   * On strings over the URL-safe alphabet the decoder succeeds exactly when the length is
   * not 1 modulo 4, and then returns 3/4 of a byte per character, rounded down.
   */
  lemma DecodeOnUrlAlphabet(s: string)
    requires forall i :: 0 <= i < |s| ==> IsUrlSymbol(s[i])
    ensures UrlDecode(s).Some? <==> |s| % 4 != 1
    ensures UrlDecode(s).Some? ==> |UrlDecode(s).value| == 3 * |s| / 4
  {
    if |s| % 4 != 1 {
      var v := seq(|s|, i requires 0 <= i < |s| => UrlValue(s[i]));
      assert UrlSymbols(v) == s;
      ToStdOfUrlSymbols(v);
      DecodePadded(v);
    }
  }

  /**
   * The decoder also accepts the standard symbols `+` and `/`, and reads them as `-` and
   * `_`: the rewriting at line 17 leaves them in place for `atob`.
   */
  lemma DecodeAcceptsStandardAlphabet(v: seq<int>)
    requires AllSextets(v)
    ensures UrlDecode(Symbols(v)) == UrlDecode(UrlSymbols(v))
  {
    ToStdOfUrlSymbols(v);
    assert ReplaceAll(ReplaceAll(Symbols(v), '-', '+'), '_', '/') == Symbols(v);
  }
}
