/**
 * Standard base64 as the browser's `btoa` and `atob` implement it.
 *
 * `btoa` is the encoding of section 4 of RFC 4648 (alphabet of Table 1, output padded
 * with `=` to a multiple of four characters). `atob` is the "forgiving-base64 decode"
 * of the WHATWG Infra Standard: it drops ASCII whitespace, drops one or two trailing
 * `=` when the length is a multiple of four, rejects a length of 1 modulo 4 and any
 * character outside the alphabet, and ignores the unused low bits of the last symbol.
 * Both work on "binary strings", whose characters are the byte values 0..255.
 */
module Base64 {
  import opened Wrappers

  type byte = b: int | 0 <= b < 256

  /** The symbol for a 6-bit value, Table 1 of RFC 4648. */
  function StdSymbol(v: int): (c: char)
    requires 0 <= v < 64
    ensures c != '=' && !IsAsciiWhitespace(c)
  {
    if v < 26 then ('A' as int + v) as char
    else if v < 52 then ('a' as int + (v - 26)) as char
    else if v < 62 then ('0' as int + (v - 52)) as char
    else if v == 62 then '+'
    else '/'
  }

  /** The 6-bit value of a symbol of Table 1, or None for any other character. */
  function StdValue(c: char): (r: Option<int>)
    ensures r.Some? ==> 0 <= r.value < 64 && StdSymbol(r.value) == c
    ensures c == '=' || IsAsciiWhitespace(c) ==> r.None?
  {
    if 'A' <= c <= 'Z' then Some(c as int - 'A' as int)
    else if 'a' <= c <= 'z' then Some(c as int - 'a' as int + 26)
    else if '0' <= c <= '9' then Some(c as int - '0' as int + 52)
    else if c == '+' then Some(62)
    else if c == '/' then Some(63)
    else None
  }

  lemma StdValueOfSymbol(v: int)
    requires 0 <= v < 64
    ensures StdValue(StdSymbol(v)) == Some(v)
  {
  }

  /** ASCII whitespace as the WHATWG Infra Standard defines it: TAB, LF, FF, CR and SPACE. */
  predicate IsAsciiWhitespace(c: char) {
    c == '\t' || c == '\n' || c == '\U{C}' || c == '\r' || c == ' '
  }

  predicate AllSextets(v: seq<int>) {
    forall i :: 0 <= i < |v| ==> 0 <= v[i] < 64
  }

  /**
   * The 6-bit groups of section 4 of RFC 4648, without padding: three bytes give four
   * values, and a final one or two bytes give two or three values whose unused low
   * bits are zero.
   */
  function Sextets(b: seq<byte>): (v: seq<int>)
    ensures |v| == (4 * |b| + 2) / 3
    ensures AllSextets(v)
    decreases |b|
  {
    if |b| == 0 then []
    else if |b| == 1 then [b[0] / 4, (b[0] % 4) * 16]
    else if |b| == 2 then [b[0] / 4, (b[0] % 4) * 16 + b[1] / 16, (b[1] % 16) * 4]
    else [b[0] / 4, (b[0] % 4) * 16 + b[1] / 16, (b[1] % 16) * 4 + b[2] / 64, b[2] % 64] + Sextets(b[3..])
  }

  /**
   * Reassembles bytes from 6-bit values as forgiving-base64 decode does: four values give
   * three bytes; a final two or three values give one or two bytes, and the bits left
   * over are discarded.
   */
  function DecodeSextets(v: seq<int>): (b: seq<byte>)
    requires |v| % 4 != 1
    requires AllSextets(v)
    ensures |b| == 3 * |v| / 4
    decreases |v|
  {
    if |v| == 0 then []
    else if |v| == 2 then [v[0] * 4 + v[1] / 16]
    else if |v| == 3 then [v[0] * 4 + v[1] / 16, (v[1] % 16) * 16 + v[2] / 4]
    else [v[0] * 4 + v[1] / 16, (v[1] % 16) * 16 + v[2] / 4, (v[2] % 4) * 64 + v[3]] + DecodeSextets(v[4..])
  }

  lemma GroupRoundTrip(b0: byte, b1: byte, b2: byte)
    ensures (b0 / 4) * 4 + ((b0 % 4) * 16 + b1 / 16) / 16 == b0
    ensures (((b0 % 4) * 16 + b1 / 16) % 16) * 16 + ((b1 % 16) * 4 + b2 / 64) / 4 == b1
    ensures (((b1 % 16) * 4 + b2 / 64) % 4) * 64 + b2 % 64 == b2
  {
  }

  /** Decoding the groups of any byte sequence gives the bytes back. */
  lemma {:induction false} DecodeSextetsOfSextets(b: seq<byte>)
    ensures DecodeSextets(Sextets(b)) == b
    decreases |b|
  {
    if |b| == 0 {
    } else if |b| <= 2 {
      GroupRoundTrip(b[0], if |b| == 2 then b[1] else 0, 0);
    } else {
      GroupRoundTrip(b[0], b[1], b[2]);
      var v := Sextets(b);
      assert v[4..] == Sextets(b[3..]);
      DecodeSextetsOfSextets(b[3..]);
      assert b == b[..3] + b[3..];
    }
  }

  function Symbols(v: seq<int>): (s: string)
    requires AllSextets(v)
  {
    seq(|v|, i requires 0 <= i < |v| => StdSymbol(v[i]))
  }

  /** The `=` padding that completes the last 4-character quantum, section 4 of RFC 4648. */
  function Padding(b: seq<byte>): (p: string)
    ensures forall i :: 0 <= i < |p| ==> p[i] == '='
    ensures (|Sextets(b)| + |p|) % 4 == 0
  {
    if |b| % 3 == 1 then "==" else if |b| % 3 == 2 then "=" else ""
  }

  /** Standard base64 of a byte sequence: the symbols of its groups, then the padding. */
  function EncodeStd(b: seq<byte>): (s: string)
    ensures |s| % 4 == 0
    ensures |s| == 4 * ((|b| + 2) / 3)
  {
    Symbols(Sextets(b)) + Padding(b)
  }

  /** The values of the symbols of `s`, or None when some character is not in the alphabet. */
  function Values(s: string): (r: Option<seq<int>>)
    ensures r.Some? <==> forall i :: 0 <= i < |s| ==> StdValue(s[i]).Some?
    ensures r.Some? ==> |r.value| == |s| && AllSextets(r.value) && Symbols(r.value) == s
  {
    if forall i :: 0 <= i < |s| ==> StdValue(s[i]).Some? then
      Some(seq(|s|, i requires 0 <= i < |s| => StdValue(s[i]).value))
    else
      None
  }

  function StripWhitespace(s: string): (r: string)
    ensures forall c :: c in r <==> c in s && !IsAsciiWhitespace(c)
  {
    if |s| == 0 then []
    else (if IsAsciiWhitespace(s[0]) then [] else [s[0]]) + StripWhitespace(s[1..])
  }

  /** Drops one or two trailing `=`, the second step of forgiving-base64 decode. */
  function DropPadding(s: string): (r: string)
    ensures r <= s && |s| - 2 <= |r|
    ensures forall i :: |r| <= i < |s| ==> s[i] == '='
  {
    if |s| >= 2 && s[|s| - 2] == '=' && s[|s| - 1] == '=' then s[..|s| - 2]
    else if |s| >= 1 && s[|s| - 1] == '=' then s[..|s| - 1]
    else s
  }

  /**
   * Forgiving-base64 decode (WHATWG Infra Standard), None standing for failure. Whitespace
   * is ignored; what remains must not be 1 modulo 4 long; every other character except `=`
   * must be in the standard alphabet; and each four characters give at most three bytes.
   */
  function ForgivingDecode(data: string): (r: Option<seq<byte>>)
    ensures |StripWhitespace(data)| % 4 == 1 ==> r.None?
    ensures r.Some? ==> forall i :: 0 <= i < |data| && data[i] != '=' && !IsAsciiWhitespace(data[i]) ==> StdValue(data[i]).Some?
    ensures r.Some? ==> 4 * |r.value| <= 3 * |StripWhitespace(data)|
  {
    var d0 := StripWhitespace(data);
    var d := if |d0| % 4 == 0 then DropPadding(d0) else d0;
    if |d| % 4 == 1 then None
    else match Values(d)
      case None => None
      case Some(v) => Some(DecodeSextets(v))
  }

  /** The binary string whose character codes are the given bytes (`String.fromCharCode`). */
  function BinaryString(b: seq<byte>): (s: string)
    ensures |s| == |b| && forall i :: 0 <= i < |b| ==> s[i] as int == b[i]
  {
    seq(|b|, i requires 0 <= i < |b| => b[i] as char)
  }

  predicate IsBinaryString(s: string) {
    forall i :: 0 <= i < |s| ==> s[i] as int < 256
  }

  /** The character codes of a binary string (`charCodeAt`). */
  function CharCodes(s: string): (b: seq<byte>)
    requires IsBinaryString(s)
    ensures BinaryString(b) == s
  {
    seq(|s|, i requires 0 <= i < |s| => s[i] as int)
  }

  /**
   * `btoa`: None where the browser throws InvalidCharacterError, which is exactly when a
   * code is above 255; otherwise four characters for every three codes or part thereof.
   */
  function Btoa(s: string): (r: Option<string>)
    ensures r.Some? <==> IsBinaryString(s)
    ensures r.Some? ==> |r.value| == 4 * ((|s| + 2) / 3) && |r.value| % 4 == 0
  {
    if IsBinaryString(s) then Some(EncodeStd(CharCodes(s))) else None
  }

  /** `atob`: None where the browser throws InvalidCharacterError. */
  function Atob(s: string): (r: Option<string>)
    ensures r.None? <==> ForgivingDecode(s).None?
    ensures r.Some? ==> IsBinaryString(r.value) && ForgivingDecode(s) == Some(CharCodes(r.value))
  {
    match ForgivingDecode(s)
    case None => None
    case Some(b) =>
      assert CharCodes(BinaryString(b)) == b;
      Some(BinaryString(b))
  }
}
