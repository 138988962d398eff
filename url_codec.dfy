/**
 * PHP `urlencode`: percent-encoding (section 2.1 of RFC 3986) in the
 * application/x-www-form-urlencoded style, applied to the UTF-8 bytes of a
 * string. ASCII letters, digits and `-`, `_`, `.` are kept, a space becomes
 * `+`, every other byte becomes `%XX` with upper-case hexadecimal digits.
 * `UrlDecode` (PHP `urldecode`) is its inverse.
 */
module UrlCodec {

  type Byte = b: int | 0 <= b < 256

  /** The UTF-8 encoding of one character (a Unicode scalar value). */
  function Utf8(c: char): (r: seq<Byte>)
    ensures 1 <= |r| <= 4
    ensures c as int < 128 <==> r == [c as int]
  {
    var n := c as int;
    if n < 0x80 then [n]
    else if n < 0x800 then [0xC0 + n / 64, 0x80 + n % 64]
    else if n < 0x1_0000 then [0xE0 + n / 4096, 0x80 + (n / 64) % 64, 0x80 + n % 64]
    else [0xF0 + n / 262144, 0x80 + (n / 4096) % 64, 0x80 + (n / 64) % 64, 0x80 + n % 64]
  }

  function Utf8Encode(s: string): seq<Byte> {
    if s == [] then [] else Utf8Encode(s[..|s| - 1]) + Utf8(s[|s| - 1])
  }

  lemma {:induction false} Utf8EncodeConcat(a: string, b: string)
    ensures Utf8Encode(a + b) == Utf8Encode(a) + Utf8Encode(b)
  {
    if b != [] {
      assert (a + b)[..|a + b| - 1] == a + b[..|b| - 1];
      Utf8EncodeConcat(a, b[..|b| - 1]);
    } else {
      assert a + b == a;
    }
  }

  /** Bytes `urlencode` passes through unchanged. */
  predicate IsUnreservedByte(b: Byte) {
    ('A' as int <= b <= 'Z' as int) || ('a' as int <= b <= 'z' as int)
    || ('0' as int <= b <= '9' as int)
    || b == '-' as int || b == '_' as int || b == '.' as int
  }

  predicate IsUnreservedChar(c: char) {
    c as int < 256 && IsUnreservedByte(c as int)
  }

  /** Upper-case hexadecimal digit. */
  function HexDigit(d: nat): (c: char)
    requires d < 16
  {
    if d < 10 then ('0' as int + d) as char else ('A' as int + d - 10) as char
  }

  /** Value of a hexadecimal digit as `urldecode` reads it (either case). */
  function HexValue(c: char): (r: int)
    ensures -1 <= r < 16
  {
    if '0' <= c <= '9' then c as int - '0' as int
    else if 'A' <= c <= 'F' then c as int - 'A' as int + 10
    else if 'a' <= c <= 'f' then c as int - 'a' as int + 10
    else -1
  }

  /** Characters `urlencode` can produce. */
  predicate IsEncodedAlphabet(c: char) {
    IsUnreservedChar(c) || c == '+' || c == '%'
  }

  function EncodeByte(b: Byte): string {
    if IsUnreservedByte(b) then [b as char]
    else if b == ' ' as int then "+"
    else ['%', HexDigit(b / 16), HexDigit(b % 16)]
  }

  function EncodeBytes(bs: seq<Byte>): string {
    if bs == [] then "" else EncodeByte(bs[0]) + EncodeBytes(bs[1..])
  }

  /** PHP `urlencode($s)`. */
  function UrlEncode(s: string): (r: string)
    ensures UrlDecode(r) == Utf8Encode(s)
  {
    DecodeEncode(Utf8Encode(s));
    EncodeBytes(Utf8Encode(s))
  }

  lemma EncodeByteAlphabet(b: Byte)
    ensures forall i :: 0 <= i < |EncodeByte(b)| ==> IsEncodedAlphabet(EncodeByte(b)[i])
  {
    if !IsUnreservedByte(b) && b != ' ' as int {
      var e := EncodeByte(b);
      assert IsEncodedAlphabet(HexDigit(b / 16)) && IsEncodedAlphabet(HexDigit(b % 16)) by {
        HexDigitUnreserved(b / 16);
        HexDigitUnreserved(b % 16);
      }
      assert e == ['%', HexDigit(b / 16), HexDigit(b % 16)];
    }
  }

  lemma HexDigitUnreserved(d: nat)
    requires d < 16
    ensures IsUnreservedChar(HexDigit(d))
  {
  }

  /** `urlencode` only ever produces unreserved characters, `+` and `%`. */
  lemma {:induction false} EncodeBytesAlphabet(bs: seq<Byte>)
    ensures forall i :: 0 <= i < |EncodeBytes(bs)| ==> IsEncodedAlphabet(EncodeBytes(bs)[i])
  {
    if bs != [] {
      EncodeBytesAlphabet(bs[1..]);
      var h, t := EncodeByte(bs[0]), EncodeBytes(bs[1..]);
      EncodeByteAlphabet(bs[0]);
      assert forall i :: |h| <= i < |h + t| ==> (h + t)[i] == t[i - |h|];
    }
  }

  /** No character that would end a query parameter or start a new query. */
  predicate IsQuerySafe(s: string) {
    forall i :: 0 <= i < |s| ==> s[i] != '?' && s[i] != '&'
  }

  lemma QuerySafeConcat(a: string, b: string)
    requires IsQuerySafe(a) && IsQuerySafe(b)
    ensures IsQuerySafe(a + b)
  {
    assert forall i :: |a| <= i < |a + b| ==> (a + b)[i] == b[i - |a|];
  }

  /** In particular its output holds no `?` and no `&`, the characters that
      delimit a query string and its parameters. */
  lemma UrlEncodeHasNoDelimiters(s: string)
    ensures IsQuerySafe(UrlEncode(s))
  {
    EncodeBytesAlphabet(Utf8Encode(s));
  }

  /** PHP `urldecode($t)`: `+` is a space, `%` followed by two hexadecimal
      digits is that byte, any other character stands for its own bytes. */
  function UrlDecode(t: string): seq<Byte> {
    if t == [] then []
    else if t[0] == '+' then [' ' as int] + UrlDecode(t[1..])
    else if t[0] == '%' && |t| >= 3 && HexValue(t[1]) >= 0 && HexValue(t[2]) >= 0 then
      [HexValue(t[1]) * 16 + HexValue(t[2])] + UrlDecode(t[3..])
    else Utf8(t[0]) + UrlDecode(t[1..])
  }

  lemma {:induction false} EncodeBytesConcat(a: seq<Byte>, b: seq<Byte>)
    ensures EncodeBytes(a + b) == EncodeBytes(a) + EncodeBytes(b)
  {
    if a != [] {
      assert (a + b)[1..] == a[1..] + b;
      EncodeBytesConcat(a[1..], b);
    } else {
      assert a + b == b;
    }
  }

  /** `urlencode` works character by character: it distributes over concatenation. */
  lemma UrlEncodeConcat(a: string, b: string)
    ensures UrlEncode(a + b) == UrlEncode(a) + UrlEncode(b)
  {
    Utf8EncodeConcat(a, b);
    EncodeBytesConcat(Utf8Encode(a), Utf8Encode(b));
  }

  lemma HexDigitValue(d: nat)
    requires d < 16
    ensures HexValue(HexDigit(d)) == d
  {
  }

  /** `%` and two hexadecimal digits are read as one byte. */
  lemma DecodePercent(c1: char, c2: char, rest: string)
    requires HexValue(c1) >= 0 && HexValue(c2) >= 0
    ensures UrlDecode(['%', c1, c2] + rest) == [HexValue(c1) * 16 + HexValue(c2)] + UrlDecode(rest)
  {
    var t := ['%', c1, c2] + rest;
    assert t[0] == '%' && t[1] == c1 && t[2] == c2 && t[3..] == rest;
  }

  /** A byte written as `%XX` is read back as that byte. */
  lemma DecodePercentByte(b: Byte, rest: string)
    ensures UrlDecode(['%', HexDigit(b / 16), HexDigit(b % 16)] + rest) == [b] + UrlDecode(rest)
  {
    HexPair(b);
    DecodePercent(HexDigit(b / 16), HexDigit(b % 16), rest);
  }

  /** The two hexadecimal digits of a byte read back as the byte. */
  lemma HexPair(b: Byte)
    ensures HexValue(HexDigit(b / 16)) * 16 + HexValue(HexDigit(b % 16)) == b
  {
    HexDigitValue(b / 16);
    HexDigitValue(b % 16);
  }

  lemma DecodeEncodedByte(b: Byte, rest: string)
    ensures UrlDecode(EncodeByte(b) + rest) == [b] + UrlDecode(rest)
  {
    var t := EncodeByte(b) + rest;
    if IsUnreservedByte(b) {
      assert t[0] == b as char && t[1..] == rest;
      assert t[0] != '+' && t[0] != '%';
    } else if b == ' ' as int {
      assert t[0] == '+' && t[1..] == rest;
    } else {
      assert EncodeByte(b) == ['%', HexDigit(b / 16), HexDigit(b % 16)];
      DecodePercentByte(b, rest);
    }
  }

  /** Decoding undoes encoding, for every byte string. */
  lemma {:induction false} DecodeEncode(bs: seq<Byte>)
    ensures UrlDecode(EncodeBytes(bs)) == bs
  {
    if bs != [] {
      DecodeEncodedByte(bs[0], EncodeBytes(bs[1..]));
      DecodeEncode(bs[1..]);
    }
  }

  /** `urldecode(urlencode($s))` gives back the bytes of `$s`. */
  lemma UrlRoundTrip(s: string)
    ensures UrlDecode(UrlEncode(s)) == Utf8Encode(s)
  {
    DecodeEncode(Utf8Encode(s));
  }

  /** A string made only of unreserved characters is left as it is. */
  lemma {:induction false} UrlEncodeUnreserved(s: string)
    requires forall i :: 0 <= i < |s| ==> IsUnreservedChar(s[i])
    ensures UrlEncode(s) == s
  {
    if s != [] {
      var init := s[..|s| - 1];
      UrlEncodeUnreserved(init);
      assert s == init + [s[|s| - 1]];
      UrlEncodeConcat(init, [s[|s| - 1]]);
      assert Utf8Encode([s[|s| - 1]]) == [s[|s| - 1] as int] by {
        assert [s[|s| - 1]][..0] == [];
      }
      assert EncodeBytes([s[|s| - 1] as int]) == [s[|s| - 1]];
    }
  }

  /** The double quote PHP wraps around string keys becomes `%22`. */
  lemma UrlEncodeQuote()
    ensures UrlEncode("\"") == "%22"
  {
    assert "\""[..0] == [];
    assert Utf8Encode("\"") == ['"' as int];
    assert EncodeBytes(['"' as int]) == EncodeByte('"' as int);
  }
}
