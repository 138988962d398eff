/**
 * Encoding of a scalar view key as a URL parameter value: `encodeURLParamValue`.
 */
module KeyCodec {
  import opened PhpValues
  import opened UrlCodec

  /** The values `encodeURLParamValue` accepts: integers, strings and the empty object. */
  predicate Encodable(p: Value) {
    p.Int? || p.Str? || (p.Obj? && |p.fields| == 0)
  }

  /** `encodeURLParamValue($p)`: `is_numeric` is tried first (an integer or a
      numeric string is URL-encoded as it is), then `is_string` (the string is
      quoted, then URL-encoded), then the empty object (the literal `{}`);
      anything else is an invalid key. */
  function EncodeParamValue(p: Value): (r: Result<string>)
    ensures r.Ok? <==> Encodable(p)
    ensures r.Err? ==> r.error == InvalidKeyType
    ensures r.Ok? ==> IsQuerySafe(r.value)
    ensures p.Obj? && r.Ok? ==> r.value == "{}"
    ensures p.Str? && IsNumericString(p.s) ==> r == Ok(UrlEncode(p.s))
  {
    match p
    case Int(i) =>
      UrlEncodeHasNoDelimiters(IntToDecimal(i));
      Ok(UrlEncode(IntToDecimal(i)))
    case Str(s) =>
      UrlEncodeHasNoDelimiters(s);
      UrlEncodeHasNoDelimiters("\"" + s + "\"");
      if IsNumericString(s) then Ok(UrlEncode(s)) else Ok(UrlEncode("\"" + s + "\""))
    case Obj(f) => if f == map[] then Ok("{}") else Err(InvalidKeyType)
    case _ => Err(InvalidKeyType)
  }

  /** An integer key is its decimal form, without quotes; URL-decoding and
      reading it back as a number gives the integer again. */
  lemma EncodeIntIsDecimal(i: int)
    ensures EncodeParamValue(Int(i)) == Ok(IntToDecimal(i))
    ensures IsIntegerString(IntToDecimal(i))
    ensures UrlDecode(IntToDecimal(i)) == Utf8Encode(IntToDecimal(i))
    ensures IntegerStringValue(IntToDecimal(i)) == i
  {
    var d := IntToDecimal(i);
    assert forall j :: 0 <= j < |d| ==> IsUnreservedChar(d[j]) by {
      var n: nat := if i < 0 then -i else i;
      var t := NatToDecimal(n);
      if i < 0 {
        assert forall j :: 1 <= j < |d| ==> d[j] == t[j - 1];
      }
    }
    UrlEncodeUnreserved(d);
    UrlRoundTrip(d);
    DecimalRoundTrip(i);
  }

  /** A string that is not numeric is quoted: `%22`, its URL encoding, `%22`. */
  lemma EncodeStringIsQuoted(s: string)
    requires !IsNumericString(s)
    ensures EncodeParamValue(Str(s)) == Ok("%22" + UrlEncode(s) + "%22")
  {
    UrlEncodeConcat("\"", s);
    UrlEncodeConcat("\"" + s, "\"");
    UrlEncodeQuote();
  }
}
