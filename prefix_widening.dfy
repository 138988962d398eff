/**
 * `fetchResultBodyFromViewByKey`: an exact lookup is a single-key view
 * request; an inexact one asks for the key range from `[v]` to `[w]`, where
 * `w` widens the lookup value `v` (an integer or integer string plus one, any
 * other string with `1` appended), so that composite keys starting with `v`
 * fall inside the range. The view's `rows` are the result. The HTTP request is
 * the parameter `get`.
 */
module PrefixWidening {
  import opened PhpValues
  import opened UrlCodec
  import opened KeyCodec
  import opened CompositeKey
  import opened QueryBuilder
  import opened KeyBatcher

  /** A numeric string is widened by arithmetic, which this model carries out
      for integer strings only. */
  predicate Widenable(v: Value) {
    v.Str? && IsNumericString(v.s) ==> IsIntegerString(v.s)
  }

  /** `$lookupVal + 1` for a numeric value (tested first), `$lookupVal . '1'`
      for any other string, and the exception otherwise. */
  function WidenForPrefixMatch(v: Value): (r: Result<Value>)
    requires Widenable(v)
    ensures r.Ok? <==> v.Int? || v.Str?
    ensures r.Err? ==> r.error == InvalidLookupValue
  {
    if v.Int? then Ok(Int(v.i + 1))
    else if v.Str? && IsNumericString(v.s) then Ok(Int(IntegerStringValue(v.s) + 1))
    else if v.Str? then Ok(Str(v.s + "1"))
    else Err(InvalidLookupValue)
  }

  /** The range key `array(array($v), array($w))`. */
  function PrefixRange(v: Value, limit: Value): Value {
    Arr([Arr([v]), Arr([limit])])
  }

  /** The URL `fetchResultBodyFromViewByKey` requests, through
      `fetchViewWithKeyMatch` or `fetchViewWithKeyRange` (no grouping), or the
      exception it raises first. */
  function ByKeyUrl(designDoc: string, view: string, v: Value, exactKeyMatch: bool, includeDocs: bool)
    : (r: Result<string>)
    requires !exactKeyMatch ==> Widenable(v)
    ensures !exactKeyMatch && !v.Int? && !v.Str? ==> r == Err(InvalidLookupValue)
    ensures r.Ok? ==> ViewPath(designDoc, view) <= r.value
  {
    if exactKeyMatch then ViewUrl(designDoc, view, v, KeyLookupSingle, NoGrouping, includeDocs)
    else
      match WidenForPrefixMatch(v)
      case Err(e) => Err(e)
      case Ok(limit) => ViewUrl(designDoc, view, PrefixRange(v, limit), KeyLookupRange, NoGrouping, includeDocs)
  }

  /** `fetchResultBodyFromViewByKey(...)`: the `rows` of the response. */
  function ResultRowsByKey(designDoc: string, view: string, v: Value, exactKeyMatch: bool, includeDocs: bool,
                           get: string -> Result<Response>): (r: Result<seq<Value>>)
    requires !exactKeyMatch ==> Widenable(v)
    ensures !exactKeyMatch && !v.Int? && !v.Str? ==> r == Err(InvalidLookupValue)
    ensures ByKeyUrl(designDoc, view, v, exactKeyMatch, includeDocs).Err? ==>
      r == Err(ByKeyUrl(designDoc, view, v, exactKeyMatch, includeDocs).error)
  {
    match ByKeyUrl(designDoc, view, v, exactKeyMatch, includeDocs)
    case Err(e) => Err(e)
    case Ok(url) =>
      match get(url)
      case Err(e) => Err(e)
      case Ok(response) => Ok(response.rows)
  }

  // ---------------------------------------------------------------------------
  // Properties.

  /** Widening goes up: an integer, or an integer string, becomes its value
      plus one; any other string gets `1` appended, so it is a proper prefix
      of its widened form. */
  lemma WideningGoesUp(v: Value)
    requires Widenable(v) && (v.Int? || v.Str?)
    ensures v.Int? ==> WidenForPrefixMatch(v) == Ok(Int(v.i + 1))
    ensures v.Str? && IsIntegerString(v.s) ==> WidenForPrefixMatch(v) == Ok(Int(IntegerStringValue(v.s) + 1))
    ensures v.Str? && !IsNumericString(v.s) ==>
      WidenForPrefixMatch(v) == Ok(Str(v.s + "1")) && (v.s + "1")[..|v.s|] == v.s
  {
    if v.Str? && IsIntegerString(v.s) {
      IntegerStringIsNumeric(v.s);
    }
  }

  /** The exact path is a single-key lookup: `?key=<enc(v)>`, then
      `&include_docs=true` when asked for; a falsy value asks for no key. */
  lemma ExactLookupUrl(designDoc: string, view: string, v: Value, includeDocs: bool)
    ensures !Truthy(v) ==>
      ByKeyUrl(designDoc, view, v, true, includeDocs) == Ok(ViewPath(designDoc, view) + DocsText('?', includeDocs))
    ensures Truthy(v) && EncodeKey(v).Ok? ==>
      ByKeyUrl(designDoc, view, v, true, includeDocs)
      == Ok(ViewPath(designDoc, view) + ("?key=" + EncodeKey(v).value) + DocsText('&', includeDocs))
    ensures Truthy(v) && EncodeKey(v).Err? ==> ByKeyUrl(designDoc, view, v, true, includeDocs) == Err(InvalidKeyType)
  {
    assert Tail('?', NoGrouping, includeDocs) == DocsText('?', includeDocs);
    assert Tail('&', NoGrouping, includeDocs) == DocsText('&', includeDocs);
    if Truthy(v) {
      SingleLookupUrl(designDoc, view, v, NoGrouping, includeDocs);
    } else {
      FalsyKeyUrl(designDoc, view, v, KeyLookupSingle, NoGrouping, includeDocs);
    }
  }

  /** The range URL for the bounds `[a]` and `[b]`. */
  lemma PrefixRangeUrl(designDoc: string, view: string, a: Value, ea: string, b: Value, eb: string, includeDocs: bool)
    requires EncodeParamValue(a) == Ok(ea) && EncodeParamValue(b) == Ok(eb)
    ensures ViewUrl(designDoc, view, PrefixRange(a, b), KeyLookupRange, NoGrouping, includeDocs)
      == Ok(ViewPath(designDoc, view) + ("?startkey=" + ("[" + ea + "]") + "&endkey=" + ("[" + eb + "]"))
            + DocsText('&', includeDocs))
  {
    EncodeCompositeSingle(a, ea);
    EncodeCompositeSingle(b, eb);
    var bounds := [Arr([a]), Arr([b])];
    assert Index(bounds, 1) == Arr([b]);
    assert EncodeKey(bounds[0]) == Ok("[" + ea + "]");
    assert EncodeKey(Index(bounds, 1)) == Ok("[" + eb + "]");
    RangeLookupUrl(designDoc, view, bounds, NoGrouping, includeDocs);
    assert Tail('&', NoGrouping, includeDocs) == DocsText('&', includeDocs) by {
      assert GroupText('&', NoGrouping) == "";
    }
  }

  /** An integer `i` asks for the range `[i]` to `[i+1]`. */
  lemma IntegerPrefixUrl(designDoc: string, view: string, i: int, includeDocs: bool)
    ensures ByKeyUrl(designDoc, view, Int(i), false, includeDocs)
      == Ok(ViewPath(designDoc, view)
            + ("?startkey=" + ("[" + IntToDecimal(i) + "]") + "&endkey=" + ("[" + IntToDecimal(i + 1) + "]"))
            + DocsText('&', includeDocs))
  {
    assert WidenForPrefixMatch(Int(i)) == Ok(Int(i + 1));
    assert ByKeyUrl(designDoc, view, Int(i), false, includeDocs)
      == ViewUrl(designDoc, view, PrefixRange(Int(i), Int(i + 1)), KeyLookupRange, NoGrouping, includeDocs);
    EncodeIntIsDecimal(i);
    EncodeIntIsDecimal(i + 1);
    PrefixRangeUrl(designDoc, view, Int(i), IntToDecimal(i), Int(i + 1), IntToDecimal(i + 1), includeDocs);
  }

  /** An integer string `s` asks for the range `[s]` (a number, without quotes)
      to `[s+1]`. */
  lemma IntegerStringPrefixUrl(designDoc: string, view: string, s: string, includeDocs: bool)
    requires IsIntegerString(s)
    ensures ByKeyUrl(designDoc, view, Str(s), false, includeDocs)
      == Ok(ViewPath(designDoc, view)
            + ("?startkey=" + ("[" + UrlEncode(s) + "]") + "&endkey="
               + ("[" + IntToDecimal(IntegerStringValue(s) + 1) + "]"))
            + DocsText('&', includeDocs))
  {
    IntegerStringIsNumeric(s);
    var w := IntegerStringValue(s) + 1;
    assert WidenForPrefixMatch(Str(s)) == Ok(Int(w));
    assert ByKeyUrl(designDoc, view, Str(s), false, includeDocs)
      == ViewUrl(designDoc, view, PrefixRange(Str(s), Int(w)), KeyLookupRange, NoGrouping, includeDocs);
    assert EncodeParamValue(Str(s)) == Ok(UrlEncode(s));
    EncodeIntIsDecimal(w);
    PrefixRangeUrl(designDoc, view, Str(s), UrlEncode(s), Int(w), IntToDecimal(w), includeDocs);
  }

  /** A string `s` that is not numeric, and not numeric after `1` is appended,
      asks for the range from the quoted `s` to the quoted `s1`. */
  lemma StringPrefixUrl(designDoc: string, view: string, s: string, includeDocs: bool)
    requires !IsNumericString(s) && !IsNumericString(s + "1")
    ensures ByKeyUrl(designDoc, view, Str(s), false, includeDocs)
      == Ok(ViewPath(designDoc, view)
            + ("?startkey=" + ("[" + QuotedKey(s) + "]") + "&endkey=" + ("[" + QuotedKey(s + "1") + "]"))
            + DocsText('&', includeDocs))
  {
    PrefixRangeUrl(designDoc, view, Str(s), QuotedKey(s), Str(s + "1"), QuotedKey(s + "1"), includeDocs);
  }

  /** A value that is neither numeric nor a string raises the exception before
      any request is made, whatever the transport would answer. */
  lemma WideningFailsBeforeFetch(designDoc: string, view: string, v: Value, includeDocs: bool)
    requires !v.Int? && !v.Str?
    ensures forall get: string -> Result<Response> ::
      ResultRowsByKey(designDoc, view, v, false, includeDocs, get) == Err(InvalidLookupValue)
  {
  }

  /** A request that is made returns the rows of the response to exactly the
      URL `ByKeyUrl` describes. */
  lemma RowsOfTheRequestedUrl(designDoc: string, view: string, v: Value, exactKeyMatch: bool, includeDocs: bool,
                              get: string -> Result<Response>)
    requires !exactKeyMatch ==> Widenable(v)
    requires ByKeyUrl(designDoc, view, v, exactKeyMatch, includeDocs).Ok?
    ensures get(ByKeyUrl(designDoc, view, v, exactKeyMatch, includeDocs).value).Ok? ==>
      ResultRowsByKey(designDoc, view, v, exactKeyMatch, includeDocs, get)
      == Ok(get(ByKeyUrl(designDoc, view, v, exactKeyMatch, includeDocs).value).value.rows)
  {
  }

  // ---------------------------------------------------------------------------
  // The widened string is encoded by `encodeURLParamValue`, which tests
  // `is_numeric` first: a non-numeric string whose widened form is numeric
  // (such as "" or "1e") gets an upper bound that is a number, not a string.

  /** The URL encoding of a string key in double quotes. */
  function QuotedKey(s: string): string {
    UrlEncode("\"" + s + "\"")
  }

  lemma QuotedKeyIsQuoted(s: string)
    ensures QuotedKey(s) == "%22" + UrlEncode(s) + "%22"
  {
    UrlEncodeConcat("\"", s);
    UrlEncodeConcat("\"" + s, "\"");
    UrlEncodeQuote();
  }

  /** As written: a string that is not numeric but becomes numeric when `1`
      is appended gets a quoted start bound and an unquoted, numeric end
      bound. */
  lemma WidenedStringTurnsNumeric(designDoc: string, view: string, s: string, includeDocs: bool)
    requires !IsNumericString(s) && IsNumericString(s + "1")
    ensures ByKeyUrl(designDoc, view, Str(s), false, includeDocs)
      == Ok(ViewPath(designDoc, view)
            + ("?startkey=" + ("[" + QuotedKey(s) + "]") + "&endkey=" + ("[" + UrlEncode(s + "1") + "]"))
            + DocsText('&', includeDocs))
  {
    PrefixRangeUrl(designDoc, view, Str(s), QuotedKey(s), Str(s + "1"), UrlEncode(s + "1"), includeDocs);
  }

  /** The empty string is such a string: its range ends at the number 1. */
  lemma EmptyStringWidensToNumber()
    ensures !IsNumericString("") && IsNumericString("" + "1")
    ensures QuotedKey("") == "%22%22" && UrlEncode("" + "1") == "1"
  {
    assert "" + "1" == "1";
    assert Scan("1", Leading, true) == Scan("", IntPart, true);
    IntegerStringIsNumeric("1");
    UrlEncodeUnreserved("1");
    QuotedKeyIsQuoted("");
    assert UrlEncode("") == "";
    assert "%22" + "" + "%22" == "%22%22";
  }

  /** The evidently intended URL: a string lookup value that is not numeric
      gives two string bounds, the end bound quoted like the start bound. */
  function CorrectedByKeyUrl(designDoc: string, view: string, v: Value, exactKeyMatch: bool, includeDocs: bool)
    : Result<string>
    requires !exactKeyMatch ==> Widenable(v)
  {
    if !exactKeyMatch && v.Str? && !IsNumericString(v.s) then
      Ok(ViewPath(designDoc, view)
         + Render([Param("startkey", "[" + QuotedKey(v.s) + "]"), Param("endkey", "[" + QuotedKey(v.s + "1") + "]")]
                  + DocsParams(includeDocs)))
    else ByKeyUrl(designDoc, view, v, exactKeyMatch, includeDocs)
  }

  /** Every non-numeric string asks for the quoted range from `s` to `s1`. */
  lemma CorrectedStringBoundsQuoted(designDoc: string, view: string, s: string, includeDocs: bool)
    requires !IsNumericString(s)
    ensures CorrectedByKeyUrl(designDoc, view, Str(s), false, includeDocs)
      == Ok(ViewPath(designDoc, view)
            + ("?startkey=" + ("[" + QuotedKey(s) + "]") + "&endkey=" + ("[" + QuotedKey(s + "1") + "]"))
            + DocsText('&', includeDocs))
    ensures QuotedKey(s) == "%22" + UrlEncode(s) + "%22" && QuotedKey(s + "1") == "%22" + UrlEncode(s + "1") + "%22"
  {
    var a, b := "[" + QuotedKey(s) + "]", "[" + QuotedKey(s + "1") + "]";
    var ps := [Param("startkey", a), Param("endkey", b)];
    RenderRange(a, b);
    RenderDocs(ps, includeDocs);
    Assoc(ViewPath(designDoc, view), "?startkey=" + a + "&endkey=" + b, DocsText('&', includeDocs));
    QuotedKeyIsQuoted(s);
    QuotedKeyIsQuoted(s + "1");
  }

  /** The correction changes nothing else: it agrees with the source on every
      other lookup. */
  lemma CorrectedAgreesElsewhere(designDoc: string, view: string, v: Value, exactKeyMatch: bool, includeDocs: bool)
    requires !exactKeyMatch ==> Widenable(v)
    requires !exactKeyMatch && v.Str? && !IsNumericString(v.s) ==> !IsNumericString(v.s + "1")
    ensures CorrectedByKeyUrl(designDoc, view, v, exactKeyMatch, includeDocs)
      == ByKeyUrl(designDoc, view, v, exactKeyMatch, includeDocs)
  {
    if !exactKeyMatch && v.Str? && !IsNumericString(v.s) {
      StringPrefixUrl(designDoc, view, v.s, includeDocs);
      CorrectedStringBoundsQuoted(designDoc, view, v.s, includeDocs);
    }
  }
}
