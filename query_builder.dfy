/**
 * The view URL `fetchView` sends to CouchDB:
 * `/_design/<designDoc>/_view/<view>` followed by the query parameters for
 * the key (single, multi or range lookup), the grouping and `include_docs`.
 *
 * The specification `ViewUrl` lists the parameters and renders them with a
 * separator rule; `BuildViewUrl` appends to the URL step by step and threads
 * the glue character as the source does.
 */
module QueryBuilder {
  import opened PhpValues
  import opened UrlCodec
  import opened KeyCodec
  import opened CompositeKey

  /** Key lookup types (`KEY_LOOKUP_SINGLE`, `KEY_LOOKUP_MULTI`, `KEY_LOOKUP_RANGE`). */
  const KeyLookupSingle: int := 1
  const KeyLookupMulti: int := 2
  const KeyLookupRange: int := 3

  /** The `$grouping` argument: `null`, a boolean, or a grouping level. */
  datatype Grouping = NoGrouping | Exact(flag: bool) | Level(level: int)

  /** One query parameter `name=value`. */
  datatype Param = Param(name: string, value: string)

  function ViewPath(designDoc: string, view: string): string {
    "/_design/" + designDoc + "/_view/" + view
  }

  /** `$a[$i]`, with PHP's `null` for an index that is not there. */
  function Index(items: seq<Value>, i: nat): Value {
    if i < |items| then items[i] else Null
  }

  /** A key or key bound: an array goes through `implodeArrayKey`, anything else
      through `encodeURLParamValue`. */
  function EncodeKey(v: Value): (r: Result<string>)
    ensures r.Ok? ==> IsQuerySafe(r.value)
    ensures r.Err? ==> r.error == InvalidKeyType
  {
    if v.Arr? then EncodeComposite(v.items) else EncodeParamValue(v)
  }

  /** `implodeArrayKey($k)` for one key of a multi lookup whose first key is an
      array: an array is imploded; `foreach` over a scalar or an empty object
      iterates nothing, which leaves `]`. */
  function ImplodeLoose(v: Value): (r: Result<string>)
    requires !(v.Obj? && v.fields != map[])
    ensures r.Ok? ==> IsQuerySafe(r.value)
  {
    if v.Arr? then EncodeComposite(v.items) else Ok("]")
  }

  /** Keys of a multi lookup that `implodeArrayKey` can iterate in a known order. */
  predicate NoAttributedObject(items: seq<Value>) {
    forall i :: 0 <= i < |items| ==> !(items[i].Obj? && items[i].fields != map[])
  }

  /** The imploded keys of a multi lookup, in order; the first failure wins. */
  function ImplodeEach(items: seq<Value>): (r: Result<seq<string>>)
    requires NoAttributedObject(items)
    ensures r.Ok? ==> |r.value| == |items|
    ensures r.Ok? ==> forall i :: 0 <= i < |r.value| ==> IsQuerySafe(r.value[i])
  {
    if items == [] then Ok([])
    else
      match ImplodeEach(items[..|items| - 1])
      case Err(e) => Err(e)
      case Ok(init) =>
        match ImplodeLoose(items[|items| - 1])
        case Err(e) => Err(e)
        case Ok(last) => Ok(init + [last])
  }

  /** PHP's conversion to string inside `implode`. */
  function RawString(v: Value): (r: Result<string>)
    ensures r.Err? <==> v.Obj?
  {
    match v
    case Null => Ok("")
    case Bool(b) => Ok(if b then "1" else "")
    case Int(i) => Ok(IntToDecimal(i))
    case Str(s) => Ok(s)
    case Arr(_) => Ok("Array")
    case Obj(_) => Err(NotConvertibleToString)
  }

  /** Every key converted to its raw string, in order. */
  function RawStrings(items: seq<Value>): (r: Result<seq<string>>)
    ensures r.Ok? <==> forall i :: 0 <= i < |items| ==> !items[i].Obj?
    ensures r.Ok? ==> |r.value| == |items|
    ensures r.Err? ==> r.error == NotConvertibleToString
  {
    if items == [] then Ok([])
    else
      match RawStrings(items[..|items| - 1])
      case Err(e) => Err(e)
      case Ok(init) =>
        match RawString(items[|items| - 1])
        case Err(e) => Err(e)
        case Ok(last) => Ok(init + [last])
  }

  /** What the source demands of the key: a truthy range or multi key is an
      array (its `assert(is_array($key))`), and the keys of a multi lookup whose
      first key is an array can be iterated in a known order. */
  predicate KeyWellFormed(key: Value, lookupType: int) {
    Truthy(key) && (lookupType == KeyLookupRange || lookupType == KeyLookupMulti) ==>
      key.Arr? && (lookupType == KeyLookupMulti && key.items[0].Arr? ==> NoAttributedObject(key.items))
  }

  /** The key entries of a multi lookup: imploded when the first key is an
      array, raw (not encoded at all) otherwise. */
  function MultiKeyEntries(items: seq<Value>): Result<seq<string>>
    requires items != [] && (items[0].Arr? ==> NoAttributedObject(items))
  {
    if items[0].Arr? then ImplodeEach(items) else RawStrings(items)
  }

  /** Range lookup: `startkey` from `$key[0]`, `endkey` from `$key[1]`. */
  function RangeParams(bounds: seq<Value>): Result<seq<Param>> {
    match EncodeKey(Index(bounds, 0))
    case Err(e) => Err(e)
    case Ok(start) =>
      match EncodeKey(Index(bounds, 1))
      case Err(e) => Err(e)
      case Ok(end) => Ok([Param("startkey", start), Param("endkey", end)])
  }

  /** Single lookup: `key`. */
  function SingleParams(key: Value): Result<seq<Param>> {
    match EncodeKey(key)
    case Err(e) => Err(e)
    case Ok(k) => Ok([Param("key", k)])
  }

  /** Multi lookup: `keys=[...]`, the entries joined by commas. */
  function MultiParams(keys: seq<Value>): Result<seq<Param>>
    requires keys != [] && (keys[0].Arr? ==> NoAttributedObject(keys))
  {
    match MultiKeyEntries(keys)
    case Err(e) => Err(e)
    case Ok(entries) => Ok([Param("keys", "[" + Join(",", entries) + "]")])
  }

  /** The parameters for the key: none when the key is falsy. */
  function KeyParams(key: Value, lookupType: int): (r: Result<seq<Param>>)
    requires KeyWellFormed(key, lookupType)
    ensures !Truthy(key) ==> r == Ok([])
    ensures Truthy(key) && lookupType !in {KeyLookupSingle, KeyLookupMulti, KeyLookupRange} ==>
      r == Err(InvalidLookupType(lookupType))
  {
    if !Truthy(key) then Ok([])
    else if lookupType == KeyLookupRange then RangeParams(key.items)
    else if lookupType == KeyLookupSingle then SingleParams(key)
    else if lookupType == KeyLookupMulti then MultiParams(key.items)
    else Err(InvalidLookupType(lookupType))
  }

  /** The URL `url` followed by the rendered parameters, or their error. */
  function Appended(url: string, ps: Result<seq<Param>>): Result<string> {
    match ps
    case Err(e) => Err(e)
    case Ok(ps) => Ok(url + Render(ps))
  }

  /** Grouping: `group=` and `(string)` of the boolean, or `group_level=`. */
  function GroupParams(g: Grouping): seq<Param> {
    match g
    case NoGrouping => []
    case Exact(b) => [Param("group", if b then "1" else "")]
    case Level(l) => [Param("group_level", IntToDecimal(l))]
  }

  function DocsParams(includeDocs: bool): seq<Param> {
    if includeDocs then [Param("include_docs", "true")] else []
  }

  /** The separator before the next parameter: `?` before the first one and
      after `keys=`, which does not advance the glue; `&` otherwise. */
  function NextSep(ps: seq<Param>): char {
    if ps == [] || ps[|ps| - 1].name == "keys" then '?' else '&'
  }

  function ParamText(p: Param): string {
    p.name + "=" + p.value
  }

  /** The query string: each parameter preceded by its separator. */
  function Render(ps: seq<Param>): string {
    if ps == [] then ""
    else Render(ps[..|ps| - 1]) + [NextSep(ps[..|ps| - 1])] + ParamText(ps[|ps| - 1])
  }

  /** The URL `fetchView` requests, or the exception it raises first. */
  function ViewUrl(designDoc: string, view: string, key: Value, lookupType: int,
                   grouping: Grouping, includeDocs: bool): (r: Result<string>)
    requires KeyWellFormed(key, lookupType)
    ensures r.Ok? ==> ViewPath(designDoc, view) <= r.value
    ensures !Truthy(key) ==> r.Ok?
    ensures Truthy(key) && lookupType !in {KeyLookupSingle, KeyLookupMulti, KeyLookupRange} ==>
      r == Err(InvalidLookupType(lookupType))
  {
    match KeyParams(key, lookupType)
    case Err(e) => Err(e)
    case Ok(kp) => Ok(ViewPath(designDoc, view) + Render(kp + GroupParams(grouping) + DocsParams(includeDocs)))
  }

  // ---------------------------------------------------------------------------
  // The imperative construction.

  lemma RenderSnoc(ps: seq<Param>, p: Param)
    ensures Render(ps + [p]) == Render(ps) + [NextSep(ps)] + ParamText(p)
  {
    assert (ps + [p])[..|ps|] == ps;
  }

  /** Appending `glue . name=value` to a URL that ends in the rendered `ps`. */
  lemma AppendParam(url: string, prefix: string, ps: seq<Param>, p: Param)
    requires url == prefix + Render(ps)
    ensures url + [NextSep(ps)] + ParamText(p) == prefix + Render(ps + [p])
  {
    RenderSnoc(ps, p);
  }

  /** The imploded keys of a multi lookup, built by a loop as the `foreach`
      with `array_push` does. */
  method ImplodeKeys(items: seq<Value>) returns (r: Result<seq<string>>)
    requires NoAttributedObject(items)
    ensures r == ImplodeEach(items)
  {
    var acc: seq<string> := [];
    var i := 0;
    while i < |items|
      invariant 0 <= i <= |items|
      invariant ImplodeEach(items[..i]) == Ok(acc)
    {
      assert items[..i + 1][..i] == items[..i];
      var e: Result<string>;
      if items[i].Arr? {
        e := ImplodeArrayKey(items[i].items);
      } else {
        e := Ok("]");
      }
      if e.Err? {
        ImplodeEachFails(items, i);
        return Err(e.error);
      }
      acc := acc + [e.value];
      i := i + 1;
    }
    assert items[..i] == items;
    r := Ok(acc);
  }

  /** A key that cannot be imploded makes the whole list fail with its error. */
  lemma {:induction false} ImplodeEachFails(items: seq<Value>, i: nat)
    requires NoAttributedObject(items) && i < |items|
    requires ImplodeEach(items[..i]).Ok? && ImplodeLoose(items[i]).Err?
    ensures ImplodeEach(items) == Err(ImplodeLoose(items[i]).error)
    decreases |items|
  {
    if i < |items| - 1 {
      var init := items[..|items| - 1];
      assert init[..i] == items[..i];
      ImplodeEachFails(init, i);
    } else {
      assert items[..|items| - 1] == items[..i];
    }
  }

  /** The range branch of `fetchView`, starting from the glue `?`. */
  method AppendRange(url: string, bounds: seq<Value>) returns (r: Result<string>)
    ensures r == Appended(url, RangeParams(bounds))
  {
    var glue := '?';
    var start := EncodeKeyStep(Index(bounds, 0));
    if start.Err? {
      return Err(start.error);
    }
    assert url == url + Render([]);
    AppendParam(url, url, [], Param("startkey", start.value));
    var out := url + [glue] + ParamText(Param("startkey", start.value));
    glue := '&';
    var end := EncodeKeyStep(Index(bounds, 1));
    if end.Err? {
      return Err(end.error);
    }
    AppendParam(out, url, [Param("startkey", start.value)], Param("endkey", end.value));
    out := out + [glue] + ParamText(Param("endkey", end.value));
    assert [Param("startkey", start.value)] + [Param("endkey", end.value)] ==
      [Param("startkey", start.value), Param("endkey", end.value)];
    r := Ok(out);
  }

  /** The single-key branch of `fetchView`, starting from the glue `?`. */
  method AppendSingle(url: string, key: Value) returns (r: Result<string>)
    ensures r == Appended(url, SingleParams(key))
  {
    var glue := '?';
    var k := EncodeKeyStep(key);
    if k.Err? {
      return Err(k.error);
    }
    assert url == url + Render([]);
    AppendParam(url, url, [], Param("key", k.value));
    assert [] + [Param("key", k.value)] == [Param("key", k.value)];
    r := Ok(url + [glue] + ParamText(Param("key", k.value)));
  }

  /** The multi-key branch of `fetchView`, starting from the glue `?`. */
  method AppendMulti(url: string, keys: seq<Value>) returns (r: Result<string>)
    requires keys != [] && (keys[0].Arr? ==> NoAttributedObject(keys))
    ensures r == Appended(url, MultiParams(keys))
  {
    var glue := '?';
    var entries: Result<seq<string>>;
    if keys[0].Arr? {
      entries := ImplodeKeys(keys);
    } else {
      entries := RawStrings(keys);
    }
    if entries.Err? {
      return Err(entries.error);
    }
    var p := Param("keys", "[" + Join(",", entries.value) + "]");
    assert url == url + Render([]);
    AppendParam(url, url, [], p);
    assert [] + [p] == [p];
    r := Ok(url + [glue] + ParamText(p));
  }

  /** The key stage of `fetchView`: appends the key parameters to `url`
      and gives the glue for what follows, which only a single or a range
      lookup advances to `&`. */
  method AppendKeyParams(url: string, key: Value, lookupType: int) returns (r: Result<string>, glue: char)
    requires KeyWellFormed(key, lookupType)
    ensures r == Appended(url, KeyParams(key, lookupType))
    ensures r.Ok? ==> glue == NextSep(KeyParams(key, lookupType).value)
  {
    glue := '?';
    if !Truthy(key) {
      assert url == url + Render([]);
      return Ok(url), glue;
    }
    if lookupType == KeyLookupRange {
      r := AppendRange(url, key.items);
      glue := '&';
    } else if lookupType == KeyLookupSingle {
      r := AppendSingle(url, key);
      glue := '&';
    } else if lookupType == KeyLookupMulti {
      r := AppendMulti(url, key.items);
    } else {
      r := Err(InvalidLookupType(lookupType));
    }
  }

  /** The grouping and `include_docs` stages of `fetchView`, continuing a URL
      that ends in the rendered `ps` with the glue `glue`. */
  method AppendOptions(url: string, ghost prefix: string, ghost ps: seq<Param>, glue: char,
                       grouping: Grouping, includeDocs: bool) returns (out: string)
    requires url == prefix + Render(ps) && glue == NextSep(ps)
    ensures out == prefix + Render(ps + GroupParams(grouping) + DocsParams(includeDocs))
  {
    out := url;
    var sep := glue;
    ghost var done := ps;
    if !grouping.NoGrouping? {
      var p := if grouping.Exact? then Param("group", if grouping.flag then "1" else "")
               else Param("group_level", IntToDecimal(grouping.level));
      AppendParam(out, prefix, done, p);
      out := out + [sep] + ParamText(p);
      done := done + [p];
      sep := '&';
    }
    assert done == ps + GroupParams(grouping);
    if includeDocs {
      AppendParam(out, prefix, done, Param("include_docs", "true"));
      out := out + [sep] + ParamText(Param("include_docs", "true"));
      done := done + [Param("include_docs", "true")];
    }
    assert done == ps + GroupParams(grouping) + DocsParams(includeDocs);
  }

  /** `fetchView` without the final request: appends to `$url` and threads
      `$glue` through the key, grouping and `include_docs` stages. */
  method BuildViewUrl(designDoc: string, view: string, key: Value, lookupType: int,
                      grouping: Grouping, includeDocs: bool) returns (r: Result<string>)
    requires KeyWellFormed(key, lookupType)
    ensures r == ViewUrl(designDoc, view, key, lookupType, grouping, includeDocs)
  {
    var path := ViewPath(designDoc, view);
    var keyed, glue := AppendKeyParams(path, key, lookupType);
    if keyed.Err? {
      return Err(keyed.error);
    }
    var url := AppendOptions(keyed.value, path, KeyParams(key, lookupType).value, glue, grouping, includeDocs);
    r := Ok(url);
  }

  /** A key or key bound encoded through the `implodeArrayKey` method. */
  method EncodeKeyStep(v: Value) returns (r: Result<string>)
    ensures r == EncodeKey(v)
  {
    if v.Arr? {
      r := ImplodeArrayKey(v.items);
    } else {
      r := EncodeParamValue(v);
    }
  }

  // ---------------------------------------------------------------------------
  // The shape of the URL for each kind of lookup.

  /** The grouping parameter written out with the glue in front of it. */
  function GroupText(glue: char, g: Grouping): string {
    match g
    case NoGrouping => ""
    case Exact(b) => [glue] + "group=" + (if b then "1" else "")
    case Level(l) => [glue] + "group_level=" + IntToDecimal(l)
  }

  function DocsText(glue: char, includeDocs: bool): string {
    if includeDocs then [glue] + "include_docs=true" else ""
  }

  /** What follows the key parameters when the glue is `glue`: the grouping,
      then `include_docs=true`, which is preceded by `&` after a grouping. */
  function Tail(glue: char, g: Grouping, includeDocs: bool): string {
    GroupText(glue, g) + DocsText(if g.NoGrouping? then glue else '&', includeDocs)
  }

  lemma Assoc<T>(a: seq<T>, b: seq<T>, c: seq<T>)
    ensures a + (b + c) == a + b + c
  {
  }

  /** Rendering one more parameter whose text is `text`. */
  lemma RenderParam(ps: seq<Param>, name: string, value: string, text: string)
    requires text == name + "=" + value
    ensures Render(ps + [Param(name, value)]) == Render(ps) + ([NextSep(ps)] + text)
  {
    RenderSnoc(ps, Param(name, value));
    Assoc(Render(ps), [NextSep(ps)], text);
  }

  lemma RenderGroupExact(ps: seq<Param>, b: bool)
    ensures Render(ps + GroupParams(Exact(b))) == Render(ps) + GroupText(NextSep(ps), Exact(b))
  {
    var v := if b then "1" else "";
    assert GroupParams(Exact(b)) == [Param("group", v)];
    RenderParam(ps, "group", v, "group=" + v);
    Assoc([NextSep(ps)], "group=", v);
  }

  lemma RenderGroupLevel(ps: seq<Param>, l: int)
    ensures Render(ps + GroupParams(Level(l))) == Render(ps) + GroupText(NextSep(ps), Level(l))
  {
    var v := IntToDecimal(l);
    assert GroupParams(Level(l)) == [Param("group_level", v)];
    RenderParam(ps, "group_level", v, "group_level=" + v);
    Assoc([NextSep(ps)], "group_level=", v);
  }

  lemma RenderGroup(ps: seq<Param>, g: Grouping)
    ensures Render(ps + GroupParams(g)) == Render(ps) + GroupText(NextSep(ps), g)
  {
    match g
    case NoGrouping => assert ps + GroupParams(g) == ps;
    case Exact(b) => RenderGroupExact(ps, b);
    case Level(l) => RenderGroupLevel(ps, l);
  }

  lemma RenderDocsIncluded(ps: seq<Param>)
    ensures Render(ps + DocsParams(true)) == Render(ps) + DocsText(NextSep(ps), true)
  {
    assert DocsParams(true) == [Param("include_docs", "true")];
    RenderParam(ps, "include_docs", "true", "include_docs=true");
  }

  lemma RenderDocs(ps: seq<Param>, includeDocs: bool)
    ensures Render(ps + DocsParams(includeDocs)) == Render(ps) + DocsText(NextSep(ps), includeDocs)
  {
    if includeDocs {
      RenderDocsIncluded(ps);
    } else {
      assert ps + DocsParams(includeDocs) == ps;
    }
  }

  lemma NextSepAfterGroup(ps: seq<Param>, g: Grouping)
    ensures NextSep(ps + GroupParams(g)) == if g.NoGrouping? then NextSep(ps) else '&'
  {
    if g.NoGrouping? {
      assert ps + GroupParams(g) == ps;
    }
  }

  /** Rendering the optional parameters after `ps` gives the tail for `ps`'s glue. */
  lemma RenderTail(ps: seq<Param>, g: Grouping, includeDocs: bool)
    ensures Render(ps + GroupParams(g) + DocsParams(includeDocs)) == Render(ps) + Tail(NextSep(ps), g, includeDocs)
  {
    var gs := ps + GroupParams(g);
    RenderGroup(ps, g);
    RenderDocs(gs, includeDocs);
    NextSepAfterGroup(ps, g);
    Assoc(Render(ps), GroupText(NextSep(ps), g), DocsText(NextSep(gs), includeDocs));
  }

  /** A URL whose first (key) parameter renders as `first`. */
  lemma ViewUrlWithFirst(path: string, p: Param, first: string, g: Grouping, includeDocs: bool)
    requires first == "?" + p.name + "=" + p.value
    ensures path + Render([p] + GroupParams(g) + DocsParams(includeDocs))
      == path + first + Tail(NextSep([p]), g, includeDocs)
  {
    RenderSnoc([], p);
    assert [] + [p] == [p];
    assert Render([p]) == ['?'] + ParamText(p);
    Assoc(['?'], p.name + "=", p.value);
    Assoc(['?'], p.name, "=");
    RenderTail([p], g, includeDocs);
    Assoc(path, first, Tail(NextSep([p]), g, includeDocs));
  }

  /** A falsy key (`null`, `false`, `0`, `""`, `"0"`, an empty array) adds no
      key parameter, whatever the lookup type, even an unknown one. */
  lemma FalsyKeyUrl(designDoc: string, view: string, key: Value, lookupType: int,
                    grouping: Grouping, includeDocs: bool)
    requires !Truthy(key)
    ensures ViewUrl(designDoc, view, key, lookupType, grouping, includeDocs)
      == Ok(ViewPath(designDoc, view) + Tail('?', grouping, includeDocs))
  {
    RenderTail([], grouping, includeDocs);
    assert [] + GroupParams(grouping) + DocsParams(includeDocs) == GroupParams(grouping) + DocsParams(includeDocs);
    assert Render([]) + Tail('?', grouping, includeDocs) == Tail('?', grouping, includeDocs);
  }

  /** A truthy key with an unknown lookup type raises the lookup type error. */
  lemma UnknownLookupType(designDoc: string, view: string, key: Value, lookupType: int,
                          grouping: Grouping, includeDocs: bool)
    requires Truthy(key) && lookupType !in {KeyLookupSingle, KeyLookupMulti, KeyLookupRange}
    ensures ViewUrl(designDoc, view, key, lookupType, grouping, includeDocs) == Err(InvalidLookupType(lookupType))
  {
  }

  /** Single lookup: `?key=<encoded key>`, then `&` for what follows; a key
      that cannot be encoded is an invalid key. */
  lemma SingleLookupUrl(designDoc: string, view: string, key: Value, grouping: Grouping, includeDocs: bool)
    requires Truthy(key)
    ensures EncodeKey(key).Ok? ==>
      ViewUrl(designDoc, view, key, KeyLookupSingle, grouping, includeDocs)
      == Ok(ViewPath(designDoc, view) + ("?key=" + EncodeKey(key).value) + Tail('&', grouping, includeDocs))
    ensures EncodeKey(key).Err? ==>
      ViewUrl(designDoc, view, key, KeyLookupSingle, grouping, includeDocs) == Err(InvalidKeyType)
  {
    if EncodeKey(key).Ok? {
      var e := EncodeKey(key).value;
      assert "?" + "key" + "=" == "?key=";
      ViewUrlWithFirst(ViewPath(designDoc, view), Param("key", e), "?key=" + e, grouping, includeDocs);
    }
  }

  /** The two range parameters render as `?startkey=<s>&endkey=<e>`. */
  lemma RenderRange(s: string, e: string)
    ensures Render([Param("startkey", s), Param("endkey", e)]) == "?startkey=" + s + "&endkey=" + e
  {
    var p, q := Param("startkey", s), Param("endkey", e);
    var first := "?startkey=" + s;
    RenderSnoc([], p);
    assert [] + [p] == [p];
    assert Render([p]) == first by {
      assert "?" + "startkey" + "=" == "?startkey=";
      Assoc(['?'], "startkey" + "=", s);
      Assoc(['?'], "startkey", "=");
    }
    RenderParam([p], "endkey", e, "endkey=" + e);
    assert [p] + [q] == [p, q];
    Assoc(first, "&endkey=", e);
    Assoc(['&'], "endkey=", e);
  }

  /** Range lookup: `?startkey=<enc(k[0])>&endkey=<enc(k[1])>`, then `&`; a
      missing bound is `null`, which cannot be encoded. */
  lemma RangeLookupUrl(designDoc: string, view: string, bounds: seq<Value>, grouping: Grouping, includeDocs: bool)
    requires bounds != []
    ensures EncodeKey(bounds[0]).Ok? && EncodeKey(Index(bounds, 1)).Ok? ==>
      ViewUrl(designDoc, view, Arr(bounds), KeyLookupRange, grouping, includeDocs)
      == Ok(ViewPath(designDoc, view)
            + ("?startkey=" + EncodeKey(bounds[0]).value + "&endkey=" + EncodeKey(Index(bounds, 1)).value)
            + Tail('&', grouping, includeDocs))
    ensures EncodeKey(bounds[0]).Err? || EncodeKey(Index(bounds, 1)).Err? ==>
      ViewUrl(designDoc, view, Arr(bounds), KeyLookupRange, grouping, includeDocs) == Err(InvalidKeyType)
    ensures |bounds| == 1 ==>
      ViewUrl(designDoc, view, Arr(bounds), KeyLookupRange, grouping, includeDocs) == Err(InvalidKeyType)
  {
    if EncodeKey(bounds[0]).Ok? && EncodeKey(Index(bounds, 1)).Ok? {
      var s, e := EncodeKey(bounds[0]).value, EncodeKey(Index(bounds, 1)).value;
      var ps := [Param("startkey", s), Param("endkey", e)];
      assert KeyParams(Arr(bounds), KeyLookupRange) == Ok(ps);
      RenderRange(s, e);
      RenderTail(ps, grouping, includeDocs);
      Assoc(ViewPath(designDoc, view), "?startkey=" + s + "&endkey=" + e, Tail('&', grouping, includeDocs));
    }
  }


  /** Multi lookup: `?keys=[e1,e2,...]`, and the glue stays `?`, so a
      following parameter is preceded by a second `?`. */
  lemma MultiLookupUrl(designDoc: string, view: string, keys: seq<Value>, grouping: Grouping, includeDocs: bool)
    requires keys != [] && (keys[0].Arr? ==> NoAttributedObject(keys))
    ensures MultiKeyEntries(keys).Ok? ==>
      ViewUrl(designDoc, view, Arr(keys), KeyLookupMulti, grouping, includeDocs)
      == Ok(ViewPath(designDoc, view) + ("?keys=[" + Join(",", MultiKeyEntries(keys).value) + "]")
            + Tail('?', grouping, includeDocs))
    ensures MultiKeyEntries(keys).Err? ==>
      ViewUrl(designDoc, view, Arr(keys), KeyLookupMulti, grouping, includeDocs) == Err(MultiKeyEntries(keys).error)
  {
    if MultiKeyEntries(keys).Ok? {
      var j := Join(",", MultiKeyEntries(keys).value);
      var v := "[" + j + "]";
      assert "?" + "keys" + "=" + v == "?keys=[" + j + "]" by {
        Assoc("?" + "keys" + "=", "[" + j, "]");
        Assoc("?" + "keys" + "=", "[", j);
      }
      ViewUrlWithFirst(ViewPath(designDoc, view), Param("keys", v), "?keys=[" + j + "]", grouping, includeDocs);
    }
  }

  /** When the first key is not an array, the keys are inserted as PHP strings,
      without any encoding: a string key appears verbatim. */
  lemma {:induction false} RawStringsOfStrings(items: seq<Value>)
    requires forall i :: 0 <= i < |items| ==> items[i].Str?
    ensures RawStrings(items).Ok?
    ensures forall i :: 0 <= i < |items| ==> RawStrings(items).value[i] == items[i].s
  {
    if items != [] {
      RawStringsOfStrings(items[..|items| - 1]);
    }
  }

  /** When the first key is an array, every key is imploded. */
  lemma {:induction false} ImplodeEachElement(items: seq<Value>, i: nat)
    requires NoAttributedObject(items) && ImplodeEach(items).Ok? && i < |items|
    ensures ImplodeLoose(items[i]) == Ok(ImplodeEach(items).value[i])
  {
    if i < |items| - 1 {
      ImplodeEachElement(items[..|items| - 1], i);
    }
  }

  // ---------------------------------------------------------------------------
  // Separators.

  function Count(c: char, s: string): nat {
    if s == [] then 0 else Count(c, s[..|s| - 1]) + (if s[|s| - 1] == c then 1 else 0)
  }

  lemma {:induction false} CountConcat(c: char, a: string, b: string)
    ensures Count(c, a + b) == Count(c, a) + Count(c, b)
  {
    if b != [] {
      assert (a + b)[..|a + b| - 1] == a + b[..|b| - 1];
      CountConcat(c, a, b[..|b| - 1]);
    } else {
      assert a + b == a;
    }
  }

  lemma {:induction false} CountAbsent(c: char, s: string)
    requires forall i :: 0 <= i < |s| ==> s[i] != c
    ensures Count(c, s) == 0
  {
    if s != [] {
      CountAbsent(c, s[..|s| - 1]);
    }
  }

  /** The parameter names other than `keys`. */
  const PlainNames: set<string> := {"startkey", "endkey", "key", "group", "group_level", "include_docs"}

  lemma PlainNameHasNoQuestionMark(n: string)
    requires n in PlainNames
    ensures n != "keys" && Count('?', n) == 0
  {
    CountAbsent('?', n);
  }

  /** Parameters none of which is `keys` and whose values hold no `?` or `&`. */
  predicate PlainParams(ps: seq<Param>) {
    forall i :: 0 <= i < |ps| ==> ps[i].name in PlainNames && IsQuerySafe(ps[i].value)
  }

  /** Without a `keys` parameter only the first parameter is preceded by `?`. */
  lemma {:induction false} PlainRenderOneQuestionMark(ps: seq<Param>)
    requires PlainParams(ps)
    ensures Count('?', Render(ps)) == if ps == [] then 0 else 1
  {
    if ps != [] {
      var init, p := ps[..|ps| - 1], ps[|ps| - 1];
      assert PlainParams(init);
      PlainRenderOneQuestionMark(init);
      if init != [] {
        PlainNameHasNoQuestionMark(init[|init| - 1].name);
      }
      CountConcat('?', Render(init) + [NextSep(init)], ParamText(p));
      CountConcat('?', Render(init), [NextSep(init)]);
      assert [NextSep(init)][..0] == [];
      CountConcat('?', p.name, "=");
      CountConcat('?', p.name + "=", p.value);
      PlainNameHasNoQuestionMark(p.name);
      CountAbsent('?', p.value);
      assert "="[..0] == [];
    }
  }

  /** The key parameters of anything but a multi lookup are plain. */
  lemma KeyParamsPlain(key: Value, lookupType: int)
    requires KeyWellFormed(key, lookupType)
    requires !Truthy(key) || lookupType != KeyLookupMulti
    requires KeyParams(key, lookupType).Ok?
    ensures PlainParams(KeyParams(key, lookupType).value)
    ensures KeyParams(key, lookupType).value == [] <==> !Truthy(key)
  {
  }

  lemma DecimalIsQuerySafe(i: int)
    ensures IsQuerySafe(IntToDecimal(i))
  {
    var n: nat := if i < 0 then -i else i;
    var d := NatToDecimal(n);
    assert forall j :: 0 <= j < |d| ==> d[j] != '?' && d[j] != '&';
  }

  /** The grouping and `include_docs` parameters are plain. */
  lemma OptionParamsPlain(g: Grouping, includeDocs: bool)
    ensures PlainParams(GroupParams(g) + DocsParams(includeDocs))
  {
    var gs, ds := GroupParams(g), DocsParams(includeDocs);
    assert PlainParams(gs) by {
      if g.Level? {
        DecimalIsQuerySafe(g.level);
      }
    }
    assert PlainParams(ds);
    PlainParamsConcat(gs, ds);
  }

  lemma PlainParamsConcat(a: seq<Param>, b: seq<Param>)
    requires PlainParams(a) && PlainParams(b)
    ensures PlainParams(a + b)
  {
    assert forall i :: |a| <= i < |a + b| ==> (a + b)[i] == b[i - |a|];
  }

  lemma {:induction false} ViewPathHasNoQuestionMark(designDoc: string, view: string)
    requires '?' !in designDoc && '?' !in view
    ensures Count('?', ViewPath(designDoc, view)) == 0
  {
    var a, b := "/_design/", "/_view/";
    CountAbsent('?', a);
    CountAbsent('?', designDoc);
    CountAbsent('?', b);
    CountAbsent('?', view);
    CountConcat('?', a, designDoc);
    CountConcat('?', a + designDoc, b);
    CountConcat('?', a + designDoc + b, view);
  }

  /** A path without `?` followed by plain parameters. */
  lemma PathThenPlainParams(path: string, ps: seq<Param>)
    requires Count('?', path) == 0 && PlainParams(ps)
    ensures Count('?', path + Render(ps)) == if ps == [] then 0 else 1
  {
    PlainRenderOneQuestionMark(ps);
    CountConcat('?', path, Render(ps));
  }

  /** Apart from a multi lookup, the URL holds exactly one `?` (before its first
      parameter) when it has parameters and none otherwise, provided the
      design document and view names hold none. */
  lemma OneQuestionMark(designDoc: string, view: string, key: Value, lookupType: int,
                        grouping: Grouping, includeDocs: bool)
    requires KeyWellFormed(key, lookupType)
    requires !Truthy(key) || lookupType != KeyLookupMulti
    requires '?' !in designDoc && '?' !in view
    requires ViewUrl(designDoc, view, key, lookupType, grouping, includeDocs).Ok?
    ensures Count('?', ViewUrl(designDoc, view, key, lookupType, grouping, includeDocs).value)
      == if !Truthy(key) && grouping.NoGrouping? && !includeDocs then 0 else 1
  {
    var kp := KeyParams(key, lookupType).value;
    KeyParamsPlain(key, lookupType);
    var gd := GroupParams(grouping) + DocsParams(includeDocs);
    OptionParamsPlain(grouping, includeDocs);
    PlainParamsConcat(kp, gd);
    assert kp + GroupParams(grouping) + DocsParams(includeDocs) == kp + gd;
    ViewPathHasNoQuestionMark(designDoc, view);
    PathThenPlainParams(ViewPath(designDoc, view), kp + gd);
  }

}
