/**
 * Multi-key lookups in batches: `fetchViewWithKeysMatch` splits the keys into
 * consecutive slices of at most `maxKeyCount` keys (so that no request URI
 * gets too long), issues one multi-key view request per slice, in order, and
 * either merges the `rows` of all responses or returns the responses as they
 * are. The HTTP request is the parameter `get`.
 */
module KeyBatcher {
  import opened PhpValues
  import opened QueryBuilder

  /** `DEFAULT_MAX_KEY_COUNT`. */
  const DefaultMaxKeyCount: int := 200


  /** A view response: its body's `rows`, and everything else it carries. */
  datatype Response = Response(rows: seq<Value>, rest: Value)

  /** What `fetchViewWithKeysMatch` returns: one object whose `body->rows`
      merges all rows, or the list of per-slice responses. */
  datatype BatchResult = Merged(rows: seq<Value>) | PerSlice(responses: seq<Response>)

  function Min(a: int, b: int): int { if a <= b then a else b }
  function Max(a: int, b: int): int { if a >= b then a else b }

  /** PHP `array_slice($xs, $offset, $length)` on a list: a negative offset
      counts from the end, a negative length stops that many elements before
      the end. */
  function ArraySlice<T>(xs: seq<T>, offset: int, length: int): (r: seq<T>)
    ensures length >= 0 ==> |r| <= length
  {
    var n := |xs|;
    var start := if offset >= 0 then Min(offset, n) else Max(n + offset, 0);
    var end := if length >= 0 then Min(start + length, n) else Max(start, n + length);
    xs[start..end]
  }

  /** `$maxKeyCount === null ? DEFAULT_MAX_KEY_COUNT : $maxKeyCount`. */
  function EffectiveMaxKeyCount(maxKeyCount: Option<int>): int {
    if maxKeyCount.None? then DefaultMaxKeyCount else maxKeyCount.value
  }

  /** The number of loop iterations of `for ($slice = 0; $slice < max($n / $m, 1); ...)`:
      `max(ceil(n / m), 1)` for a positive `m`, and 1 for a negative one,
      whose quotient is never above 0. */
  function SliceCount(n: nat, m: int): (c: nat)
    requires m != 0
    ensures c >= 1
  {
    if m > 0 then Max((n + m - 1) / m, 1) else 1
  }

  /** The loop condition `$slice < max($n / $m, 1)`, with the float quotient
      compared exactly. */
  predicate MoreSlices(slice: nat, n: nat, m: int)
    requires m != 0
  {
    slice < 1 || (m > 0 && slice * m < n)
  }

  /** The slices the loop requests, in order. */
  function Slices(keys: seq<Value>, m: int): (r: seq<seq<Value>>)
    requires m != 0
    ensures |r| == SliceCount(|keys|, m)
  {
    seq(SliceCount(|keys|, m), i => ArraySlice(keys, i * m, m))
  }

  /** A simple way for keys to be batchable under any maximum: when a key is
      an array, no key is an object with attributes. */
  predicate UniformKeys(keys: seq<Value>) {
    forall i :: 0 <= i < |keys| && keys[i].Arr? ==> NoAttributedObject(keys)
  }

  lemma SliceWellFormed(keys: seq<Value>, offset: int, length: int)
    requires UniformKeys(keys)
    ensures KeyWellFormed(Arr(ArraySlice(keys, offset, length)), KeyLookupMulti)
  {
    var n := |keys|;
    var start := if offset >= 0 then Min(offset, n) else Max(n + offset, 0);
    var end := if length >= 0 then Min(start + length, n) else Max(start, n + length);
    var s := ArraySlice(keys, offset, length);
    assert s == keys[start..end];
    if s != [] && s[0].Arr? {
      assert keys[start].Arr?;
      assert forall j :: 0 <= j < |s| ==> s[j] == keys[start + j];
    }
  }

  /** One request: the multi-key view URL for the slice, then `get`. */
  function FetchSlice(designDoc: string, view: string, slice: seq<Value>, includeDocs: bool,
                      get: string -> Result<Response>): Result<Response>
    requires KeyWellFormed(Arr(slice), KeyLookupMulti)
  {
    match ViewUrl(designDoc, view, Arr(slice), KeyLookupMulti, NoGrouping, includeDocs)
    case Err(e) => Err(e)
    case Ok(url) => get(url)
  }

  predicate AllBatchable(slices: seq<seq<Value>>) {
    forall i :: 0 <= i < |slices| ==> KeyWellFormed(Arr(slices[i]), KeyLookupMulti)
  }

  /** Keys whose every slice, under the effective maximum, is a well-formed
      multi-lookup key (a maximum of 0 fails before any slice is made). */
  predicate BatchableKeys(keys: seq<Value>, maxKeyCount: Option<int>) {
    var m := EffectiveMaxKeyCount(maxKeyCount);
    m != 0 ==> AllBatchable(Slices(keys, m))
  }

  /** The responses to the slices, in order; the first failure ends the batch. */
  function FetchAll(designDoc: string, view: string, slices: seq<seq<Value>>, includeDocs: bool,
                    get: string -> Result<Response>): (r: Result<seq<Response>>)
    requires AllBatchable(slices)
    ensures r.Ok? ==> |r.value| == |slices|
  {
    if slices == [] then Ok([])
    else
      match FetchAll(designDoc, view, slices[..|slices| - 1], includeDocs, get)
      case Err(e) => Err(e)
      case Ok(init) =>
        match FetchSlice(designDoc, view, slices[|slices| - 1], includeDocs, get)
        case Err(e) => Err(e)
        case Ok(last) => Ok(init + [last])
  }

  /** `array_merge` of the `rows` of every response, in order. */
  function ConcatRows(rs: seq<Response>): seq<Value> {
    if rs == [] then [] else ConcatRows(rs[..|rs| - 1]) + rs[|rs| - 1].rows
  }

  /** Uniform keys are batchable under every maximum. */
  lemma UniformKeysBatchable(keys: seq<Value>, m: int)
    requires m != 0 && UniformKeys(keys)
    ensures AllBatchable(Slices(keys, m))
  {
    forall i | 0 <= i < |Slices(keys, m)|
      ensures KeyWellFormed(Arr(Slices(keys, m)[i]), KeyLookupMulti)
    {
      SliceWellFormed(keys, i * m, m);
    }
  }

  /** The result of `fetchViewWithKeysMatch`, or the exception it raises first. */
  function KeysMatch(designDoc: string, view: string, keys: seq<Value>, includeDocs: bool,
                     maxKeyCount: Option<int>, mergeResult: bool,
                     get: string -> Result<Response>): (r: Result<BatchResult>)
    requires BatchableKeys(keys, maxKeyCount)
    ensures EffectiveMaxKeyCount(maxKeyCount) == 0 ==> r == Err(DivisionByZero)
    ensures r.Ok? ==> (r.value.Merged? <==> mergeResult)
    ensures r.Ok? && !mergeResult ==>
      |r.value.responses| == SliceCount(|keys|, EffectiveMaxKeyCount(maxKeyCount))
  {
    var m := EffectiveMaxKeyCount(maxKeyCount);
    if m == 0 then Err(DivisionByZero)
    else
      match FetchAll(designDoc, view, Slices(keys, m), includeDocs, get)
      case Err(e) => Err(e)
      case Ok(rs) => if mergeResult then Ok(Merged(ConcatRows(rs))) else Ok(PerSlice(rs))
  }

  // ---------------------------------------------------------------------------
  // The imperative batching.

  lemma MulMonotone(a: int, b: int, m: int)
    requires a <= b && m > 0
    ensures a * m <= b * m
  {
    assert b * m - a * m == (b - a) * m;
  }

  /** The loop condition holds exactly while slices remain. */
  lemma MoreSlicesIsCount(slice: nat, n: nat, m: int)
    requires m != 0
    ensures MoreSlices(slice, n, m) <==> slice < SliceCount(n, m)
  {
    if m > 0 && slice >= 1 {
      var c := (n + m - 1) / m;
      assert c * m <= n + m - 1 < c * m + m;
      if slice < c {
        MulMonotone(slice, c - 1, m);
        assert (c - 1) * m == c * m - m;
      } else {
        MulMonotone(c, slice, m);
      }
    }
  }

  lemma FetchAllSnoc(designDoc: string, view: string, slices: seq<seq<Value>>, i: nat, includeDocs: bool,
                     get: string -> Result<Response>)
    requires AllBatchable(slices) && i < |slices|
    ensures AllBatchable(slices[..i]) && AllBatchable(slices[..i + 1])
    ensures FetchAll(designDoc, view, slices[..i + 1], includeDocs, get) ==
      match FetchAll(designDoc, view, slices[..i], includeDocs, get)
      case Err(e) => Err(e)
      case Ok(init) =>
        match FetchSlice(designDoc, view, slices[i], includeDocs, get)
        case Err(e) => Err(e)
        case Ok(last) => Ok(init + [last])
  {
    assert slices[..i + 1][..i] == slices[..i];
  }

  /** A failed request fails the batch with its error. */
  lemma {:induction false} FetchAllFails(designDoc: string, view: string, slices: seq<seq<Value>>, i: nat,
                                         includeDocs: bool, get: string -> Result<Response>)
    requires AllBatchable(slices) && i < |slices|
    requires FetchAll(designDoc, view, slices[..i], includeDocs, get).Ok?
    requires FetchSlice(designDoc, view, slices[i], includeDocs, get).Err?
    ensures FetchAll(designDoc, view, slices, includeDocs, get)
      == Err(FetchSlice(designDoc, view, slices[i], includeDocs, get).error)
    decreases |slices|
  {
    var init := slices[..|slices| - 1];
    if i < |slices| - 1 {
      assert init[..i] == slices[..i];
      FetchAllFails(designDoc, view, init, i, includeDocs, get);
    } else {
      assert init == slices[..i];
    }
  }

  /** The merge loop: `array_merge` of each response's `rows` in turn. */
  method MergeRows(rs: seq<Response>) returns (rows: seq<Value>)
    ensures rows == ConcatRows(rs)
  {
    rows := [];
    var i := 0;
    while i < |rs|
      invariant 0 <= i <= |rs|
      invariant rows == ConcatRows(rs[..i])
    {
      assert rs[..i + 1][..i] == rs[..i];
      rows := rows + rs[i].rows;
      i := i + 1;
    }
    assert rs[..i] == rs;
  }

  /** `fetchViewWithKeysMatch`: one multi-key request per slice, in order. */
  method FetchViewWithKeysMatch(designDoc: string, view: string, keys: seq<Value>, includeDocs: bool,
                                maxKeyCount: Option<int>, mergeResult: bool,
                                get: string -> Result<Response>) returns (r: Result<BatchResult>)
    requires BatchableKeys(keys, maxKeyCount)
    ensures r == KeysMatch(designDoc, view, keys, includeDocs, maxKeyCount, mergeResult, get)
  {
    var m := EffectiveMaxKeyCount(maxKeyCount);
    if m == 0 {
      return Err(DivisionByZero);
    }
    var n := |keys|;
    ghost var slices := Slices(keys, m);
    var fullRes: seq<Response> := [];
    var slice := 0;
    assert slices[..0] == [];
    MoreSlicesIsCount(slice, n, m);
    while MoreSlices(slice, n, m)
      invariant 0 <= slice <= |slices|
      invariant MoreSlices(slice, n, m) <==> slice < |slices|
      invariant FetchAll(designDoc, view, slices[..slice], includeDocs, get) == Ok(fullRes)
      decreases |slices| - slice
    {
      var keysSlice := ArraySlice(keys, slice * m, m);
      assert keysSlice == slices[slice];
      FetchAllSnoc(designDoc, view, slices, slice, includeDocs, get);
      var url := BuildViewUrl(designDoc, view, Arr(keysSlice), KeyLookupMulti, NoGrouping, includeDocs);
      if url.Err? {
        FetchAllFails(designDoc, view, slices, slice, includeDocs, get);
        return Err(url.error);
      }
      var res := get(url.value);
      if res.Err? {
        FetchAllFails(designDoc, view, slices, slice, includeDocs, get);
        return Err(res.error);
      }
      fullRes := fullRes + [res.value];
      slice := slice + 1;
      MoreSlicesIsCount(slice, n, m);
    }
    assert slices[..slice] == slices;
    if mergeResult {
      var rows := MergeRows(fullRes);
      r := Ok(Merged(rows));
    } else {
      r := Ok(PerSlice(fullRes));
    }
  }

  // ---------------------------------------------------------------------------
  // Properties of the batching.

  /** The number of requests is `ceil(n / m)`, and one when there are no keys. */
  lemma SliceCountIsCeiling(n: nat, m: int)
    requires m > 0
    ensures n == 0 ==> SliceCount(n, m) == 1
    ensures n > 0 ==> (SliceCount(n, m) - 1) * m < n <= SliceCount(n, m) * m
  {
    var c := (n + m - 1) / m;
    assert c * m <= n + m - 1 < c * m + m;
    if n > 0 {
      assert c >= 1;
      assert (c - 1) * m == c * m - m;
    } else {
      assert c == 0 by {
        if c >= 1 {
          MulMonotone(1, c, m);
        }
      }
    }
  }

  /** The slice the loop requests at step `i`, for a positive maximum. */
  lemma SliceBounds(keys: seq<Value>, m: int, i: nat)
    requires m > 0 && i < SliceCount(|keys|, m)
    ensures Slices(keys, m)[i] == keys[Min(i * m, |keys|)..Min(i * m + m, |keys|)]
  {
    MulMonotone(0, i, m);
  }

  /** No request carries more than `maxKeyCount` keys. */
  lemma SliceAtMostMax(keys: seq<Value>, m: int, i: nat)
    requires m > 0 && i < SliceCount(|keys|, m)
    ensures |Slices(keys, m)[i]| <= m
  {
  }

  function Flatten(ss: seq<seq<Value>>): seq<Value> {
    if ss == [] then [] else Flatten(ss[..|ss| - 1]) + ss[|ss| - 1]
  }

  lemma FlattenSnoc(ss: seq<seq<Value>>, k: nat)
    requires 0 < k <= |ss|
    ensures Flatten(ss[..k]) == Flatten(ss[..k - 1]) + ss[k - 1]
  {
    assert ss[..k][..k - 1] == ss[..k - 1];
  }

  lemma PrefixThenRange<T>(xs: seq<T>, a: nat, b: nat)
    requires a <= b <= |xs|
    ensures xs[..a] + xs[a..b] == xs[..b]
  {
  }

  lemma {:induction false} FlattenSlicesPrefix(keys: seq<Value>, m: int, k: nat)
    requires m > 0 && k <= SliceCount(|keys|, m)
    ensures Flatten(Slices(keys, m)[..k]) == keys[..Min(k * m, |keys|)]
  {
    if k > 0 {
      var ss := Slices(keys, m);
      FlattenSlicesPrefix(keys, m, k - 1);
      FlattenSnoc(ss, k);
      SliceBounds(keys, m, k - 1);
      MulMonotone(0, k - 1, m);
      assert (k - 1) * m + m == k * m;
      PrefixThenRange(keys, Min((k - 1) * m, |keys|), Min(k * m, |keys|));
    }
  }

  /** The slices, concatenated in order, are the keys: every key is requested
      exactly once, and in its place. */
  lemma SlicesPartitionKeys(keys: seq<Value>, m: int)
    requires m > 0
    ensures Flatten(Slices(keys, m)) == keys
  {
    var c := SliceCount(|keys|, m);
    FlattenSlicesPrefix(keys, m, c);
    assert Slices(keys, m)[..c] == Slices(keys, m);
    SliceCountIsCeiling(|keys|, m);
    if |keys| == 0 {
      assert keys[..Min(c * m, 0)] == keys;
    }
  }

  /** Without keys there is exactly one request, with an empty key list, and by
      PHP truthiness its URL has no `keys` parameter. */
  lemma NoKeysOneRequest(designDoc: string, view: string, m: int, includeDocs: bool)
    requires m != 0
    ensures Slices([], m) == [[]]
    ensures ViewUrl(designDoc, view, Arr([]), KeyLookupMulti, NoGrouping, includeDocs)
      == Ok(ViewPath(designDoc, view) + DocsText('?', includeDocs))
  {
    assert Slices([], m)[0] == [];
    FalsyKeyUrl(designDoc, view, Arr([]), KeyLookupMulti, NoGrouping, includeDocs);
    assert Tail('?', NoGrouping, includeDocs) == DocsText('?', includeDocs) by {
      assert GroupText('?', NoGrouping) == "";
      assert "" + DocsText('?', includeDocs) == DocsText('?', includeDocs);
    }
  }

  /** A negative maximum gives one request, with all keys but the last `-m`
      (array_slice's negative length). */
  lemma NegativeMaxOneSlice(keys: seq<Value>, m: int)
    requires m < 0
    ensures Slices(keys, m) == [keys[..Max(|keys| + m, 0)]]
  {
    assert Slices(keys, m)[0] == keys[..Max(|keys| + m, 0)];
  }

  /** The i-th response answers the i-th slice. */
  lemma {:induction false} FetchAllElement(designDoc: string, view: string, slices: seq<seq<Value>>, i: nat,
                                           includeDocs: bool, get: string -> Result<Response>)
    requires AllBatchable(slices) && i < |slices|
    requires FetchAll(designDoc, view, slices, includeDocs, get).Ok?
    ensures FetchSlice(designDoc, view, slices[i], includeDocs, get)
      == Ok(FetchAll(designDoc, view, slices, includeDocs, get).value[i])
  {
    var init := slices[..|slices| - 1];
    if i < |slices| - 1 {
      FetchAllElement(designDoc, view, init, i, includeDocs, get);
    }
  }

  /** Merging changes nothing but the shape: the merged rows are the rows of
      the per-slice responses, concatenated in slice order, and both modes
      fail alike. */
  lemma MergedIsConcatenation(designDoc: string, view: string, keys: seq<Value>, includeDocs: bool,
                              maxKeyCount: Option<int>, get: string -> Result<Response>)
    requires BatchableKeys(keys, maxKeyCount)
    ensures KeysMatch(designDoc, view, keys, includeDocs, maxKeyCount, false, get).Err? <==>
            KeysMatch(designDoc, view, keys, includeDocs, maxKeyCount, true, get).Err?
    ensures KeysMatch(designDoc, view, keys, includeDocs, maxKeyCount, false, get).Ok? ==>
      KeysMatch(designDoc, view, keys, includeDocs, maxKeyCount, false, get).value.PerSlice? &&
      KeysMatch(designDoc, view, keys, includeDocs, maxKeyCount, true, get) ==
      Ok(Merged(ConcatRows(KeysMatch(designDoc, view, keys, includeDocs, maxKeyCount, false, get).value.responses)))
  {
  }

  /** Per-slice mode returns one response per slice, each the answer to that slice. */
  lemma PerSliceResponses(designDoc: string, view: string, keys: seq<Value>, includeDocs: bool,
                          maxKeyCount: Option<int>, get: string -> Result<Response>, i: nat)
    requires BatchableKeys(keys, maxKeyCount) && EffectiveMaxKeyCount(maxKeyCount) != 0
    requires KeysMatch(designDoc, view, keys, includeDocs, maxKeyCount, false, get).Ok?
    requires i < SliceCount(|keys|, EffectiveMaxKeyCount(maxKeyCount))
    ensures var m := EffectiveMaxKeyCount(maxKeyCount);
      var rs := KeysMatch(designDoc, view, keys, includeDocs, maxKeyCount, false, get).value.responses;
      |rs| == SliceCount(|keys|, m) &&
      FetchSlice(designDoc, view, Slices(keys, m)[i], includeDocs, get) == Ok(rs[i])
  {
    var m := EffectiveMaxKeyCount(maxKeyCount);
    FetchAllElement(designDoc, view, Slices(keys, m), i, includeDocs, get);
  }
}
