# ConvenientCouch query and composition core, in Dafny

ConvenientCouch is a small PHP client for CouchDB views. This project models
the decision logic of its `ConvenientCouch` class and proves properties of it:

- **Key encoding** (`KeyCodec`, `CompositeKey`, `UrlCodec`): `encodeURLParamValue`
  turns an integer, a string or the empty object into a URL parameter value, and
  `implodeArrayKey` turns a composite (array) key into `[e1,e2,...]`. PHP's
  `urlencode` is modelled byte by byte over the UTF-8 form of a string, with
  `urldecode` as its proved inverse.
- **View URL construction** (`QueryBuilder`): the URL `fetchView` requests,
  `/_design/<designDoc>/_view/<view>` followed by the key, grouping and
  `include_docs` parameters. It is specified by a list of parameters rendered
  with a separator rule (`ViewUrl`). It is also built step by step, threading
  the glue character as the source does (`BuildViewUrl`), and proved equal to
  the specification.
- **Key batching** (`KeyBatcher`): `fetchViewWithKeysMatch` splits the keys into
  consecutive slices of at most `maxKeyCount`. It issues one multi-key request
  per slice, in order, and either merges the `rows` or returns the per-slice
  responses.
- **Prefix widening** (`PrefixWidening`): the inexact branch of
  `fetchResultBodyFromViewByKey` asks for the key range `[[v],[w]]`. Here `w` is
  `v + 1` for a number and `v . '1'` for a string. The exact branch is a
  single-key lookup.
- **Linked-document composition** (`DocumentComposer`):
  `composeSingleDocFromLinkedDocs` finds the base document, which is the last row
  whose `value` is null. It then folds every related document into a relation
  slot named after the document's `type`. The slot is a list when the base has
  `<type>_ids`, and a single object otherwise.
- `PhpValues` holds the PHP values the client handles (`null`, booleans,
  integers, strings, `stdClass` objects, lists). It also holds PHP truthiness,
  `isset`, `(string)` of an integer and `is_numeric` on strings.
  `SampleRequests` works through concrete URLs and compositions.

The HTTP request (`$this->sag->get`) is a parameter `get: string -> Result<Response>`.
Its failures are the `Transport` error, and they propagate unchanged. The
design document, a field of the client, is a parameter of every URL function.
The source throws exceptions; the model returns them as `Err` values of
`Result`. Documents are immutable maps that the composition returns updated,
rather than objects changed in place.

Behaviours of the code that a reader might not expect, all modelled as written:

- Exact grouping renders `group=1` or `group=`, the PHP string of a boolean.
  The docblock at convenientcouch.php:179 only says "true for exact grouping".
- After `keys=[...]` the glue stays `?`. A grouping or `include_docs` parameter
  after a multi-key lookup is therefore preceded by a second `?`. The docblocks
  at convenientcouch.php:41-43 show every parameter after `&`.
- In a multi-key lookup whose first key is not an array, the keys go into
  `keys=[...]` as raw PHP strings, unquoted and not URL-encoded. When the first
  key is an array, every key goes through `implodeArrayKey`.
- A falsy key (`null`, `false`, `0`, `""`, `"0"`, the empty array) adds no key
  parameter for any lookup type. So a batch of zero keys makes one request with
  no `keys` parameter, and an unknown lookup type is only reported for a truthy key.
- The composite key of an empty array is `]`, because the last character of `[`
  is overwritten.
- `is_numeric` is tested before `is_string`. A numeric string key is therefore
  URL-encoded without quotes.
- A missing range bound (`$key[1]` of a one-element array) is `null`, which
  cannot be encoded, so the lookup fails with the invalid-key error.
- The base document is the last null-value row. More than one such row is not
  an error.
- A related document's `type` names its relation slot through PHP's string
  conversion: an integer by its decimal form, `false` by the empty string. It
  is compared with `'type'` loosely, so both `"type"` and `true` go to `type_obj`.
- The source's `assert` calls are preconditions here, not errors. They require
  a range or multi key to be an array, a base document to be an object, and a
  related document to be an object whose `type` is set.

## Model

| member | source | states |
|---|---|---|
| `PhpValues.Truthy` | convenientcouch.php:203 | PHP's conversion to bool: the falsy values are exactly `null`, `false`, `0`, `""`, `"0"` and the empty array, so every object is true |
| `PhpValues.IsNumericString` | convenientcouch.php:407 | PHP 8 `is_numeric` on a string; a numeric string holds at least one digit |
| `PhpValues.CompleteNeedsDigit` | convenientcouch.php:407 | the `is_numeric` scanner accepts no input without a digit, from any state before the first digit |
| `PhpValues.IntToDecimal` | convenientcouch.php:407-408 | `(string)$i`: non-empty, starting with `-` exactly for a negative integer, all digits otherwise |
| `PhpValues.NatToDecimal` | convenientcouch.php:407-408 | the decimal digits of a natural number are non-empty digits without a leading zero |
| `PhpValues.DecimalRoundTrip` | convenientcouch.php:407-408 | `(string)$i` is an integer string that reads back as `$i` |
| `PhpValues.IntegerStringIsNumeric` | convenientcouch.php:285 | a string of an optional sign and digits (with PHP's surrounding whitespace) passes `is_numeric` |
| `PhpValues.DigitsValueOfDecimal` | convenientcouch.php:407-408 | reading the decimal digits of `n` gives `n` |
| `UrlCodec.Utf8` | convenientcouch.php:408 | a character is 1 to 4 bytes, and ASCII characters are one byte equal to their code |
| `UrlCodec.UrlEncode` | convenientcouch.php:408 | PHP `urlencode` over the UTF-8 bytes; `urldecode` of its output gives those bytes back |
| `UrlCodec.UrlRoundTrip` | convenientcouch.php:408 | `urldecode(urlencode(s))` gives back the bytes of `s` |
| `UrlCodec.DecodeEncode` | convenientcouch.php:408 | decoding undoes the byte-wise encoding for every byte string |
| `UrlCodec.UrlEncodeHasNoDelimiters` | convenientcouch.php:408 | `urlencode` output contains no `?` and no `&` |
| `UrlCodec.EncodeBytesAlphabet` | convenientcouch.php:408 | `urlencode` produces only letters, digits, `-_.`, `+` and `%` |
| `UrlCodec.UrlEncodeConcat` | convenientcouch.php:410 | `urlencode` distributes over string concatenation |
| `UrlCodec.UrlEncodeUnreserved` | convenientcouch.php:408 | a string of letters, digits and `-_.` is left unchanged |
| `UrlCodec.UrlEncodeQuote` | convenientcouch.php:410 | the double quote is encoded as `%22` |
| `KeyCodec.EncodeParamValue` | convenientcouch.php:406-418 | succeeds exactly for integers, strings and the empty object; otherwise fails with the invalid-key error; the output is safe inside a query |
| `KeyCodec.EncodeIntIsDecimal` | convenientcouch.php:407-408 | an integer key encodes as its unquoted decimal form, which decodes back to the integer |
| `KeyCodec.EncodeStringIsQuoted` | convenientcouch.php:409-410 | a non-numeric string encodes as `%22` + `urlencode(s)` + `%22` |
| `CompositeKey.JoinEnds` | convenientcouch.php:238 | `implode($sep, $xs)` of a non-empty list starts with the first element, ends with the last, and is at least as long as its separators |
| `CompositeKey.JoinCons` | convenientcouch.php:238 | `implode` read from the front: `[x] + ys` joins as `x`, the separator, then `ys` joined; with the definition's back-to-front reading, exactly one separator stands between each pair of neighbours |
| `CompositeKey.EncodeComposite` | convenientcouch.php:389-397 | a composite key encodes exactly when every element does; a failing element gives the invalid-key error; the output is query-safe |
| `CompositeKey.ImplodeArrayKey` | convenientcouch.php:389-397 | the append-then-overwrite loop gives `[` + the element encodings joined by `,` + `]`, and `]` for the empty array |
| `CompositeKey.EncodeAllSucceeds` | convenientcouch.php:391-392 | the element encodings exist exactly when every element is encodable |
| `CompositeKey.EncodeAllElement` | convenientcouch.php:391-392 | the i-th encoding is the encoding of the i-th element |
| `CompositeKey.EncodeCompositeFails` | convenientcouch.php:391-392 | one element that cannot be encoded fails the whole key |
| `CompositeKey.TerminatedIsJoin` | convenientcouch.php:390-394 | elements each followed by a comma equal the comma join plus one trailing comma |
| `CompositeKey.CloseBracket` | convenientcouch.php:394 | overwriting the last character gives the bracketed join, or `]` when nothing was appended |
| `CompositeKey.EncodeCompositeSingle` | convenientcouch.php:389-397 | a one-element composite key is its encoding in brackets |
| `CompositeKey.EncodeCompositePair` | convenientcouch.php:389-397 | a two-element composite key is `[` + enc(a) + `,` + enc(b) + `]` |
| `QueryBuilder.EncodeKey` | convenientcouch.php:206-223 | an array key goes through `implodeArrayKey` and a scalar through `encodeURLParamValue`; the result is query-safe and the only error is the invalid-key error |
| `QueryBuilder.ImplodeLoose` | convenientcouch.php:232 | one key of an array-first multi lookup is imploded into a query-safe string |
| `QueryBuilder.ImplodeEach` | convenientcouch.php:229-233 | every key imploded, one query-safe entry per key |
| `QueryBuilder.RawString` | convenientcouch.php:238 | `implode`'s string conversion fails only on an object |
| `QueryBuilder.RawStrings` | convenientcouch.php:235-238 | the raw keys convert exactly when none is an object, one entry per key |
| `QueryBuilder.KeyParams` | convenientcouch.php:203-241 | a falsy key gives no parameter; a truthy key with an unknown lookup type gives the lookup-type error |
| `QueryBuilder.ViewUrl` | convenientcouch.php:198-256 | the requested URL starts with `/_design/<designDoc>/_view/<view>`; a falsy key never fails; a truthy key with an unknown lookup type gives the lookup-type error |
| `QueryBuilder.ImplodeKeys` | convenientcouch.php:229-233 | the `foreach`/`array_push` loop gives the imploded keys in order, or the first error |
| `QueryBuilder.ImplodeEachFails` | convenientcouch.php:231-233 | a key that cannot be imploded fails the whole list with its error |
| `QueryBuilder.EncodeKeyStep` | convenientcouch.php:206-223 | the key-encoding branch equals `EncodeKey` |
| `QueryBuilder.AppendRange` | convenientcouch.php:204-218 | the range branch appends `?startkey=<s>&endkey=<e>`, or fails with the first encoding error |
| `QueryBuilder.AppendSingle` | convenientcouch.php:219-225 | the single branch appends `?key=<k>`, or fails with the encoding error |
| `QueryBuilder.AppendMulti` | convenientcouch.php:226-238 | the multi branch appends `?keys=[...]` with imploded or raw entries, or fails |
| `QueryBuilder.AppendKeyParams` | convenientcouch.php:203-242 | the key stage appends the key parameters; the glue it leaves is `&` after a single or range lookup and `?` otherwise |
| `QueryBuilder.AppendOptions` | convenientcouch.php:244-256 | the grouping and `include_docs` stages append their parameters with the glue threaded through |
| `QueryBuilder.BuildViewUrl` | convenientcouch.php:198-256 | the step-by-step URL construction equals the specification `ViewUrl` for every input |
| `QueryBuilder.RenderTail` | convenientcouch.php:244-256 | after the key parameters come the grouping, then `include_docs`, which is preceded by `&` after a grouping |
| `QueryBuilder.FalsyKeyUrl` | convenientcouch.php:203 | a falsy key gives the view path followed only by the grouping and `include_docs` parameters, for any lookup type |
| `QueryBuilder.UnknownLookupType` | convenientcouch.php:239-241 | a truthy key with an unknown lookup type raises the lookup-type error |
| `QueryBuilder.SingleLookupUrl` | convenientcouch.php:219-225 | a single lookup is `<path>?key=<enc>` followed by the tail with glue `&`, or the invalid-key error |
| `QueryBuilder.RenderRange` | convenientcouch.php:207-217 | the two range parameters render as `?startkey=<s>&endkey=<e>` |
| `QueryBuilder.RangeLookupUrl` | convenientcouch.php:204-218 | a range lookup is `<path>?startkey=<enc(k0)>&endkey=<enc(k1)>` followed by the tail with glue `&`; a bound that cannot be encoded, or a missing one, gives the invalid-key error |
| `QueryBuilder.MultiLookupUrl` | convenientcouch.php:226-238 | a multi lookup is `<path>?keys=[...]` followed by the tail with glue still `?`, or the entries' error |
| `QueryBuilder.RawStringsOfStrings` | convenientcouch.php:234-236 | when the first key is not an array, string keys appear verbatim, unencoded |
| `QueryBuilder.ImplodeEachElement` | convenientcouch.php:229-233 | when the first key is an array, the i-th entry is the i-th key imploded |
| `QueryBuilder.PlainRenderOneQuestionMark` | convenientcouch.php:201-255 | without a `keys` parameter, only the first parameter is preceded by `?` |
| `QueryBuilder.OneQuestionMark` | convenientcouch.php:201-255 | apart from a multi lookup, a URL holds exactly one `?` when it has parameters and none otherwise |
| `KeyBatcher.ArraySlice` | convenientcouch.php:145 | `array_slice` with a non-negative length returns at most that many elements |
| `KeyBatcher.SliceCount` | convenientcouch.php:142-144 | the loop runs at least once |
| `KeyBatcher.Slices` | convenientcouch.php:144-145 | there is one slice per loop iteration |
| `KeyBatcher.MoreSlicesIsCount` | convenientcouch.php:142-144 | the loop condition `$slice < max($n / $m, 1)` holds exactly while `$slice < max(ceil(n/m), 1)` |
| `KeyBatcher.SliceCountIsCeiling` | convenientcouch.php:141-144 | the number of requests is `ceil(n/m)`, and 1 for no keys |
| `KeyBatcher.SliceBounds` | convenientcouch.php:145 | slice i is the keys from `i*m` to `i*m+m`, clipped to the key count |
| `KeyBatcher.SliceAtMostMax` | convenientcouch.php:145 | no slice holds more than `maxKeyCount` keys |
| `KeyBatcher.FlattenSlicesPrefix` | convenientcouch.php:144-145 | the first k slices concatenated are the first `min(k*m, n)` keys |
| `KeyBatcher.SlicesPartitionKeys` | convenientcouch.php:141-148 | the slices concatenated in order are exactly the keys |
| `KeyBatcher.NoKeysOneRequest` | convenientcouch.php:141-146 | zero keys give one request with an empty slice, whose URL has no `keys` parameter |
| `KeyBatcher.NegativeMaxOneSlice` | convenientcouch.php:142-145 | a negative maximum gives one request holding all keys but the last `-m` |
| `KeyBatcher.UniformKeysBatchable` | convenientcouch.php:145-146 | when no key is an attributed object beside an array key, every slice is a well-formed multi-key lookup under every maximum |
| `KeyBatcher.FetchAll` | convenientcouch.php:144-148 | on success there is one response per slice |
| `KeyBatcher.FetchAllElement` | convenientcouch.php:144-148 | the i-th response answers the i-th slice's request |
| `KeyBatcher.FetchAllFails` | convenientcouch.php:146 | a failed request ends the batch with its error and no partial result |
| `KeyBatcher.KeysMatch` | convenientcouch.php:137-162 | a maximum of 0 fails with the division error; a success is merged exactly when merging was asked for, and unmerged it holds one response per slice |
| `KeyBatcher.MergeRows` | convenientcouch.php:150-156 | the merge loop gives every response's `rows` concatenated in slice order |
| `KeyBatcher.FetchViewWithKeysMatch` | convenientcouch.php:137-162 | the slicing loop issues the slices' requests in order and returns the merged or per-slice result of the specification `KeysMatch`, or the first error |
| `KeyBatcher.MergedIsConcatenation` | convenientcouch.php:150-161 | both modes fail alike; the merged rows are the per-slice responses' rows concatenated, and unmerged mode returns the responses unchanged |
| `KeyBatcher.PerSliceResponses` | convenientcouch.php:159-161 | unmerged mode returns one response per slice, each the answer to that slice |
| `PrefixWidening.WidenForPrefixMatch` | convenientcouch.php:285-291 | widening succeeds exactly for integers and strings; anything else raises the lookup-value error |
| `PrefixWidening.WideningGoesUp` | convenientcouch.php:285-288 | an integer or integer string widens to its value plus one; a non-numeric string `s` widens to `s . '1'`, which it prefixes |
| `PrefixWidening.ByKeyUrl` | convenientcouch.php:280-295 | the URL requested starts with the view path; a value neither an integer nor a string on the inexact path raises the lookup-value error |
| `PrefixWidening.ResultRowsByKey` | convenientcouch.php:280-297 | an unwidenable value, or a URL that cannot be built, fails with that error before any request |
| `PrefixWidening.ExactLookupUrl` | convenientcouch.php:281-282 | the exact path is a single-key lookup (`?key=<enc(v)>`), or no key parameter for a falsy value |
| `PrefixWidening.PrefixRangeUrl` | convenientcouch.php:293-294 | the inexact path asks for `?startkey=[enc(v)]&endkey=[enc(w)]` |
| `PrefixWidening.IntegerPrefixUrl` | convenientcouch.php:285-294 | an integer `i` asks for the range `[i]` to `[i+1]` |
| `PrefixWidening.IntegerStringPrefixUrl` | convenientcouch.php:285-294 | an integer string asks for the range from itself, unquoted, to its value plus one |
| `PrefixWidening.StringPrefixUrl` | convenientcouch.php:287-294 | a non-numeric string asks for the quoted range from `s` to `s1` |
| `PrefixWidening.WideningFailsBeforeFetch` | convenientcouch.php:289-293 | any other value raises the exception before any request, whatever the transport answers |
| `PrefixWidening.RowsOfTheRequestedUrl` | convenientcouch.php:293-297 | the result is the `rows` of the response to exactly the described URL |
| `PrefixWidening.QuotedKeyIsQuoted` | convenientcouch.php:410 | a quoted string key is `%22` + `urlencode(s)` + `%22` |
| `PrefixWidening.WidenedStringTurnsNumeric` | convenientcouch.php:287-294 | as written: a non-numeric string that becomes numeric when `1` is appended (such as `""`, `"-"` or `"1e"`) gets a quoted start bound and an unquoted numeric end bound |
| `PrefixWidening.EmptyStringWidensToNumber` | convenientcouch.php:287-288 | the empty string is such a string: its range ends at the number 1 |
| `PrefixWidening.CorrectedStringBoundsQuoted` | convenientcouch.php:287-294 | corrected: every non-numeric string gets two quoted string bounds, `s` and `s1` |
| `PrefixWidening.CorrectedAgreesElsewhere` | convenientcouch.php:280-295 | the correction agrees with the source on every other lookup |
| `DocumentComposer.FindBase` | convenientcouch.php:322-329 | there is no base document exactly when no row has a null value |
| `DocumentComposer.RelationName` | convenientcouch.php:344-347 | a type loosely equal to `'type'` (`"type"` or `true`) becomes `type_obj`; any other type names the relation by its PHP string; the result is never `type` |
| `DocumentComposer.TypeRelationGoesToTypeObj` | convenientcouch.php:345-378 | a related document of type `type` is joined under `type_obj` and leaves every other attribute, the base's own `type` included, unchanged |
| `DocumentComposer.JoinRow` | convenientcouch.php:342-379 | joining one related document can only fail with a collision on its own slot |
| `DocumentComposer.FoldRelated` | convenientcouch.php:337-381 | folding the related rows can only fail with a slot collision |
| `DocumentComposer.Compose` | convenientcouch.php:321-384 | composition fails only with a missing base document or a slot collision |
| `DocumentComposer.AssignAttributes` | convenientcouch.php:374-379 | the attribute loop copies every attribute except `_id`, `_rev` and `type` into the joined object |
| `DocumentComposer.JoinLinkedDoc` | convenientcouch.php:342-379 | the loop body for one related document equals `JoinRow` |
| `DocumentComposer.ComposeSingleDocFromLinkedDocs` | convenientcouch.php:321-384 | the two row scans equal the specification `Compose` |
| `DocumentComposer.FoldRelatedFails` | convenientcouch.php:337-381 | a failure on some row ends the composition with that error |
| `DocumentComposer.BaseIsLastBaseRow` | convenientcouch.php:324-329 | the base document is the `doc` of the last null-value row |
| `DocumentComposer.MissingBaseIffNoBaseRow` | convenientcouch.php:331-333 | composition fails with a missing base document iff no row has a null value |
| `DocumentComposer.NoRelatedRowsUnchanged` | convenientcouch.php:337-383 | without related rows, folding returns the base document unchanged |
| `DocumentComposer.ComposeWithoutRelatedRows` | convenientcouch.php:321-383 | with no related rows, composition returns the base row's document unchanged |
| `DocumentComposer.UnwantedNeverJoined` | convenientcouch.php:336 | `_id`, `_rev` and `type` are never copied, and every other attribute is copied with its value |
| `DocumentComposer.JoinRowFrame` | convenientcouch.php:355-379 | joining a document changes the base document only in that document's slot |
| `DocumentComposer.FoldKeepsOtherAttributes` | convenientcouch.php:337-381 | an attribute that is no related row's slot is unchanged by the composition |
| `DocumentComposer.ComposeKeepsType` | convenientcouch.php:345-347 | the base document's own `type` survives composition |
| `DocumentComposer.ListJoinStep` | convenientcouch.php:351-372 | one related document of a list relation appends exactly one object to the slot's list |
| `DocumentComposer.ListSlotCollects` | convenientcouch.php:351-369 | with `<type>_ids` set, the slot becomes a list with one object per related row of that type, in row order |
| `DocumentComposer.SingularJoinStep` | convenientcouch.php:355-378 | one related document of a singular relation merges its attributes into the one slot object |
| `DocumentComposer.SingularSlotMerges` | convenientcouch.php:355-378 | without `<type>_ids`, the slot is one object holding all such rows' attributes merged in row order |
| `SampleRequests.RangeExample` | convenientcouch.php:204-218 | the range from 5 to 10 is `?startkey=5&endkey=10` |
| `SampleRequests.SingleExample` | convenientcouch.php:219-225 | the string key `abc` is `?key=%22abc%22` |
| `SampleRequests.MultiExample` | convenientcouch.php:226-238 | the keys 1, 2, 3 are `?keys=[1,2,3]` |
| `SampleRequests.MultiWithDocsExample` | convenientcouch.php:238-254 | a multi lookup with `include_docs` gives `?keys=[1,2]?include_docs=true` |
| `SampleRequests.MultiWithGroupLevelExample` | convenientcouch.php:238-250 | a multi lookup with grouping level 1 gives `?keys=[1,2]?group_level=1` |
| `SampleRequests.BatchExample` | convenientcouch.php:141-148 | three keys in batches of two are requested as `[1,2]`, then `[3]` |
| `SampleRequests.ObjectThenArrayBatch` | convenientcouch.php:141-148 | an object key then an array key, one per request, are batchable and fail on the first slice's raw `implode` |
| `SampleRequests.ListRelationExample` | convenientcouch.php:351-379 | an order with `item_ids` gets `item` as a list of one object, without `_id` and `type` |
| `SampleRequests.SingularRelationExample` | convenientcouch.php:355-379 | an order with `item_id` gets `item` as one object, without `_id` and `type` |

## Left out

- The Sag transport is not modelled: the constructor, `setPathPrefix`, `setDatabase`, `sag->get` and `fetchDocById` (convenientcouch.php:77-87, 111-113, 260). It is HTTP I/O in a foreign library, so the request is the parameter `get`.
- The global singleton `ConvenientCouchCreateInstance`/`ConvenientCouchGetInstance` (convenientcouch.php:8-35) is left out. It only holds ambient global state; the design document is passed explicitly instead.
- The thin wrappers are left out because they have no logic of their own: `fetchViewWithKeyMatch`, `fetchViewWithKeyRange`, `fetchViewWithGrouping`, `fetchDocByType`, `setDesignDoc`/`getDesignDoc` and `fetchFirstResultDocFromViewByKey`. The last one reads `[0]` of a possibly empty row list.
- Floats are left out: every number is an integer. This leaves out `is_numeric` and `urlencode` on floats, and the float quotient of the slice count, which is computed as an exact integer comparison.
- PrefixWidening.WidenForPrefixMatch: requires that a numeric string be an integer string, because `$lookupVal + 1` on a float string is float arithmetic.
- PrefixWidening.WidenForPrefixMatch: integers are unbounded. PHP's integers are 64-bit, and `$lookupVal + 1` at `PHP_INT_MAX`, or on an integer string beyond 64 bits, gives a float; that is not modelled.
- PrefixWidening.IntegerPrefixUrl: states the end bound `i+1` for every integer, without PHP's overflow to a float at `PHP_INT_MAX`.
- PrefixWidening.IntegerStringPrefixUrl: states the end bound as the string's value plus one for every integer string, without PHP's overflow to a float beyond 64 bits.
- DocumentComposer.WellFormedRelated: a related document's `type` is a string, an integer or a boolean. An array or object type is not modelled: PHP's conversion of such a value to a property name and its loose `==` comparison with `'type'` are left out.
- PHP warnings on odd inputs are not modelled, only their outcome. `foreach` over a scalar in `implodeArrayKey` iterates nothing, and `implode` of an array gives `Array`.
- QueryBuilder.KeyWellFormed: in a multi lookup whose first key is an array, no key may be an object with attributes, because the model does not fix PHP's property iteration order. For a batch this is required of each slice on its own (`KeyBatcher.BatchableKeys`), not of the whole key list.
- The `assert` calls (convenientcouch.php:205, 227, 326, 343) are preconditions, not runtime failures. A null `type` on a related document, which the assert at line 343 rejects, is therefore not modelled.
- Object-handle aliasing is not modelled. In the source, changing `$baseDoc` also changes the input row's `doc`; the model returns the composed document as a new value.
- A slot whose existing attribute has the wrong shape is modelled as the `SlotCollision` error. This covers pushing onto a non-list and assigning properties to a non-object.
- KeyBatcher.FetchViewWithKeysMatch: a maximum key count of 0 gives the `DivisionByZero` error instead of PHP's division-by-zero exception object.
- The grouping argument is `null`, a boolean or an integer. `(int)` of any other PHP value is not modelled.

## Findings

| source | as written | input that shows it | evidently intended | confidence | as-written member | corrected member |
|---|---|---|---|---|---|---|
| convenientcouch.php:287-294 | the widened string bound `$lookupVal . '1'` goes through `encodeURLParamValue`, which tests `is_numeric` first, so it can become an unquoted number | `fetchResultBodyFromViewByKey($view, "", false)` asks for `startkey=[%22%22]&endkey=[1]`, a string start bound and a numeric end bound | both bounds are quoted strings: `startkey=["…"]&endkey=["…1"]` | medium, not executed | `PrefixWidening.WidenedStringTurnsNumeric` | `PrefixWidening.CorrectedStringBoundsQuoted` |
