/**
 * Concrete requests and compositions: the view URLs for the three lookup
 * kinds, the second `?` that follows a multi-key lookup, the slices of a
 * batch, and a list and a singular relation folded into a base document.
 */
module SampleRequests {
  import opened PhpValues
  import opened UrlCodec
  import opened KeyCodec
  import opened CompositeKey
  import opened QueryBuilder
  import opened KeyBatcher
  import opened DocumentComposer

  lemma SmallDecimals()
    ensures IntToDecimal(1) == "1" && IntToDecimal(2) == "2" && IntToDecimal(3) == "3"
    ensures IntToDecimal(5) == "5" && IntToDecimal(10) == "10"
  {
    assert NatToDecimal(10) == NatToDecimal(1) + [DigitChar(0)];
  }

  /** The range from 5 to 10: `?startkey=5&endkey=10` after the view path. */
  lemma RangeExample(designDoc: string, view: string)
    ensures ViewUrl(designDoc, view, Arr([Int(5), Int(10)]), KeyLookupRange, NoGrouping, false)
      == Ok(ViewPath(designDoc, view) + ("?startkey=" + "5" + "&endkey=" + "10"))
  {
    var bounds := [Int(5), Int(10)];
    assert Index(bounds, 1) == Int(10);
    assert EncodeKey(Int(5)) == Ok("5") && EncodeKey(Int(10)) == Ok("10") by {
      SmallDecimals();
      EncodeIntIsDecimal(5);
      EncodeIntIsDecimal(10);
    }
    RangeLookupUrl(designDoc, view, bounds, NoGrouping, false);
    assert Tail('&', NoGrouping, false) == "";
    var q := "?startkey=" + "5" + "&endkey=" + "10";
    assert ViewPath(designDoc, view) + q + "" == ViewPath(designDoc, view) + q;
  }

  lemma AbcIsNotNumeric()
    ensures !IsNumericString("abc")
  {
    assert Scan("abc", Leading, false) == Scan("bc", Rejected, false);
    ScanRejected("bc", false);
  }

  /** The string key `abc`: `?key=%22abc%22` after the view path. */
  lemma SingleExample(designDoc: string, view: string)
    ensures ViewUrl(designDoc, view, Str("abc"), KeyLookupSingle, NoGrouping, false)
      == Ok(ViewPath(designDoc, view) + ("?key=" + ("%22" + "abc" + "%22")))
  {
    AbcIsNotNumeric();
    EncodeStringIsQuoted("abc");
    UrlEncodeUnreserved("abc");
    assert EncodeKey(Str("abc")) == Ok("%22" + "abc" + "%22");
    SingleLookupUrl(designDoc, view, Str("abc"), NoGrouping, false);
    assert Tail('&', NoGrouping, false) == "";
    var q := "?key=" + ("%22" + "abc" + "%22");
    assert ViewPath(designDoc, view) + q + "" == ViewPath(designDoc, view) + q;
  }

  lemma RawDecimals()
    ensures RawStrings([Int(1), Int(2), Int(3)]) == Ok(["1", "2", "3"])
    ensures RawStrings([Int(1), Int(2)]) == Ok(["1", "2"])
  {
    SmallDecimals();
    var k1, k2, k3 := [Int(1)], [Int(1), Int(2)], [Int(1), Int(2), Int(3)];
    assert k1[..0] == [];
    assert RawStrings(k1) == Ok([] + ["1"]);
    assert [] + ["1"] == ["1"];
    assert k2[..1] == k1;
    assert RawStrings(k2) == Ok(["1"] + ["2"]);
    assert ["1"] + ["2"] == ["1", "2"];
    assert k3[..2] == k2;
    assert RawStrings(k3) == Ok(["1", "2"] + ["3"]);
    assert ["1", "2"] + ["3"] == ["1", "2", "3"];
  }

  lemma JoinOneTwoThree()
    ensures Join(",", ["1", "2", "3"]) == "1" + "," + "2" + "," + "3"
    ensures Join(",", ["1", "2"]) == "1" + "," + "2"
  {
    var xs := ["1", "2", "3"];
    assert xs[..2] == ["1", "2"];
    assert xs[..2][..1] == ["1"];
  }

  /** The keys 1, 2 and 3: `?keys=[1,2,3]` after the view path; keys that are
      not arrays are inserted as they are. */
  lemma MultiExample(designDoc: string, view: string)
    ensures ViewUrl(designDoc, view, Arr([Int(1), Int(2), Int(3)]), KeyLookupMulti, NoGrouping, false)
      == Ok(ViewPath(designDoc, view) + ("?keys=[" + ("1" + "," + "2" + "," + "3") + "]"))
  {
    RawDecimals();
    JoinOneTwoThree();
    MultiLookupUrl(designDoc, view, [Int(1), Int(2), Int(3)], NoGrouping, false);
    assert Tail('?', NoGrouping, false) == "";
    var q := "?keys=[" + ("1" + "," + "2" + "," + "3") + "]";
    assert ViewPath(designDoc, view) + q + "" == ViewPath(designDoc, view) + q;
  }

  /** `...?keys=[1,2]?include_docs=true`: after `keys` the glue is still `?`. */
  lemma MultiWithDocsExample(designDoc: string, view: string)
    ensures ViewUrl(designDoc, view, Arr([Int(1), Int(2)]), KeyLookupMulti, NoGrouping, true)
      == Ok(ViewPath(designDoc, view) + ("?keys=[" + ("1" + "," + "2") + "]") + ("?" + "include_docs=true"))
  {
    RawDecimals();
    JoinOneTwoThree();
    MultiLookupUrl(designDoc, view, [Int(1), Int(2)], NoGrouping, true);
    assert Tail('?', NoGrouping, true) == "?" + "include_docs=true" by {
      assert Tail('?', NoGrouping, true) == "" + DocsText('?', true);
      assert "" + DocsText('?', true) == DocsText('?', true);
    }
  }

  /** `...?keys=[1,2]?group_level=1`. */
  lemma MultiWithGroupLevelExample(designDoc: string, view: string)
    ensures ViewUrl(designDoc, view, Arr([Int(1), Int(2)]), KeyLookupMulti, Level(1), false)
      == Ok(ViewPath(designDoc, view) + ("?keys=[" + ("1" + "," + "2") + "]") + ("?" + "group_level=" + "1"))
  {
    RawDecimals();
    JoinOneTwoThree();
    MultiLookupUrl(designDoc, view, [Int(1), Int(2)], Level(1), false);
    assert Tail('?', Level(1), false) == "?" + "group_level=" + "1" by {
      SmallDecimals();
      assert Tail('?', Level(1), false) == GroupText('?', Level(1)) + "";
      assert GroupText('?', Level(1)) + "" == GroupText('?', Level(1));
    }
  }

  /** Three keys in batches of two: two requests, `[1,2]` then `[3]`. */
  lemma BatchExample()
    ensures Slices([Int(1), Int(2), Int(3)], 2) == [[Int(1), Int(2)], [Int(3)]]
  {
    var keys := [Int(1), Int(2), Int(3)];
    assert SliceCount(3, 2) == 2;
    assert Slices(keys, 2)[0] == keys[0..2] == [Int(1), Int(2)];
    assert Slices(keys, 2)[1] == keys[2..3] == [Int(3)];
  }

  /** An object key followed by an array key, one key per request: the first
      slice goes down the raw `implode` path, where the object cannot be
      converted to a string, and the batch fails before any request. */
  lemma ObjectThenArrayBatch(designDoc: string, view: string, includeDocs: bool, mergeResult: bool,
                             get: string -> Result<Response>)
    ensures var keys := [Obj(map["a" := Int(1)]), Arr([Int(1)])];
      BatchableKeys(keys, Some(1)) &&
      KeysMatch(designDoc, view, keys, includeDocs, Some(1), mergeResult, get) == Err(NotConvertibleToString)
  {
    var keys := [Obj(map["a" := Int(1)]), Arr([Int(1)])];
    var ss := Slices(keys, 1);
    assert SliceCount(2, 1) == 2;
    assert ss[0] == [Obj(map["a" := Int(1)])];
    assert ss[1] == [Arr([Int(1)])];
    assert AllBatchable(ss);
    var first := ss[0];
    assert first[..0] == [];
    assert RawStrings(first) == Err(NotConvertibleToString);
    assert FetchSlice(designDoc, view, first, includeDocs, get) == Err(NotConvertibleToString);
    assert ss[..1] == [first];
    FetchAllFails(designDoc, view, ss, 0, includeDocs, get);
  }

  // ---------------------------------------------------------------------------
  // An order with one item.

  function ItemDoc(): Fields {
    map["type" := Str("item"), "_id" := Str("i1"), "name" := Str("Widget")]
  }

  lemma ItemAttrs()
    ensures WellFormedRelated(ItemDoc()) && SlotOf(ItemDoc()) == "item"
    ensures JoinedAttrs(ItemDoc()) == map["name" := Str("Widget")]
  {
    assert JoinedAttrs(ItemDoc()).Keys == {"name"};
  }

  /** The base document lists its items (`item_ids`): the item becomes the one
      object of the list `item`, without its `_id` and `type`. */
  lemma ListRelationExample()
    ensures var base := map["type" := Str("order"), "total" := Int(10), "item_ids" := Arr([Str("i1")])];
      var rows := [LinkedRow(Null, Obj(base)), LinkedRow(Int(1), Obj(ItemDoc()))];
      WellFormedRows(rows) &&
      Compose(rows) == Ok(base["item" := Arr([Obj(map["name" := Str("Widget")])])])
  {
    var base := map["type" := Str("order"), "total" := Int(10), "item_ids" := Arr([Str("i1")])];
    var rows := [LinkedRow(Null, Obj(base)), LinkedRow(Int(1), Obj(ItemDoc()))];
    ItemAttrs();
    assert "item" + "_ids" == "item_ids";
    assert rows[..1] == [LinkedRow(Null, Obj(base))];
    assert rows[..1][..0] == [];
    assert FindBase(rows) == Some(base);
    assert FoldRelated(base, rows[..1]) == Ok(base);
  }

  /** The base document refers to one item (`item_id`): the item becomes the
      object `item`. */
  lemma SingularRelationExample()
    ensures var base := map["type" := Str("order"), "total" := Int(10), "item_id" := Str("i1")];
      var rows := [LinkedRow(Null, Obj(base)), LinkedRow(Int(1), Obj(ItemDoc()))];
      WellFormedRows(rows) &&
      Compose(rows) == Ok(base["item" := Obj(map["name" := Str("Widget")])])
  {
    var base := map["type" := Str("order"), "total" := Int(10), "item_id" := Str("i1")];
    var rows := [LinkedRow(Null, Obj(base)), LinkedRow(Int(1), Obj(ItemDoc()))];
    ItemAttrs();
    assert "item" + "_ids" != "item_id";
    assert "item" + "_ids" !in base;
    assert rows[..1] == [LinkedRow(Null, Obj(base))];
    assert rows[..1][..0] == [];
    assert FindBase(rows) == Some(base);
    assert FoldRelated(base, rows[..1]) == Ok(base);
    assert map[] + JoinedAttrs(ItemDoc()) == JoinedAttrs(ItemDoc());
  }
}
