/**
 * `composeSingleDocFromLinkedDocs`: the rows of a join-style view (fetched
 * with `include_docs=true`) are folded into one document. The row whose
 * `value` is null carries the base document; every other row that carries a
 * document is a related document, and its attributes (all but `_id`, `_rev`
 * and `type`) are copied into a relation slot of the base document named after
 * the related document's `type`. The slot is a list of objects when the base
 * document has an attribute `<type>_ids`, and a single object otherwise.
 *
 * Documents are values here: the base document the source changes in place
 * is a map the operations return updated.
 */
module DocumentComposer {
  import opened PhpValues

  type Fields = map<string, Value>

  /** A row of the view result: its `value` and its `doc` (a missing
      attribute reads as `Null`, as PHP reads it). */
  datatype LinkedRow = LinkedRow(value: Value, doc: Value)


  predicate IsBaseRow(row: LinkedRow) {
    row.value.Null?
  }

  /** A row with a value is skipped when it carries no document. */
  predicate IsRelatedRow(row: LinkedRow) {
    !row.value.Null? && !row.doc.Null?
  }

  /** A related document whose `type` is set, as the source asserts. The
      model further takes the type to be a string (the empty one included),
      an integer or a boolean: the scalars PHP turns into a property name. */
  predicate WellFormedRelated(doc: Fields) {
    "type" in doc && (doc["type"].Str? || doc["type"].Int? || doc["type"].Bool?)
  }

  /** The source's assertion on a base row: its document is an object. */
  predicate BaseRowsWellFormed(rows: seq<LinkedRow>) {
    forall i :: 0 <= i < |rows| && IsBaseRow(rows[i]) ==> rows[i].doc.Obj?
  }

  predicate RelatedRowsWellFormed(rows: seq<LinkedRow>) {
    forall i :: 0 <= i < |rows| && IsRelatedRow(rows[i]) ==>
      rows[i].doc.Obj? && WellFormedRelated(rows[i].doc.fields)
  }

  predicate WellFormedRows(rows: seq<LinkedRow>) {
    BaseRowsWellFormed(rows) && RelatedRowsWellFormed(rows)
  }

  // ---------------------------------------------------------------------------
  // Step 1: the base document.

  /** The document of the last row whose value is null (each such row
      replaces the one before), or none. */
  function FindBase(rows: seq<LinkedRow>): (r: Option<Fields>)
    requires BaseRowsWellFormed(rows)
    ensures r.None? <==> forall i :: 0 <= i < |rows| ==> !IsBaseRow(rows[i])
  {
    if rows == [] then None
    else if IsBaseRow(rows[|rows| - 1]) then Some(rows[|rows| - 1].doc.fields)
    else FindBase(rows[..|rows| - 1])
  }

  // ---------------------------------------------------------------------------
  // Step 2: one related document.

  /** The attributes never copied from a related document. */
  const Unwanted: set<string> := {"_id", "_rev", "type"}

  /** PHP's loose comparison `$lDocType == 'type'` for a scalar type: a
      string compares as a string (`'type'` is not numeric), an integer is
      compared as its decimal string, a boolean with `'type'` read as `true`. */
  predicate LooselyEqualsType(t: Value) {
    t == Str("type") || t == Bool(true)
  }

  /** The property name a scalar type stands for: `(string)` of it. */
  function PropertyName(t: Value): string {
    match t
    case Str(s) => s
    case Int(i) => IntToDecimal(i)
    case Bool(b) => if b then "1" else ""
    case _ => ""
  }

  /** A relation whose type equals `type` becomes `type_obj`, so as not to
      replace the base document's own `type`; any other type names the
      relation by its property name. */
  function RelationName(t: Value): (r: string)
    ensures r != "type"
    ensures LooselyEqualsType(t) ==> r == "type_obj"
    ensures !LooselyEqualsType(t) ==> r == PropertyName(t)
  {
    if LooselyEqualsType(t) then "type_obj"
    else
      assert t.Int? ==> PropertyName(t) != "type" by {
        if t.Int? {
          var n: nat := if t.i < 0 then -t.i else t.i;
          var d := IntToDecimal(t.i);
          assert d[0] == '-' || d[0] == NatToDecimal(n)[0];
          assert IsDigit(NatToDecimal(n)[0]);
          assert d[0] != 't';
        }
      }
      PropertyName(t)
  }

  /** The slot a related document is joined into. */
  function SlotOf(doc: Fields): string
    requires WellFormedRelated(doc)
  {
    RelationName(doc["type"])
  }

  /** The naming convention for a list relation: the base document has an
      attribute `<slot>_ids`. */
  predicate IsListRelation(base: Fields, slot: string) {
    IsSet(base, slot + "_ids")
  }

  /** The attributes of a related document that are copied. */
  function JoinedAttrs(doc: Fields): Fields {
    map k | k in doc && k !in Unwanted :: doc[k]
  }

  /** Assigning the attributes `JoinedAttrs(doc)` one by one to `target`: an
      object takes them in (replacing attributes of the same name); anything
      else makes the first assignment fail, so it is left alone only when
      there is nothing to assign. */
  function Assigned(target: Value, doc: Fields, slot: string): Result<Value> {
    if target.Obj? then Ok(Obj(target.fields + JoinedAttrs(doc)))
    else if JoinedAttrs(doc) == map[] then Ok(target)
    else Err(SlotCollision(slot))
  }

  /** Joining one related document into the base document. A list slot gets a
      new object, created with the list when the slot is not set (pushing onto
      anything but a list fails); a singular slot is created as an empty object
      when not set and then takes the attributes. */
  function JoinRow(base: Fields, doc: Fields): (r: Result<Fields>)
    requires WellFormedRelated(doc)
    ensures r.Err? ==> r.error == SlotCollision(SlotOf(doc))
  {
    var slot := SlotOf(doc);
    if IsListRelation(base, slot) then
      if !IsSet(base, slot) then Ok(base[slot := Arr([Obj(JoinedAttrs(doc))])])
      else if base[slot].Arr? then Ok(base[slot := Arr(base[slot].items + [Obj(JoinedAttrs(doc))])])
      else Err(SlotCollision(slot))
    else
      match Assigned(if IsSet(base, slot) then base[slot] else Obj(map[]), doc, slot)
      case Err(e) => Err(e)
      case Ok(v) => Ok(base[slot := v])
  }

  /** The related rows joined into `base`, in row order. */
  function FoldRelated(base: Fields, rows: seq<LinkedRow>): (r: Result<Fields>)
    requires RelatedRowsWellFormed(rows)
    ensures r.Err? ==> r.error.SlotCollision?
  {
    if rows == [] then Ok(base)
    else
      match FoldRelated(base, rows[..|rows| - 1])
      case Err(e) => Err(e)
      case Ok(b) =>
        var row := rows[|rows| - 1];
        if IsRelatedRow(row) then JoinRow(b, row.doc.fields) else Ok(b)
  }

  /** `composeSingleDocFromLinkedDocs($linkedDocs)`. */
  function Compose(rows: seq<LinkedRow>): (r: Result<Fields>)
    requires WellFormedRows(rows)
    ensures r.Err? ==> r.error == MissingBaseDocument || r.error.SlotCollision?
  {
    match FindBase(rows)
    case None => Err(MissingBaseDocument)
    case Some(base) => FoldRelated(base, rows)
  }

  // ---------------------------------------------------------------------------
  // The imperative composition.

  /** The wanted attributes among the keys `keys` of `doc`. */
  function Wanted(doc: Fields, keys: set<string>): Fields {
    map k | k in doc && k in keys && k !in Unwanted :: doc[k]
  }

  /** One more key considered: a wanted one is added, an unwanted one is not. */
  lemma WantedStep(doc: Fields, done: set<string>, k: string, f: Fields)
    requires k in doc
    ensures k !in Unwanted ==> f + Wanted(doc, done + {k}) == (f + Wanted(doc, done))[k := doc[k]]
    ensures k in Unwanted ==> Wanted(doc, done + {k}) == Wanted(doc, done)
  {
    if k !in Unwanted {
      assert Wanted(doc, done + {k}) == Wanted(doc, done)[k := doc[k]];
    }
  }

  lemma WantedAll(doc: Fields)
    ensures Wanted(doc, doc.Keys) == JoinedAttrs(doc)
  {
  }

  /** `foreach ($lDocObj as $k => $v)`: every attribute but the unwanted ones
      is assigned to the joined object, in some order; on a non-object the
      first assignment fails. */
  method AssignAttributes(target: Value, doc: Fields, slot: string) returns (r: Result<Value>)
    ensures r == Assigned(target, doc, slot)
  {
    var obj := target;
    var todo := doc.Keys;
    ghost var done: set<string> := {};
    while todo != {}
      invariant todo <= doc.Keys && done == doc.Keys - todo
      invariant target.Obj? ==> obj == Obj(target.fields + Wanted(doc, done))
      invariant !target.Obj? ==> obj == target && Wanted(doc, done) == map[]
      decreases |todo|
    {
      var k :| k in todo;
      if k !in Unwanted {
        if !obj.Obj? {
          assert k in JoinedAttrs(doc);
          return Err(SlotCollision(slot));
        }
        WantedStep(doc, done, k, target.fields);
        obj := Obj(obj.fields[k := doc[k]]);
      } else {
        WantedStep(doc, done, k, map[]);
      }
      todo := todo - {k};
      done := done + {k};
    }
    WantedAll(doc);
    r := Ok(obj);
  }

  /** The body of the second loop for one related document. */
  method JoinLinkedDoc(base: Fields, doc: Fields) returns (r: Result<Fields>)
    requires WellFormedRelated(doc)
    ensures r == JoinRow(base, doc)
  {
    var lDocType := doc["type"];
    var slot := PropertyName(lDocType);
    if LooselyEqualsType(lDocType) {
      slot := "type_obj";
    }
    assert slot == SlotOf(doc);
    var idsKey := slot + "_ids";
    var isList := IsSet(base, idsKey);
    var b := base;
    if !IsSet(b, slot) {
      if isList {
        b := b[slot := Arr([Obj(map[])])];
      } else {
        b := b[slot := Obj(map[])];
      }
    } else if isList {
      if !b[slot].Arr? {
        return Err(SlotCollision(slot));
      }
      b := b[slot := Arr(b[slot].items + [Obj(map[])])];
    }
    var joined := if isList then b[slot].items[|b[slot].items| - 1] else b[slot];
    var copied := AssignAttributes(joined, doc, slot);
    if copied.Err? {
      return Err(copied.error);
    }
    if isList {
      // the joined object is the list's last element
      assert map[] + JoinedAttrs(doc) == JoinedAttrs(doc);
      assert copied.value == Obj(JoinedAttrs(doc));
      var items := b[slot].items;
      b := b[slot := Arr(items[..|items| - 1] + [copied.value])];
      if IsSet(base, slot) {
        assert items[..|items| - 1] == base[slot].items;
        assert b == base[slot := Arr(base[slot].items + [Obj(JoinedAttrs(doc))])];
      } else {
        assert items[..|items| - 1] + [copied.value] == [Obj(JoinedAttrs(doc))];
        assert b == base[slot := Arr([Obj(JoinedAttrs(doc))])];
      }
    } else {
      assert joined == if IsSet(base, slot) then base[slot] else Obj(map[]);
      b := b[slot := copied.value];
      assert b == base[slot := copied.value];
    }
    r := Ok(b);
  }

  /** `composeSingleDocFromLinkedDocs($linkedDocs)`: find the base document,
      then join every related document into it. */
  method ComposeSingleDocFromLinkedDocs(rows: seq<LinkedRow>) returns (r: Result<Fields>)
    requires WellFormedRows(rows)
    ensures r == Compose(rows)
  {
    var baseDoc: Option<Fields> := None;
    for i := 0 to |rows|
      invariant baseDoc == FindBase(rows[..i])
    {
      assert rows[..i + 1][..i] == rows[..i];
      if rows[i].value.Null? {
        baseDoc := Some(rows[i].doc.fields);
      }
    }
    assert rows[..|rows|] == rows;
    if baseDoc.None? {
      return Err(MissingBaseDocument);
    }
    var doc := baseDoc.value;
    for i := 0 to |rows|
      invariant FoldRelated(baseDoc.value, rows[..i]) == Ok(doc)
    {
      assert rows[..i + 1][..i] == rows[..i];
      if !rows[i].value.Null? && !rows[i].doc.Null? {
        var joined := JoinLinkedDoc(doc, rows[i].doc.fields);
        if joined.Err? {
          FoldRelatedFails(baseDoc.value, rows, i + 1);
          return Err(joined.error);
        }
        doc := joined.value;
      }
    }
    r := Ok(doc);
  }

  /** A fold that fails on a prefix fails on the whole list, with that error. */
  lemma {:induction false} FoldRelatedFails(base: Fields, rows: seq<LinkedRow>, i: nat)
    requires RelatedRowsWellFormed(rows)
    requires i <= |rows|
    requires FoldRelated(base, rows[..i]).Err?
    ensures FoldRelated(base, rows) == FoldRelated(base, rows[..i])
  {
    if i < |rows| {
      var init := rows[..|rows| - 1];
      assert init[..i] == rows[..i];
      FoldRelatedFails(base, init, i);
    } else {
      assert rows[..i] == rows;
    }
  }

  // ---------------------------------------------------------------------------
  // Properties.

  /** The base document is the document of the last row with a null value. */
  lemma {:induction false} BaseIsLastBaseRow(rows: seq<LinkedRow>, i: nat)
    requires BaseRowsWellFormed(rows)
    requires i < |rows| && IsBaseRow(rows[i])
    requires forall j :: i < j < |rows| ==> !IsBaseRow(rows[j])
    ensures FindBase(rows) == Some(rows[i].doc.fields)
  {
    if i < |rows| - 1 {
      BaseIsLastBaseRow(rows[..|rows| - 1], i);
    }
  }

  /** Composition fails for want of a base document exactly when no row has a
      null value; any other failure is a slot collision. */
  lemma MissingBaseIffNoBaseRow(rows: seq<LinkedRow>)
    requires WellFormedRows(rows)
    ensures Compose(rows) == Err(MissingBaseDocument) <==> forall i :: 0 <= i < |rows| ==> !IsBaseRow(rows[i])
  {
  }

  /** Without related rows the base document comes back unchanged. */
  lemma {:induction false} NoRelatedRowsUnchanged(base: Fields, rows: seq<LinkedRow>)
    requires forall i :: 0 <= i < |rows| ==> !IsRelatedRow(rows[i])
    ensures RelatedRowsWellFormed(rows) && FoldRelated(base, rows) == Ok(base)
  {
    if rows != [] {
      NoRelatedRowsUnchanged(base, rows[..|rows| - 1]);
    }
  }

  /** The same for the whole composition. */
  lemma ComposeWithoutRelatedRows(rows: seq<LinkedRow>, i: nat)
    requires BaseRowsWellFormed(rows)
    requires i < |rows| && IsBaseRow(rows[i])
    requires forall j :: i < j < |rows| ==> !IsBaseRow(rows[j])
    requires forall j :: 0 <= j < |rows| ==> !IsRelatedRow(rows[j])
    ensures WellFormedRows(rows) && Compose(rows) == Ok(rows[i].doc.fields)
  {
    NoRelatedRowsUnchanged(rows[i].doc.fields, rows);
    BaseIsLastBaseRow(rows, i);
  }

  /** `_id`, `_rev` and `type` are never copied; every other attribute is
      copied with its value. */
  lemma UnwantedNeverJoined(doc: Fields)
    ensures "_id" !in JoinedAttrs(doc) && "_rev" !in JoinedAttrs(doc) && "type" !in JoinedAttrs(doc)
    ensures forall k :: k in doc && k != "_id" && k != "_rev" && k != "type" ==>
      k in JoinedAttrs(doc) && JoinedAttrs(doc)[k] == doc[k]
  {
  }

  /** Joining changes the base document in the related document's slot only. */
  lemma JoinRowFrame(base: Fields, doc: Fields, k: string)
    requires WellFormedRelated(doc)
    requires k != SlotOf(doc)
    ensures JoinRow(base, doc).Ok? ==>
      (k in JoinRow(base, doc).value <==> k in base) &&
      (k in base ==> JoinRow(base, doc).value[k] == base[k])
  {
  }

  /** A related document whose type equals `type` is joined under
      `type_obj`: the base document's own `type`, and every attribute other
      than `type_obj`, stay as they are. */
  lemma TypeRelationGoesToTypeObj(base: Fields, doc: Fields, k: string)
    requires WellFormedRelated(doc) && LooselyEqualsType(doc["type"])
    requires k != "type_obj"
    ensures SlotOf(doc) == "type_obj"
    ensures JoinRow(base, doc).Ok? ==>
      (k in JoinRow(base, doc).value <==> k in base) &&
      (k in base ==> JoinRow(base, doc).value[k] == base[k])
  {
    JoinRowFrame(base, doc, k);
  }

  /** The slot names of the related rows. */
  predicate NoRowJoinsInto(rows: seq<LinkedRow>, k: string)
    requires RelatedRowsWellFormed(rows)
  {
    forall i :: 0 <= i < |rows| && IsRelatedRow(rows[i]) ==> SlotOf(rows[i].doc.fields) != k
  }

  /** An attribute of the base document that is no related row's slot is
      left as it is. */
  lemma {:induction false} FoldKeepsOtherAttributes(base: Fields, rows: seq<LinkedRow>, k: string)
    requires RelatedRowsWellFormed(rows)
    requires NoRowJoinsInto(rows, k)
    ensures FoldRelated(base, rows).Ok? ==>
      (k in FoldRelated(base, rows).value <==> k in base) &&
      (k in base ==> FoldRelated(base, rows).value[k] == base[k])
  {
    if rows != [] {
      var init := rows[..|rows| - 1];
      FoldKeepsOtherAttributes(base, init, k);
      var row := rows[|rows| - 1];
      if FoldRelated(base, init).Ok? && IsRelatedRow(row) {
        JoinRowFrame(FoldRelated(base, init).value, row.doc.fields, k);
      }
    }
  }

  /** The base document's own `type` survives composition, whatever the types
      of the related documents (a relation named `type` goes to `type_obj`). */
  lemma ComposeKeepsType(rows: seq<LinkedRow>)
    requires WellFormedRows(rows)
    ensures Compose(rows).Ok? ==>
      ("type" in Compose(rows).value <==> "type" in FindBase(rows).value) &&
      ("type" in FindBase(rows).value ==> Compose(rows).value["type"] == FindBase(rows).value["type"])
  {
    if FindBase(rows).Some? {
      FoldKeepsOtherAttributes(FindBase(rows).value, rows, "type");
    }
  }

  /** The copied attributes of the related rows joined into `slot`, in order. */
  function RelatedAttrs(rows: seq<LinkedRow>, slot: string): seq<Fields>
    requires RelatedRowsWellFormed(rows)
  {
    if rows == [] then []
    else
      var row := rows[|rows| - 1];
      RelatedAttrs(rows[..|rows| - 1], slot)
        + if IsRelatedRow(row) && SlotOf(row.doc.fields) == slot then [JoinedAttrs(row.doc.fields)] else []
  }

  /** One object per entry. */
  function Objects(attrs: seq<Fields>): (r: seq<Value>)
    ensures |r| == |attrs|
  {
    if attrs == [] then [] else Objects(attrs[..|attrs| - 1]) + [Obj(attrs[|attrs| - 1])]
  }

  /** The entries merged, a later one replacing attributes of an earlier one. */
  function Merge(attrs: seq<Fields>): Fields {
    if attrs == [] then map[] else Merge(attrs[..|attrs| - 1]) + attrs[|attrs| - 1]
  }

  /** The objects of a list slot (none when it is not set). */
  function SlotItems(m: Fields, slot: string): seq<Value> {
    if IsSet(m, slot) && m[slot].Arr? then m[slot].items else []
  }

  /** The attributes of a singular slot (none when it is not set). */
  function SlotFields(m: Fields, slot: string): Fields {
    if IsSet(m, slot) && m[slot].Obj? then m[slot].fields else map[]
  }

  /** One related document and a list slot. */
  lemma ListJoinStep(m: Fields, doc: Fields, slot: string)
    requires WellFormedRelated(doc)
    requires IsListRelation(m, slot) && SlotOf(doc) != slot + "_ids"
    requires !IsSet(m, slot) || m[slot].Arr?
    ensures JoinRow(m, doc).Err? ==> SlotOf(doc) != slot
    ensures JoinRow(m, doc).Ok? ==>
      var r := JoinRow(m, doc).value;
      IsListRelation(r, slot) &&
      (IsSet(r, slot) <==> IsSet(m, slot) || SlotOf(doc) == slot) &&
      (!IsSet(r, slot) || r[slot].Arr?) &&
      (SlotOf(doc) == slot ==> SlotItems(r, slot) == SlotItems(m, slot) + [Obj(JoinedAttrs(doc))]) &&
      (SlotOf(doc) != slot ==> SlotItems(r, slot) == SlotItems(m, slot))
  {
    if SlotOf(doc) != slot {
      JoinRowFrame(m, doc, slot);
      JoinRowFrame(m, doc, slot + "_ids");
    }
  }

  lemma ObjectsSnoc(s0: seq<Value>, s: seq<Value>, t: seq<Value>, attrs: seq<Fields>, a: Fields)
    requires s == s0 + Objects(attrs) && t == s + [Obj(a)]
    ensures t == s0 + Objects(attrs + [a])
  {
    assert (attrs + [a])[..|attrs|] == attrs;
    assert s0 + (Objects(attrs) + [Obj(a)]) == s0 + Objects(attrs) + [Obj(a)];
  }

  /** A list relation: when the base document has `<slot>_ids` (and no related
      row creates or replaces that attribute), the slot never collides, and it
      ends up a list holding one object per related row of that type, in row
      order, after the ones it had. */
  lemma {:induction false} ListSlotCollects(base: Fields, rows: seq<LinkedRow>, slot: string)
    requires RelatedRowsWellFormed(rows)
    requires IsListRelation(base, slot) && NoRowJoinsInto(rows, slot + "_ids")
    requires !IsSet(base, slot) || base[slot].Arr?
    ensures FoldRelated(base, rows).Err? ==> FoldRelated(base, rows).error != SlotCollision(slot)
    ensures FoldRelated(base, rows).Ok? ==>
      var r := FoldRelated(base, rows).value;
      IsListRelation(r, slot) &&
      (IsSet(r, slot) <==> IsSet(base, slot) || RelatedAttrs(rows, slot) != []) &&
      (!IsSet(r, slot) || r[slot].Arr?) &&
      SlotItems(r, slot) == SlotItems(base, slot) + Objects(RelatedAttrs(rows, slot))
  {
    if rows != [] {
      var init := rows[..|rows| - 1];
      ListSlotCollects(base, init, slot);
      var row := rows[|rows| - 1];
      var prev := FoldRelated(base, init);
      var before := RelatedAttrs(init, slot);
      if prev.Ok? && IsRelatedRow(row) {
        var doc := row.doc.fields;
        ListJoinStep(prev.value, doc, slot);
        if SlotOf(doc) == slot && JoinRow(prev.value, doc).Ok? {
          assert RelatedAttrs(rows, slot) == before + [JoinedAttrs(doc)];
          ObjectsSnoc(SlotItems(base, slot), SlotItems(prev.value, slot),
            SlotItems(JoinRow(prev.value, doc).value, slot), before, JoinedAttrs(doc));
        } else if SlotOf(doc) != slot {
          assert RelatedAttrs(rows, slot) == before;
        }
      } else if !IsRelatedRow(row) {
        assert RelatedAttrs(rows, slot) == before;
      }
    }
  }

  /** One related document and a singular slot. */
  lemma SingularJoinStep(m: Fields, doc: Fields, slot: string)
    requires WellFormedRelated(doc)
    requires !IsListRelation(m, slot) && SlotOf(doc) != slot + "_ids"
    requires !IsSet(m, slot) || m[slot].Obj?
    ensures JoinRow(m, doc).Err? ==> SlotOf(doc) != slot
    ensures JoinRow(m, doc).Ok? ==>
      var r := JoinRow(m, doc).value;
      !IsListRelation(r, slot) &&
      (IsSet(r, slot) <==> IsSet(m, slot) || SlotOf(doc) == slot) &&
      (!IsSet(r, slot) || r[slot].Obj?) &&
      (SlotOf(doc) == slot ==> SlotFields(r, slot) == SlotFields(m, slot) + JoinedAttrs(doc)) &&
      (SlotOf(doc) != slot ==> SlotFields(r, slot) == SlotFields(m, slot))
  {
    if SlotOf(doc) != slot {
      JoinRowFrame(m, doc, slot);
      JoinRowFrame(m, doc, slot + "_ids");
    } else if !IsSet(m, slot) {
      assert map[] + JoinedAttrs(doc) == JoinedAttrs(doc);
    }
  }

  lemma MergeSnoc(f0: Fields, f: Fields, g: Fields, attrs: seq<Fields>, a: Fields)
    requires f == f0 + Merge(attrs) && g == f + a
    ensures g == f0 + Merge(attrs + [a])
  {
    assert (attrs + [a])[..|attrs|] == attrs;
    assert f0 + (Merge(attrs) + a) == f0 + Merge(attrs) + a;
  }

  /** A singular relation: when the base document has no `<slot>_ids` (and no
      related row creates that attribute) and the slot, if set, is an object,
      the slot never collides, and it ends up one object holding the copied
      attributes of every related row of that type merged onto the ones it
      had. */
  lemma {:induction false} SingularSlotMerges(base: Fields, rows: seq<LinkedRow>, slot: string)
    requires RelatedRowsWellFormed(rows)
    requires !IsListRelation(base, slot) && NoRowJoinsInto(rows, slot + "_ids")
    requires !IsSet(base, slot) || base[slot].Obj?
    ensures FoldRelated(base, rows).Err? ==> FoldRelated(base, rows).error != SlotCollision(slot)
    ensures FoldRelated(base, rows).Ok? ==>
      var r := FoldRelated(base, rows).value;
      !IsListRelation(r, slot) &&
      (IsSet(r, slot) <==> IsSet(base, slot) || RelatedAttrs(rows, slot) != []) &&
      (!IsSet(r, slot) || r[slot].Obj?) &&
      SlotFields(r, slot) == SlotFields(base, slot) + Merge(RelatedAttrs(rows, slot))
  {
    if rows == [] {
      assert SlotFields(base, slot) + map[] == SlotFields(base, slot);
    } else {
      var init := rows[..|rows| - 1];
      SingularSlotMerges(base, init, slot);
      var row := rows[|rows| - 1];
      var prev := FoldRelated(base, init);
      var before := RelatedAttrs(init, slot);
      if prev.Ok? && IsRelatedRow(row) {
        var doc := row.doc.fields;
        SingularJoinStep(prev.value, doc, slot);
        if SlotOf(doc) == slot && JoinRow(prev.value, doc).Ok? {
          assert RelatedAttrs(rows, slot) == before + [JoinedAttrs(doc)];
          MergeSnoc(SlotFields(base, slot), SlotFields(prev.value, slot),
            SlotFields(JoinRow(prev.value, doc).value, slot), before, JoinedAttrs(doc));
        } else if SlotOf(doc) != slot {
          assert RelatedAttrs(rows, slot) == before;
        }
      } else if !IsRelatedRow(row) {
        assert RelatedAttrs(rows, slot) == before;
      }
    }
  }
}
