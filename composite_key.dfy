/**
 * Composite (array) view keys: `implodeArrayKey`, and PHP `implode` over strings.
 */
module CompositeKey {
  import opened PhpValues
  import opened UrlCodec
  import opened KeyCodec

  /** `implode($sep, $xs)` over strings. */
  function Join(sep: string, xs: seq<string>): string {
    if xs == [] then ""
    else if |xs| == 1 then xs[0]
    else Join(sep, xs[..|xs| - 1]) + sep + xs[|xs| - 1]
  }

  /** `implode` of a non-empty list starts with its first element, ends with
      its last, and is at least as long as its separators. */
  lemma {:induction false} JoinEnds(sep: string, xs: seq<string>)
    requires xs != []
    ensures xs[0] <= Join(sep, xs)
    ensures |xs[|xs| - 1]| <= |Join(sep, xs)|
    ensures Join(sep, xs)[|Join(sep, xs)| - |xs[|xs| - 1]|..] == xs[|xs| - 1]
    ensures |Join(sep, xs)| >= |sep| * (|xs| - 1)
  {
    if |xs| > 1 {
      var init := xs[..|xs| - 1];
      JoinEnds(sep, init);
      assert init[0] == xs[0];
      var j := Join(sep, init);
      assert Join(sep, xs) == j + sep + xs[|xs| - 1];
      assert |j + sep| >= |sep| * (|xs| - 1);
    }
  }

  /** `implode` read from the front: the first element, the separator, then
      the rest joined. With the definition, which reads from the back, every
      pair of neighbours has exactly one separator between them. */
  lemma {:induction false} JoinCons(sep: string, x: string, ys: seq<string>)
    requires ys != []
    ensures Join(sep, [x] + ys) == x + sep + Join(sep, ys)
  {
    var xs := [x] + ys;
    if |ys| == 1 {
      assert xs[..1] == [x];
    } else {
      var init := ys[..|ys| - 1];
      JoinCons(sep, x, init);
      assert xs[..|xs| - 1] == [x] + init;
      assert Join(sep, xs) == (x + sep + Join(sep, init)) + sep + ys[|ys| - 1];
    }
  }

  lemma {:induction false} JoinQuerySafe(sep: string, xs: seq<string>)
    requires IsQuerySafe(sep)
    requires forall i :: 0 <= i < |xs| ==> IsQuerySafe(xs[i])
    ensures IsQuerySafe(Join(sep, xs))
  {
    if |xs| > 1 {
      JoinQuerySafe(sep, xs[..|xs| - 1]);
    }
  }

  predicate AllEncodable(items: seq<Value>) {
    forall i :: 0 <= i < |items| ==> Encodable(items[i])
  }

  /** Every element encoded with `EncodeParamValue`, in order; an invalid key
      as soon as one cannot be. */
  function EncodeAll(items: seq<Value>): (r: Result<seq<string>>)
    ensures r.Ok? ==> |r.value| == |items|
    ensures r.Err? ==> r.error == InvalidKeyType
  {
    if items == [] then Ok([])
    else
      match EncodeAll(items[..|items| - 1])
      case Err(e) => Err(e)
      case Ok(init) =>
        match EncodeParamValue(items[|items| - 1])
        case Err(e) => Err(e)
        case Ok(last) => Ok(init + [last])
  }

  /** The elements are encoded exactly when each one is encodable. */
  lemma {:induction false} EncodeAllSucceeds(items: seq<Value>)
    ensures EncodeAll(items).Ok? <==> AllEncodable(items)
  {
    if items != [] {
      EncodeAllSucceeds(items[..|items| - 1]);
      EncodeAllLast(items);
      AllEncodableLast(items);
    }
  }

  lemma EncodeAllLast(items: seq<Value>)
    requires items != []
    ensures EncodeAll(items).Ok? <==> EncodeAll(items[..|items| - 1]).Ok? && Encodable(items[|items| - 1])
  {
  }

  lemma AllEncodableLast(items: seq<Value>)
    requires items != []
    ensures AllEncodable(items) <==> AllEncodable(items[..|items| - 1]) && Encodable(items[|items| - 1])
  {
    var front := items[..|items| - 1];
    assert forall i :: 0 <= i < |front| ==> front[i] == items[i];
  }

  /** The i-th encoding is the encoding of the i-th element. */
  lemma {:induction false} EncodeAllElement(items: seq<Value>, i: nat)
    requires EncodeAll(items).Ok? && i < |items|
    ensures EncodeParamValue(items[i]) == Ok(EncodeAll(items).value[i])
  {
    var init := items[..|items| - 1];
    if i < |items| - 1 {
      EncodeAllElement(init, i);
    }
  }

  /** Every element's encoding is safe inside a query. */
  lemma EncodeAllQuerySafe(items: seq<Value>)
    requires EncodeAll(items).Ok?
    ensures forall i :: 0 <= i < |items| ==> IsQuerySafe(EncodeAll(items).value[i])
  {
    forall i | 0 <= i < |items|
      ensures IsQuerySafe(EncodeAll(items).value[i])
    {
      EncodeAllElement(items, i);
    }
  }

  /** A composite key `[e1,e2,...]`, each element encoded as a scalar. The
      empty array gives `]`, because the source overwrites the last character
      of `[` . */
  function EncodeComposite(items: seq<Value>): (r: Result<string>)
    ensures r.Ok? <==> AllEncodable(items)
    ensures r.Err? ==> r.error == InvalidKeyType
    ensures r.Ok? ==> IsQuerySafe(r.value)
  {
    if items == [] then Ok("]")
    else
      EncodeAllSucceeds(items);
      match EncodeAll(items)
      case Err(e) => Err(e)
      case Ok(encs) =>
        EncodeAllQuerySafe(items);
        JoinQuerySafe(",", encs);
        Ok("[" + Join(",", encs) + "]")
  }

  /** Every element followed by a comma: what the loop of `implodeArrayKey` builds. */
  function Terminated(xs: seq<string>): string {
    if xs == [] then "" else Terminated(xs[..|xs| - 1]) + xs[|xs| - 1] + ","
  }

  lemma {:induction false} TerminatedIsJoin(xs: seq<string>)
    requires xs != []
    ensures Terminated(xs) == Join(",", xs) + ","
  {
    if |xs| > 1 {
      TerminatedIsJoin(xs[..|xs| - 1]);
      assert xs[..|xs| - 1][..|xs| - 2] == xs[..|xs| - 2];
    } else {
      assert xs[..0] == [];
    }
  }

  /** Appending an element and its comma to the text built so far. */
  lemma TerminatedSnoc(s: string, xs: seq<string>, x: string)
    requires s == "[" + Terminated(xs)
    ensures s + x + "," == "[" + Terminated(xs + [x])
  {
    assert (xs + [x])[..|xs|] == xs;
  }

  /** Overwriting the trailing comma (or the lone `[`) with `]`. */
  lemma CloseBracket(xs: seq<string>, s: string)
    requires s == "[" + Terminated(xs)
    ensures |s| >= 1
    ensures s[..|s| - 1] + "]" == if xs == [] then "]" else "[" + Join(",", xs) + "]"
  {
    if xs != [] {
      TerminatedIsJoin(xs);
      assert s == ("[" + Join(",", xs)) + ",";
      assert s[..|s| - 1] == "[" + Join(",", xs);
    } else {
      assert s == "[" && s[..|s| - 1] == [];
    }
  }

  lemma EncodeAllSnoc(k: seq<Value>, i: nat, e: string)
    requires i < |k| && EncodeAll(k[..i]).Ok? && EncodeParamValue(k[i]) == Ok(e)
    ensures EncodeAll(k[..i + 1]) == Ok(EncodeAll(k[..i]).value + [e])
  {
    assert k[..i + 1][..i] == k[..i];
  }

  /** One element that cannot be encoded makes the whole key invalid. */
  lemma EncodeCompositeFails(k: seq<Value>, i: nat)
    requires i < |k| && EncodeParamValue(k[i]).Err?
    ensures EncodeComposite(k) == Err(InvalidKeyType)
  {
    assert !Encodable(k[i]);
    EncodeAllSucceeds(k);
  }

  lemma EncodeCompositeOfTerminated(k: seq<Value>, encs: seq<string>, s: string)
    requires EncodeAll(k) == Ok(encs) && s == "[" + Terminated(encs)
    ensures |s| >= 1 && EncodeComposite(k) == Ok(s[..|s| - 1] + "]")
  {
    CloseBracket(encs, s);
  }

  /** `implodeArrayKey($k)`: appends each encoded element and a comma to `[`,
      then overwrites the last character with `]`. */
  method ImplodeArrayKey(k: seq<Value>) returns (r: Result<string>)
    ensures r == EncodeComposite(k)
  {
    var s := "[";
    ghost var encs: seq<string> := [];
    var i := 0;
    while i < |k|
      invariant 0 <= i <= |k|
      invariant EncodeAll(k[..i]) == Ok(encs)
      invariant s == "[" + Terminated(encs)
    {
      var q := EncodeParamValue(k[i]);
      if q.Err? {
        EncodeCompositeFails(k, i);
        return Err(InvalidKeyType);
      }
      EncodeAllSnoc(k, i, q.value);
      TerminatedSnoc(s, encs, q.value);
      s := s + q.value + ",";
      encs := encs + [q.value];
      i := i + 1;
    }
    assert k[..i] == k;
    EncodeCompositeOfTerminated(k, encs, s);
    s := s[..|s| - 1] + "]";
    r := Ok(s);
  }

  /** A composite key of one scalar is its encoding in brackets. */
  lemma EncodeCompositeSingle(a: Value, ea: string)
    requires EncodeParamValue(a) == Ok(ea)
    ensures EncodeComposite([a]) == Ok("[" + ea + "]")
  {
    var one := [a];
    assert one[..0] == [];
    assert EncodeAll(one) == Ok([] + [ea]);
    assert [] + [ea] == [ea];
  }
  /** A composite key of two scalars: both encodings, in order, separated by
      a comma and in brackets. */
  lemma EncodeCompositePair(a: Value, ea: string, b: Value, eb: string)
    requires EncodeParamValue(a) == Ok(ea) && EncodeParamValue(b) == Ok(eb)
    ensures EncodeComposite([a, b]) == Ok("[" + ea + "," + eb + "]")
  {
    var two := [a, b];
    assert two[..1] == [a];
    EncodeCompositeSingle(a, ea);
    assert EncodeAll([a]) == Ok([ea]) by {
      assert [a][..0] == [];
      assert EncodeAll([a]) == Ok([] + [ea]);
      assert [] + [ea] == [ea];
    }
    assert EncodeAll(two) == Ok([ea] + [eb]);
    var encs := [ea, eb];
    assert [ea] + [eb] == encs;
    EncodeAllSucceeds(two);
    assert encs[..1] == [ea];
    assert Join(",", encs) == ea + "," + eb;
    assert "[" + (ea + "," + eb) + "]" == "[" + ea + "," + eb + "]";
  }
}
