/**
 The string-encoded file field of apps/web/components/dynamic-item-fields.tsx: a bare artifact id, or
 the JSON text of an array of ids.
 */
module FileIds {
  import opened JsText
  import opened Json

  /** `filter((v): v is string => typeof v === "string")`. */
  function Strings(items: seq<Json>): (r: seq<Text>)
    ensures forall t :: t in r <==> Str(t) in items
  {
    if items == [] then []
    else (if items[0].Str? then [items[0].s] else []) + Strings(items[1..])
  }

  lemma {:induction false} StringsConcat(a: seq<Json>, b: seq<Json>)
    ensures Strings(a + b) == Strings(a) + Strings(b)
  {
    if a == [] {
      assert a + b == b;
    } else {
      assert (a + b)[1..] == a[1..] + b;
      StringsConcat(a[1..], b);
    }
  }

  function Strs(ids: seq<Text>): seq<Json> {
    seq(|ids|, i requires 0 <= i < |ids| => Str(ids[i]))
  }

  function ParseFileIds(value: Text): seq<Text> {
    if value == [] then []
    else match Parse(value)
      case Some(Arr(items)) => Strings(items)
      case _ => [value]
  }

  function SerializeFileIds(ids: seq<Text>): Text {
    if ids == [] then []
    else if |ids| == 1 then ids[0]
    else Stringify(Arr(Strs(ids)))
  }

  /** The branch of `parseFileIds` that takes the value for an encoded list. */
  predicate IsArrayText(value: Text) {
    Parse(value).Some? && Parse(value).value.Arr?
  }

  predicate Ordinary(id: Text) {
    id != [] && !IsArrayText(id)
  }

  /** The one shape of list that is not written in a form it can be read back from. */
  predicate Ambiguous(ids: seq<Text>) {
    |ids| == 1 && !Ordinary(ids[0])
  }

  lemma {:induction false} StringsOfStrs(ids: seq<Text>)
    ensures Strings(Strs(ids)) == ids
  {
    if ids != [] {
      StringsOfStrs(ids[1..]);
      assert Strs(ids)[1..] == Strs(ids[1..]);
      assert ids == [ids[0]] + ids[1..];
    }
  }

  /** A list is read back as written unless it is a single id that is empty or is itself JSON array text. */
  lemma FileIdsRoundTrip(ids: seq<Text>)
    ensures ParseFileIds(SerializeFileIds(ids)) == ids <==> !Ambiguous(ids)
  {
    if |ids| > 1 {
      var v := Arr(Strs(ids));
      RoundTrip(false, v);
      StringsOfStrs(ids);
      hide Parse;
      assert Stringify(v)[0] == LBRACKET;
    } else if |ids| == 1 && IsArrayText(ids[0]) {
      ShorterInside(ids[0]);
    }
  }

  /** The strings an array text holds are shorter than the text. */
  lemma ShorterInside(value: Text)
    requires IsArrayText(value)
    ensures value !in ParseFileIds(value)
  {}

  // ---- the field ----

  function Take(ids: seq<Text>, n: int): seq<Text> {
    if 0 <= n < |ids| then ids[..n] else if n < 0 then [] else ids
  }

  function Without(ids: seq<Text>, id: Text): (r: seq<Text>)
    ensures |r| <= |ids|
    ensures forall x :: x in r <==> x in ids && x != id
  {
    if ids == [] then []
    else (if ids[0] != id then [ids[0]] else []) + Without(ids[1..], id)
  }

  /** What is left stays in its order. */
  lemma {:induction false} WithoutConcat(a: seq<Text>, b: seq<Text>, id: Text)
    ensures Without(a + b, id) == Without(a, id) + Without(b, id)
  {
    if a == [] {
      assert a + b == b;
    } else {
      assert (a + b)[1..] == a[1..] + b;
      WithoutConcat(a[1..], b, id);
      Assoc(if a[0] != id then [a[0]] else [], Without(a[1..], id), Without(b, id));
    }
  }

  lemma {:induction false} WithoutAbsent(a: seq<Text>, id: Text)
    requires id !in a
    ensures Without(a, id) == a
  {
    if a != [] { WithoutAbsent(a[1..], id); }
  }

  /** The ids the field shows. */
  function Decode(maxCount: int, value: Text): seq<Text> {
    if maxCount > 1 then ParseFileIds(value) else if value != [] then [value] else []
  }

  datatype Op = Add(id: Text) | Remove(id: Text)

  /** What an operation means: append within the limit, or replace; drop every occurrence. */
  function Meant(maxCount: int, ids: seq<Text>, op: Op): seq<Text> {
    match op
    case Add(id) => if maxCount > 1 then Take(ids + [id], maxCount) else [id]
    case Remove(id) => if maxCount > 1 then Without(ids, id) else []
  }

  class FileField {
    const maxCount: int
    var value: Text

    constructor (maxCount: int)
      ensures this.maxCount == maxCount && value == []
    {
      this.maxCount, value := maxCount, [];
    }

    function Ids(): seq<Text>
      reads this
    {
      Decode(maxCount, value)
    }

    /** The ids shown afterwards are the ones meant, unless their encoding is ambiguous. */
    method AddId(id: Text)
      modifies this
      ensures value == Stored(maxCount, old(value), Add(id))
      ensures maxCount > 1 ==>
                var meant := Meant(maxCount, old(Ids()), Add(id)); Ids() == meant <==> !Ambiguous(meant)
    {
      FileIdsRoundTrip(Meant(maxCount, Ids(), Add(id)));
      if maxCount > 1 {
        var ids := ParseFileIds(value) + [id];
        value := SerializeFileIds(if maxCount < |ids| then ids[..maxCount] else ids);
      } else {
        value := id;
      }
    }

    method RemoveId(id: Text)
      modifies this
      ensures value == Stored(maxCount, old(value), Remove(id))
      ensures maxCount > 1 ==>
                var meant := Meant(maxCount, old(Ids()), Remove(id)); Ids() == meant <==> !Ambiguous(meant)
    {
      FileIdsRoundTrip(Meant(maxCount, Ids(), Remove(id)));
      value := if maxCount > 1 then SerializeFileIds(Without(ParseFileIds(value), id)) else [];
    }
  }

  /** The field's value after an operation, as the two methods leave it. */
  function Stored(maxCount: int, value: Text, op: Op): Text {
    if maxCount <= 1 && op.Add? then op.id else SerializeFileIds(Meant(maxCount, Decode(maxCount, value), op))
  }

  function StoredRun(maxCount: int, value: Text, ops: seq<Op>): Text
    decreases |ops|
  {
    if ops == [] then value else StoredRun(maxCount, Stored(maxCount, value, ops[0]), ops[1..])
  }

  function MeantRun(maxCount: int, ids: seq<Text>, ops: seq<Op>): seq<Text>
    decreases |ops|
  {
    if ops == [] then ids else MeantRun(maxCount, Meant(maxCount, ids, ops[0]), ops[1..])
  }

  predicate AllOrdinary(ids: seq<Text>) {
    forall id :: id in ids ==> Ordinary(id)
  }

  function Limit(maxCount: int): int { if maxCount > 1 then maxCount else 1 }

  /** In every run over ordinary ids, the encoded field is the bounded list it stands for. */
  lemma {:induction false} FieldRefinesList(maxCount: int, value: Text, ops: seq<Op>)
    requires AllOrdinary(Decode(maxCount, value)) && |Decode(maxCount, value)| <= Limit(maxCount)
    requires forall i :: 0 <= i < |ops| ==> Ordinary(ops[i].id)
    ensures var end := StoredRun(maxCount, value, ops);
            && Decode(maxCount, end) == MeantRun(maxCount, Decode(maxCount, value), ops)
            && |Decode(maxCount, end)| <= Limit(maxCount) && AllOrdinary(Decode(maxCount, end))
    decreases |ops|
  {
    if ops != [] {
      var next := Meant(maxCount, Decode(maxCount, value), ops[0]);
      FileIdsRoundTrip(next);
      hide Ordinary, ParseFileIds, SerializeFileIds;
      assert Ordinary(ops[0].id);
      assert AllOrdinary(next);
      StoredMeans(maxCount, value, ops[0]);
      FieldRefinesList(maxCount, Stored(maxCount, value, ops[0]), ops[1..]);
    }
  }

  function Adds(ids: seq<Text>): seq<Op> {
    seq(|ids|, i requires 0 <= i < |ids| => Add(ids[i]))
  }

  /** Ids added one by one are shown in that order, up to the limit; a single field shows the last one. */
  lemma {:induction false} AddsInOrder(maxCount: int, shown: seq<Text>, ids: seq<Text>)
    requires maxCount > 1 ==> |shown| <= maxCount
    ensures MeantRun(maxCount, shown, Adds(ids))
         == if maxCount > 1 then (if |shown + ids| <= maxCount then shown + ids else (shown + ids)[..maxCount])
            else if ids == [] then shown else [ids[|ids| - 1]]
    decreases |ids|
  {
    if ids != [] {
      assert Adds(ids)[1..] == Adds(ids[1..]);
      AddsInOrder(maxCount, Meant(maxCount, shown, Add(ids[0])), ids[1..]);
      assert shown + ids == shown + [ids[0]] + ids[1..];
    } else {
      assert shown + [] == shown;
    }
  }

  /** Adding an id that fits and removing it again leaves the list as it was. */
  lemma RemoveUndoesAdd(maxCount: int, ids: seq<Text>, id: Text)
    requires id !in ids && |ids| < maxCount
    ensures maxCount > 1 ==> Meant(maxCount, Meant(maxCount, ids, Add(id)), Remove(id)) == ids
    ensures maxCount == 1 ==> Meant(maxCount, Meant(maxCount, ids, Add(id)), Remove(id)) == []
  {
    WithoutConcat(ids, [id], id);
    WithoutAbsent(ids, id);
  }

  lemma StoredMeans(maxCount: int, value: Text, op: Op)
    requires Ordinary(op.id) && AllOrdinary(Meant(maxCount, Decode(maxCount, value), op))
    ensures Decode(maxCount, Stored(maxCount, value, op)) == Meant(maxCount, Decode(maxCount, value), op)
  {
    var next := Meant(maxCount, Decode(maxCount, value), op);
    FileIdsRoundTrip(next);
    hide IsArrayText, ParseFileIds;
    assert |next| == 1 ==> next[0] in next;
  }
}
