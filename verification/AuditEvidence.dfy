/**
 What one row of the admin audit log is hashed over: `canonicalizeAuditValue`, `stableJson` and
 `hashAuditEvidence` of apps/api/src/lib/audit-log.ts on rows whose JSON columns hold JSON.
 */
module AuditEvidence {
  import opened JsText
  import opened Json
  import opened CanonicalJson

  /** SHA-256 in hexadecimal and `Date.toISOString`, both over values this model does not look into. */
  datatype Hashing = Hashing(sha: Text -> Text, iso: int -> Text)

  ghost predicate CollisionFree(h: Hashing) {
    && (forall a, b :: h.sha(a) == h.sha(b) ==> a == b)
    && (forall t, u :: h.iso(t) == h.iso(u) ==> t == u)
  }

  datatype Row = Row(
    id: Text,
    actorUserId: Option<Text>,
    actorSnapshot: Json,
    action: Text,
    targetType: Text,
    targetId: Text,
    result: Text,
    metadata: Json,
    before: Json,
    after: Json,
    ip: Option<Text>,
    userAgent: Option<Text>,
    requestId: Option<Text>,
    createdAt: int,
    prevHash: Option<Text>,
    rowHash: Option<Text>)

  /** The JSON columns hold JSON values. */
  ghost predicate RowOk(r: Row) {
    WellFormed(r.actorSnapshot) && WellFormed(r.metadata) && WellFormed(r.before) && WellFormed(r.after)
  }

  ghost predicate RowsOk(rows: seq<Row>) {
    forall i :: 0 <= i < |rows| ==> RowOk(rows[i])
  }

  // ---- evidence ----

  function U(s: string): Text {
    seq(|s|, i requires 0 <= i < |s| => (s[i] as int % 0x1_0000) as Unit)
  }

  function OrNull(t: Option<Text>): Json {
    match t case None => Null case Some(s) => Str(s)
  }

  function Evidence(h: Hashing, r: Row, prevHash: Option<Text>): seq<Member> {
    [ Member(U("id"), Str(r.id)),
      Member(U("actorSnapshot"), r.actorSnapshot),
      Member(U("action"), Str(r.action)),
      Member(U("targetType"), Str(r.targetType)),
      Member(U("targetId"), Str(r.targetId)),
      Member(U("result"), Str(r.result)),
      Member(U("metadata"), r.metadata),
      Member(U("before"), r.before),
      Member(U("after"), r.after),
      Member(U("ip"), OrNull(r.ip)),
      Member(U("userAgent"), OrNull(r.userAgent)),
      Member(U("requestId"), OrNull(r.requestId)),
      Member(U("prevHash"), OrNull(prevHash)),
      Member(U("createdAt"), Str(h.iso(r.createdAt))) ]
  }

  function RowHash(h: Hashing, r: Row, prevHash: Option<Text>): Text {
    h.sha(StableJson(Obj(Evidence(h, r, prevHash))))
  }

  /** The part of a row its hash covers, with the key order of JSON columns forgotten. */
  datatype Content = Content(
    id: Text,
    actorSnapshot: Value,
    action: Text,
    targetType: Text,
    targetId: Text,
    result: Text,
    metadata: Value,
    before: Value,
    after: Value,
    ip: Option<Text>,
    userAgent: Option<Text>,
    requestId: Option<Text>,
    createdAt: int)

  function ContentOf(r: Row): Content {
    Content(r.id, Meaning(r.actorSnapshot), r.action, r.targetType, r.targetId, r.result,
            Meaning(r.metadata), Meaning(r.before), Meaning(r.after),
            r.ip, r.userAgent, r.requestId, r.createdAt)
  }

  /** The place of a key in the evidence, from its length and first letters. */
  function KeyIndex(k: Text): int {
    if |k| < 2 then -1
    else if |k| == 2 then (if k[1] == 0x64 then 0 else 9)
    else if |k| == 5 then 8
    else if |k| == 6 then (if k[0] == 0x61 then 2 else if k[0] == 0x72 then 5 else 7)
    else if |k| == 8 then (if k[0] == 0x74 then 4 else if k[0] == 0x6D then 6 else 12)
    else if |k| == 9 then (if k[0] == 0x75 then 10 else if k[0] == 0x72 then 11 else 13)
    else if |k| == 10 then 3
    else 1
  }

  lemma EvidenceKeyIndex(h: Hashing, r: Row, prevHash: Option<Text>)
    ensures forall i :: 0 <= i < 14 ==> KeyIndex(Evidence(h, r, prevHash)[i].key) == i
  {}

  lemma EvidenceOk(h: Hashing, r: Row, prevHash: Option<Text>)
    requires RowOk(r)
    ensures DistinctKeys(Evidence(h, r, prevHash)) && WellFormed(Obj(Evidence(h, r, prevHash)))
  {
    EvidenceKeyIndex(h, r, prevHash);
    hide U, KeyIndex;
    var e := Evidence(h, r, prevHash);
    forall i, j | 0 <= i < j < |e| ensures e[i].key != e[j].key {
      assert KeyIndex(e[i].key) != KeyIndex(e[j].key);
    }
  }

  /** What the evidence says about one row, value by value. */
  ghost predicate SameValues(e: seq<Member>, f: seq<Member>) {
    |e| == |f| && forall i :: 0 <= i < |e| ==> Meaning(e[i].value) == Meaning(f[i].value)
  }

  lemma JsonAt(e: seq<Member>, f: seq<Member>, i: nat, v: Json, w: Json)
    requires SameValues(e, f) && i < |e| && e[i].value == v && f[i].value == w
    ensures Meaning(v) == Meaning(w)
  {
  }

  lemma TextAt(e: seq<Member>, f: seq<Member>, i: nat, s: Text, t: Text)
    requires SameValues(e, f) && i < |e| && e[i].value == Str(s) && f[i].value == Str(t)
    ensures s == t
  {}

  lemma OptionAt(e: seq<Member>, f: seq<Member>, i: nat, s: Option<Text>, t: Option<Text>)
    requires SameValues(e, f) && i < |e| && e[i].value == OrNull(s) && f[i].value == OrNull(t)
    ensures s == t
  {}

  /** The values of the evidence, place by place. */
  lemma EvidenceAt(h: Hashing, r: Row, p: Option<Text>)
    ensures var e := Evidence(h, r, p);
            && |e| == 14
            && e[0].value == Str(r.id) && e[1].value == r.actorSnapshot && e[2].value == Str(r.action)
            && e[3].value == Str(r.targetType) && e[4].value == Str(r.targetId) && e[5].value == Str(r.result)
            && e[6].value == r.metadata && e[7].value == r.before && e[8].value == r.after
            && e[9].value == OrNull(r.ip) && e[10].value == OrNull(r.userAgent) && e[11].value == OrNull(r.requestId)
            && e[12].value == OrNull(p) && e[13].value == Str(h.iso(r.createdAt))
  {
    hide U, OrNull;
  }

  lemma EvidenceDetermines(h: Hashing, a: Row, p: Option<Text>, b: Row, q: Option<Text>)
    requires CollisionFree(h) && SameValues(Evidence(h, a, p), Evidence(h, b, q))
    ensures ContentOf(a) == ContentOf(b) && p == q
  {
    var e, f := Evidence(h, a, p), Evidence(h, b, q);
    EvidenceAt(h, a, p);
    EvidenceAt(h, b, q);
    hide SameValues, Meaning, OrNull, Evidence;
    TextAt(e, f, 0, a.id, b.id);
    JsonAt(e, f, 1, a.actorSnapshot, b.actorSnapshot);
    TextAt(e, f, 2, a.action, b.action);
    TextAt(e, f, 3, a.targetType, b.targetType);
    TextAt(e, f, 4, a.targetId, b.targetId);
    TextAt(e, f, 5, a.result, b.result);
    JsonAt(e, f, 6, a.metadata, b.metadata);
    JsonAt(e, f, 7, a.before, b.before);
    JsonAt(e, f, 8, a.after, b.after);
    OptionAt(e, f, 9, a.ip, b.ip);
    OptionAt(e, f, 10, a.userAgent, b.userAgent);
    OptionAt(e, f, 11, a.requestId, b.requestId);
    OptionAt(e, f, 12, p, q);
    TextAt(e, f, 13, h.iso(a.createdAt), h.iso(b.createdAt));
  }

  lemma EvidenceDetermined(h: Hashing, a: Row, b: Row, p: Option<Text>)
    requires ContentOf(a) == ContentOf(b)
    ensures SameValues(Evidence(h, a, p), Evidence(h, b, p))
  {
    EvidenceAt(h, a, p);
    EvidenceAt(h, b, p);
    hide Meaning, OrNull, Evidence;
  }

  /** The evidence means the same exactly if its values do. */
  lemma EvidenceMeaning(h: Hashing, a: Row, p: Option<Text>, b: Row, q: Option<Text>)
    requires RowOk(a) && RowOk(b)
    ensures var e, f := Evidence(h, a, p), Evidence(h, b, q);
            Meaning(Obj(e)) == Meaning(Obj(f)) <==> SameValues(e, f)
  {
    EvidenceOk(h, a, p);
    EvidenceOk(h, b, q);
    EvidenceKeys(h, a, p, b, q);
    hide Evidence, WellFormed, DistinctKeys, MeaningMembers;
    SameMeaning(Evidence(h, a, p), Evidence(h, b, q));
  }

  lemma EvidenceKeys(h: Hashing, a: Row, p: Option<Text>, b: Row, q: Option<Text>)
    ensures var e, f := Evidence(h, a, p), Evidence(h, b, q);
            |e| == |f| && forall i :: 0 <= i < |e| ==> e[i].key == f[i].key
  {
    hide U;
  }

  ghost predicate Holds(fields: map<Text, Value>, name: string, value: Value) {
    U(name) in fields && fields[U(name)] == value
  }

  /** What is hashed, by name: each of these fields of the object holds what the row has under that name. */
  lemma EvidenceFields(h: Hashing, r: Row, prevHash: Option<Text>)
    requires RowOk(r)
    ensures var e := Meaning(Obj(Evidence(h, r, prevHash)));
            && e.VObj?
            && Holds(e.fields, "id", VStr(r.id)) && Holds(e.fields, "actorSnapshot", Meaning(r.actorSnapshot))
            && Holds(e.fields, "action", VStr(r.action)) && Holds(e.fields, "targetType", VStr(r.targetType))
            && Holds(e.fields, "targetId", VStr(r.targetId)) && Holds(e.fields, "result", VStr(r.result))
            && Holds(e.fields, "metadata", Meaning(r.metadata))
            && Holds(e.fields, "before", Meaning(r.before)) && Holds(e.fields, "after", Meaning(r.after))
            && Holds(e.fields, "ip", Meaning(OrNull(r.ip)))
            && Holds(e.fields, "userAgent", Meaning(OrNull(r.userAgent)))
            && Holds(e.fields, "requestId", Meaning(OrNull(r.requestId)))
            && Holds(e.fields, "prevHash", Meaning(OrNull(prevHash)))
            && Holds(e.fields, "createdAt", VStr(h.iso(r.createdAt)))
  {
    var e := Evidence(h, r, prevHash);
    EvidenceOk(h, r, prevHash);
    EvidenceAt(h, r, prevHash);
    EvidenceNames(h, r, prevHash);
    assert MeaningMembers(e) == Meaning(Obj(e)).fields;
    assert forall t: Text :: Meaning(Str(t)) == VStr(t);
    hide U, MeaningMembers, Meaning, OrNull, WellFormed, DistinctKeys, Evidence, Holds;
    FieldAt(e, 0, "id");
    FieldAt(e, 1, "actorSnapshot");
    FieldAt(e, 2, "action");
    FieldAt(e, 3, "targetType");
    FieldAt(e, 4, "targetId");
    FieldAt(e, 5, "result");
    FieldAt(e, 6, "metadata");
    FieldAt(e, 7, "before");
    FieldAt(e, 8, "after");
    FieldAt(e, 9, "ip");
    FieldAt(e, 10, "userAgent");
    FieldAt(e, 11, "requestId");
    FieldAt(e, 12, "prevHash");
    FieldAt(e, 13, "createdAt");
  }

  lemma FieldAt(e: seq<Member>, i: nat, name: string)
    requires DistinctKeys(e) && i < |e| && e[i].key == U(name)
    ensures Holds(MeaningMembers(e), name, Meaning(e[i].value))
  {
    MeaningMembersAt(e);
    hide U, MeaningMembers, Meaning, DistinctKeys;
    assert e[i] in e;
  }

  lemma EvidenceNames(h: Hashing, r: Row, prevHash: Option<Text>)
    ensures var e := Evidence(h, r, prevHash);
            && |e| == 14
            && e[0].key == U("id") && e[1].key == U("actorSnapshot") && e[2].key == U("action")
            && e[3].key == U("targetType") && e[4].key == U("targetId") && e[5].key == U("result")
            && e[6].key == U("metadata") && e[7].key == U("before") && e[8].key == U("after")
            && e[9].key == U("ip") && e[10].key == U("userAgent") && e[11].key == U("requestId")
            && e[12].key == U("prevHash") && e[13].key == U("createdAt")
  {
    hide U;
  }

  /** The hash covers the content and the predecessor's hash, and nothing else. */
  lemma RowHashCovers(h: Hashing, a: Row, p: Option<Text>, b: Row, q: Option<Text>)
    requires CollisionFree(h) && RowOk(a) && RowOk(b)
    ensures RowHash(h, a, p) == RowHash(h, b, q) <==> ContentOf(a) == ContentOf(b) && p == q
  {
    var e, f := Evidence(h, a, p), Evidence(h, b, q);
    EvidenceOk(h, a, p);
    EvidenceOk(h, b, q);
    hide WellFormed, DistinctKeys, StableJson, Meaning, Evidence, ContentOf, SameValues;
    StableJsonCanonical(Obj(e), Obj(f));
    EvidenceMeaning(h, a, p, b, q);
    if SameValues(e, f) { EvidenceDetermines(h, a, p, b, q); }
    if ContentOf(a) == ContentOf(b) && p == q { EvidenceDetermined(h, a, b, p); }
  }

  lemma SameMeaning(e: seq<Member>, f: seq<Member>)
    requires DistinctKeys(e) && DistinctKeys(f) && |e| == |f|
    requires forall i :: 0 <= i < |e| ==> e[i].key == f[i].key
    ensures MeaningMembers(e) == MeaningMembers(f) <==> SameValues(e, f)
  {
    MeaningMembersAt(e);
    MeaningMembersAt(f);
    hide Meaning, MeaningMembers;
    forall i | 0 <= i < |e|
      ensures MeaningMembers(e) == MeaningMembers(f) ==> Meaning(e[i].value) == Meaning(f[i].value)
    {
      assert e[i] in e && f[i] in f;
    }
    if SameValues(e, f) {
      SameMeaningBuild(e, f);
    }
  }

  lemma {:induction false} SameMeaningBuild(e: seq<Member>, f: seq<Member>)
    requires SameValues(e, f) && forall i :: 0 <= i < |e| ==> e[i].key == f[i].key
    ensures MeaningMembers(e) == MeaningMembers(f)
  {
    if e != [] {
      SameMeaningBuild(e[1..], f[1..]);
    }
  }
}
