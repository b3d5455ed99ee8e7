/**
 `stableJson` of apps/api/src/lib/audit-log.ts and apps/api/src/services/jobs.ts: JSON text with
 the keys of every object sorted. It identifies a value up to the order of object keys.
 */
module CanonicalJson {
  import opened JsText
  import opened Json

  /** The order of `Array.prototype.sort` on strings: by code unit, a prefix first. */
  predicate Less(a: Text, b: Text) {
    if b == [] then false
    else if a == [] then true
    else a[0] < b[0] || (a[0] == b[0] && Less(a[1..], b[1..]))
  }

  lemma {:induction false} LessTransitive(a: Text, b: Text, c: Text)
    requires Less(a, b) && Less(b, c)
    ensures Less(a, c)
  {
    if a != [] && a[0] == b[0] == c[0] {
      LessTransitive(a[1..], b[1..], c[1..]);
    }
  }

  lemma {:induction false} LessTotal(a: Text, b: Text)
    ensures Less(a, b) || a == b || Less(b, a)
    ensures !(Less(a, b) && Less(b, a))
    ensures Less(a, b) ==> a != b
  {
    if a != [] && b != [] {
      LessTotal(a[1..], b[1..]);
      assert a == [a[0]] + a[1..] && b == [b[0]] + b[1..];
    }
  }

  /** Texts are ordered by the first code unit in which they differ; a text comes before its extensions. */
  lemma {:induction false} LessMeans(a: Text, b: Text)
    ensures Less(a, b) <==>
            exists k: nat :: k <= |a| && k < |b| && a[..k] == b[..k] && (k == |a| || a[k] < b[k])
  {
    if Less(a, b) {
      var k := FirstDifference(a, b);
    }
    if k: nat :| k <= |a| && k < |b| && a[..k] == b[..k] && (k == |a| || a[k] < b[k]) {
      DifferenceDecides(a, b, k);
    }
  }

  lemma {:induction false} FirstDifference(a: Text, b: Text) returns (k: nat)
    requires Less(a, b)
    ensures k <= |a| && k < |b| && a[..k] == b[..k] && (k == |a| || a[k] < b[k])
  {
    if a == [] || a[0] < b[0] {
      k := 0;
    } else {
      k := FirstDifference(a[1..], b[1..]);
      k := k + 1;
      assert a[..k] == [a[0]] + a[1..][..k - 1] && b[..k] == [b[0]] + b[1..][..k - 1];
    }
  }

  lemma {:induction false} DifferenceDecides(a: Text, b: Text, k: nat)
    requires k <= |a| && k < |b| && a[..k] == b[..k] && (k == |a| || a[k] < b[k])
    ensures Less(a, b)
  {
    if k > 0 {
      assert a[0] == a[..k][0] && b[0] == b[..k][0];
      assert a[1..][..k - 1] == a[..k][1..] && b[1..][..k - 1] == b[..k][1..];
      DifferenceDecides(a[1..], b[1..], k - 1);
    }
  }

  function Insert(m: Member, sorted: seq<Member>): seq<Member> {
    if sorted == [] || Less(m.key, sorted[0].key) then [m] + sorted
    else [sorted[0]] + Insert(m, sorted[1..])
  }

  function SortMembers(members: seq<Member>): seq<Member> {
    if members == [] then [] else Insert(members[0], SortMembers(members[1..]))
  }

  function SortKeys(v: Json): Json
    decreases v, 1
  {
    match v
    case Arr(items) => Arr(SortItems(items))
    case Obj(members) => Obj(SortMembers(SortValues(members)))
    case _ => v
  }

  function SortItems(items: seq<Json>): (r: seq<Json>)
    ensures |r| == |items| && forall i :: 0 <= i < |items| ==> r[i] == SortKeys(items[i])
    decreases items, 0
  {
    if items == [] then [] else [SortKeys(items[0])] + SortItems(items[1..])
  }

  function SortValues(members: seq<Member>): (r: seq<Member>)
    ensures |r| == |members|
    ensures forall i :: 0 <= i < |members| ==> r[i] == Member(members[i].key, SortKeys(members[i].value))
    decreases members, 0
  {
    if members == [] then []
    else [Member(members[0].key, SortKeys(members[0].value))] + SortValues(members[1..])
  }

  function StableJson(v: Json): Text {
    Stringify(SortKeys(v))
  }

  // ---- what a JSON value means, apart from how it is written ----

  datatype Value =
    | VNull
    | VBool(b: bool)
    | VNum(lexeme: Text)
    | VStr(s: Text)
    | VArr(items: seq<Value>)
    | VObj(fields: map<Text, Value>)

  function Meaning(v: Json): Value
    decreases v, 1
  {
    match v
    case Null => VNull
    case Bool(b) => VBool(b)
    case Num(lexeme) => VNum(lexeme)
    case Str(s) => VStr(s)
    case Arr(items) => VArr(MeaningItems(items))
    case Obj(members) => VObj(MeaningMembers(members))
  }

  function MeaningItems(items: seq<Json>): (r: seq<Value>)
    ensures |r| == |items| && forall i :: 0 <= i < |items| ==> r[i] == Meaning(items[i])
    decreases items, 0
  {
    if items == [] then [] else [Meaning(items[0])] + MeaningItems(items[1..])
  }

  function MeaningMembers(members: seq<Member>): map<Text, Value>
    decreases members, 0
  {
    if members == [] then map[] else MeaningMembers(members[1..])[members[0].key := Meaning(members[0].value)]
  }

  // ---- sorting ----

  predicate Sorted(members: seq<Member>) {
    forall i, j :: 0 <= i < j < |members| ==> Less(members[i].key, members[j].key)
  }

  lemma {:induction false} InsertKeepsOrder(m: Member, sorted: seq<Member>)
    requires Sorted(sorted) && forall i :: 0 <= i < |sorted| ==> sorted[i].key != m.key
    ensures Sorted(Insert(m, sorted))
    ensures forall x :: x in Insert(m, sorted) <==> x == m || x in sorted
  {
    var r := Insert(m, sorted);
    if sorted != [] {
      LessTotal(m.key, sorted[0].key);
      if Less(m.key, sorted[0].key) {
        forall j | 0 < j < |sorted| ensures Less(m.key, sorted[j].key) {
          LessTransitive(m.key, sorted[0].key, sorted[j].key);
        }
      } else {
        InsertKeepsOrder(m, sorted[1..]);
        forall j | 0 < j < |r| ensures Less(r[0].key, r[j].key) {
          assert r[j] in Insert(m, sorted[1..]);
        }
        assert sorted == [sorted[0]] + sorted[1..];
      }
    }
  }

  lemma {:induction false} SortMembersSorts(members: seq<Member>)
    requires DistinctKeys(members)
    ensures Sorted(SortMembers(members))
    ensures forall x :: x in SortMembers(members) <==> x in members
  {
    if members != [] {
      var rest := SortMembers(members[1..]);
      SortMembersSorts(members[1..]);
      forall i | 0 <= i < |rest| ensures rest[i].key != members[0].key {
        assert rest[i] in members[1..];
      }
      InsertKeepsOrder(members[0], rest);
      assert members == [members[0]] + members[1..];
    }
  }

  /** Strictly sorted lists with the same members are the same list. */
  lemma {:induction false} SortedUnique(a: seq<Member>, b: seq<Member>)
    requires Sorted(a) && Sorted(b)
    requires forall x :: x in a <==> x in b
    ensures a == b
  {
    assert b != [] ==> b[0] in a;
    if a != [] {
      assert a[0] in b;
      SameHead(a, b);
      forall x ensures x in a[1..] <==> x in b[1..] {
        TailMember(a, x);
        TailMember(b, x);
      }
      SortedUnique(a[1..], b[1..]);
      assert a == [a[0]] + a[1..] && b == [b[0]] + b[1..];
    }
  }

  lemma SameHead(a: seq<Member>, b: seq<Member>)
    requires a != [] && b != [] && Sorted(a) && Sorted(b)
    requires a[0] in b && b[0] in a
    ensures a[0] == b[0]
  {
    var i :| 0 <= i < |b| && b[i] == a[0];
    var j :| 0 <= j < |a| && a[j] == b[0];
    LessTotal(a[0].key, b[0].key);
  }

  lemma TailMember(a: seq<Member>, x: Member)
    requires a != [] && Sorted(a)
    ensures x in a[1..] <==> x in a && x != a[0]
  {
    LessTotal(a[0].key, a[0].key);
    if x in a && x != a[0] {
      var i :| 0 <= i < |a| && a[i] == x;
      assert a[1..][i - 1] == x;
    }
  }

  // ---- the meaning of an object ----

  lemma {:induction false} MeaningMembersAt(members: seq<Member>)
    requires DistinctKeys(members)
    ensures forall k :: k in MeaningMembers(members) ==> exists m :: m in members && m.key == k
    ensures forall m :: m in members ==>
              m.key in MeaningMembers(members) && MeaningMembers(members)[m.key] == Meaning(m.value)
  {
    if members != [] {
      MeaningMembersAt(members[1..]);
      assert members == [members[0]] + members[1..];
      forall k | k in MeaningMembers(members) ensures exists m :: m in members && m.key == k {
        if k == members[0].key {
          assert members[0] in members;
        } else {
          assert k in MeaningMembers(members[1..]);
          var m :| m in members[1..] && m.key == k;
          assert m in members;
        }
      }
    }
  }

  ghost predicate MeantBy(m: Member, members: seq<Member>) {
    exists n :: n in members && n.key == m.key && Meaning(n.value) == Meaning(m.value)
  }

  lemma MeantByAt(m: Member, members: seq<Member>)
    requires DistinctKeys(members) && MeantBy(m, members)
    ensures m.key in MeaningMembers(members) && MeaningMembers(members)[m.key] == Meaning(m.value)
  {}

  /** Every field of the one object is a field of the other. */
  lemma FieldsWithin(a: seq<Member>, b: seq<Member>)
    requires DistinctKeys(a) && DistinctKeys(b) && forall m :: m in a ==> MeantBy(m, b)
    ensures forall k :: k in MeaningMembers(a) ==>
              k in MeaningMembers(b) && MeaningMembers(a)[k] == MeaningMembers(b)[k]
  {
    MeaningMembersAt(a);
    hide *;
    forall k | k in MeaningMembers(a)
      ensures k in MeaningMembers(b) && MeaningMembers(a)[k] == MeaningMembers(b)[k]
    {
      var m :| m in a && m.key == k;
      MeantByAt(m, b);
    }
  }

  /** Two member lists whose members mean the same are the same object. */
  lemma SameFields(a: seq<Member>, b: seq<Member>)
    requires DistinctKeys(a) && DistinctKeys(b)
    requires forall m :: m in a ==> MeantBy(m, b)
    requires forall n :: n in b ==> MeantBy(n, a)
    ensures MeaningMembers(a) == MeaningMembers(b)
  {
    FieldsWithin(a, b);
    FieldsWithin(b, a);
  }

  // ---- sorting keeps a value well formed and keeps what it means ----

  lemma SortedIsDistinct(members: seq<Member>)
    requires Sorted(members)
    ensures DistinctKeys(members)
  {
    forall i, j | 0 <= i < j < |members| ensures members[i].key != members[j].key {
      LessTotal(members[i].key, members[j].key);
    }
  }

  /** The sorted members are the given ones, each with its value sorted. */
  lemma SortedObject(members: seq<Member>)
    requires DistinctKeys(members)
    ensures var s := SortMembers(SortValues(members));
            && Sorted(s)
            && (forall x :: x in s ==> exists n :: n in members && x == Member(n.key, SortKeys(n.value)))
            && (forall n :: n in members ==> Member(n.key, SortKeys(n.value)) in s)
  {
    hide SortKeys, SortMembers;
    var w := SortValues(members);
    var s := SortMembers(w);
    SortMembersSorts(w);
    forall x | x in s ensures exists n :: n in members && x == Member(n.key, SortKeys(n.value)) {
      var i :| 0 <= i < |w| && w[i] == x;
      assert members[i] in members;
    }
    forall n | n in members ensures Member(n.key, SortKeys(n.value)) in s {
      var i :| 0 <= i < |members| && members[i] == n;
      assert w[i] in s;
    }
  }

  lemma SortValuesKeeps(members: seq<Member>)
    requires DistinctKeys(members)
    requires forall m :: m in members ==>
               WellFormed(SortKeys(m.value)) && Meaning(SortKeys(m.value)) == Meaning(m.value)
    ensures var s := SortMembers(SortValues(members));
            WellFormed(Obj(s)) && MeaningMembers(s) == MeaningMembers(members)
  {
    SortedObject(members);
    hide SortKeys, MeaningMembers, SortMembers, SortValues, Meaning, Less;
    var s := SortMembers(SortValues(members));
    SortedIsDistinct(s);
    forall x | x in s ensures WellFormed(x.value) && MeantBy(x, members) {
    }
    forall i | 0 <= i < |s| ensures WellFormed(s[i].value) {
      assert s[i] in s;
    }
    forall n | n in members ensures MeantBy(n, s) {
      assert Member(n.key, SortKeys(n.value)) in s;
    }
    SameFields(s, members);
  }

  lemma {:induction false} SortKeysKeeps(v: Json)
    requires WellFormed(v)
    ensures WellFormed(SortKeys(v)) && Meaning(SortKeys(v)) == Meaning(v)
    decreases v
  {
    match v
    case Arr(items) =>
      forall i | 0 <= i < |items|
        ensures WellFormed(SortKeys(items[i])) && Meaning(SortKeys(items[i])) == Meaning(items[i])
      {
        SortKeysKeeps(items[i]);
      }
      assert MeaningItems(SortItems(items)) == MeaningItems(items);
    case Obj(members) =>
      forall m | m in members ensures WellFormed(SortKeys(m.value)) && Meaning(SortKeys(m.value)) == Meaning(m.value) {
        SortKeysKeeps(m.value);
      }
      SortValuesKeeps(members);
    case _ =>
  }

  ghost predicate SortedLike(m: Member, members: seq<Member>) {
    exists n :: n in members && n.key == m.key && SortKeys(n.value) == SortKeys(m.value)
  }

  lemma SortedObjectUnique(a: seq<Member>, b: seq<Member>)
    requires DistinctKeys(a) && DistinctKeys(b)
    requires forall m :: m in a ==> SortedLike(m, b)
    requires forall n :: n in b ==> SortedLike(n, a)
    ensures SortMembers(SortValues(a)) == SortMembers(SortValues(b))
  {
    SortedObject(a);
    SortedObject(b);
    SortedSubset(a, b);
    SortedSubset(b, a);
    SortedUnique(SortMembers(SortValues(a)), SortMembers(SortValues(b)));
  }

  lemma SortedSubset(a: seq<Member>, b: seq<Member>)
    requires DistinctKeys(a) && DistinctKeys(b)
    requires forall m :: m in a ==> SortedLike(m, b)
    ensures forall x :: x in SortMembers(SortValues(a)) ==> x in SortMembers(SortValues(b))
  {
    SortedObject(a);
    SortedObject(b);
    hide *;
    forall x | x in SortMembers(SortValues(a)) ensures x in SortMembers(SortValues(b)) {
      var m :| m in a && x == Member(m.key, SortKeys(m.value));
      var n := Like(m, b);
      assert x == Member(n.key, SortKeys(n.value));
    }
  }

  lemma Like(m: Member, members: seq<Member>) returns (n: Member)
    requires SortedLike(m, members)
    ensures n in members && n.key == m.key && SortKeys(n.value) == SortKeys(m.value)
  {
    n :| n in members && n.key == m.key && SortKeys(n.value) == SortKeys(m.value);
  }

  lemma SameMembers(a: seq<Member>, b: seq<Member>)
    requires DistinctKeys(a) && DistinctKeys(b) && MeaningMembers(a) == MeaningMembers(b)
    requires forall m, n :: m in a && n in b && Meaning(m.value) == Meaning(n.value) ==>
               SortKeys(m.value) == SortKeys(n.value)
    ensures forall m :: m in a ==> SortedLike(m, b)
  {
    hide SortKeys, Meaning, MeaningMembers, DistinctKeys;
    MeaningMembersAt(a);
    MeaningMembersAt(b);
    forall m | m in a ensures SortedLike(m, b) {
      var n :| n in b && n.key == m.key;
    }
  }

  /** Values that mean the same are sorted to the same value. */
  lemma {:induction false} SortKeysCanonical(a: Json, b: Json)
    requires WellFormed(a) && WellFormed(b) && Meaning(a) == Meaning(b)
    ensures SortKeys(a) == SortKeys(b)
    decreases a
  {
    match a
    case Arr(items) =>
      var p, q := MeaningItems(items), MeaningItems(b.items);
      forall i | 0 <= i < |items| ensures SortKeys(items[i]) == SortKeys(b.items[i]) {
        assert p[i] == q[i];
        SortKeysCanonical(items[i], b.items[i]);
      }
      assert SortItems(items) == SortItems(b.items);
    case Obj(members) =>
      forall m, n | m in members && n in b.members && Meaning(m.value) == Meaning(n.value)
        ensures SortKeys(m.value) == SortKeys(n.value)
      {
        SortKeysCanonical(m.value, n.value);
      }
      SameMembers(members, b.members);
      SameMembers(b.members, members);
      SortedObjectUnique(members, b.members);
    case _ =>
  }

  /** The text is a canonical form: it is the same exactly for values that differ in key order only. */
  lemma StableJsonCanonical(a: Json, b: Json)
    requires WellFormed(a) && WellFormed(b)
    ensures StableJson(a) == StableJson(b) <==> Meaning(a) == Meaning(b)
  {
    SortKeysKeeps(a);
    SortKeysKeeps(b);
    if StableJson(a) == StableJson(b) {
      StringifyInjective(SortKeys(a), SortKeys(b));
    }
    if Meaning(a) == Meaning(b) {
      SortKeysCanonical(a, b);
    }
  }

  /** Every object, at every depth, has its keys in ascending order. */
  ghost predicate KeysAscend(v: Json)
    decreases v
  {
    match v
    case Arr(items) => forall i :: 0 <= i < |items| ==> KeysAscend(items[i])
    case Obj(members) => Sorted(members) && forall i :: 0 <= i < |members| ==> KeysAscend(members[i].value)
    case _ => true
  }

  /** The values printed have ascending keys all the way down. */
  lemma {:induction false} SortKeysAscend(v: Json)
    requires WellFormed(v)
    ensures KeysAscend(SortKeys(v))
  {
    match v
    case Arr(items) =>
      forall i | 0 <= i < |items| ensures KeysAscend(SortKeys(items[i])) { SortKeysAscend(items[i]); }
    case Obj(members) =>
      SortedObject(members);
      var sorted := SortMembers(SortValues(members));
      forall i | 0 <= i < |sorted| ensures KeysAscend(sorted[i].value) {
        assert sorted[i] in sorted;
        var m :| m in members && sorted[i] == Member(m.key, SortKeys(m.value));
        SortKeysAscend(m.value);
      }
    case _ =>
  }
}
