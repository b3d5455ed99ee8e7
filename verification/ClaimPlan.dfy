/** The claim plan of apps/api/src/worker.ts, derived from the lease table. */
module ClaimPlan {
  import opened JobQueue

  datatype Entry = Entry(kind: JobType, lease: int)

  /** The lease table in declaration order; as the keys of one record, its types are distinct. */
  predicate IsTable(table: seq<Entry>) {
    forall i, j :: 0 <= i < j < |table| ==> table[i].kind != table[j].kind
  }

  datatype Group = Group(types: seq<JobType>, lease: int)

  /** `[...new Set(Object.values(...))].sort((a, b) => b - a)`. */
  function InsertDown(x: int, xs: seq<int>): seq<int> {
    if xs == [] || x > xs[0] then [x] + xs
    else if x == xs[0] then xs
    else [xs[0]] + InsertDown(x, xs[1..])
  }

  function Leases(table: seq<Entry>): seq<int> {
    if table == [] then [] else InsertDown(table[0].lease, Leases(table[1..]))
  }

  function TypesWith(table: seq<Entry>, lease: int): seq<JobType> {
    if table == [] then []
    else (if table[0].lease == lease then [table[0].kind] else []) + TypesWith(table[1..], lease)
  }

  function Plan(table: seq<Entry>): seq<Group> {
    var leases := Leases(table);
    seq(|leases|, k requires 0 <= k < |leases| => Group(TypesWith(table, leases[k]), leases[k]))
  }

  predicate Falling(xs: seq<int>) {
    forall i, j :: 0 <= i < j < |xs| ==> xs[i] > xs[j]
  }

  lemma {:induction false} InsertDownKeeps(x: int, xs: seq<int>)
    requires Falling(xs)
    ensures Falling(InsertDown(x, xs))
    ensures forall y :: y in InsertDown(x, xs) <==> y == x || y in xs
  {
    if xs != [] && x < xs[0] {
      InsertDownKeeps(x, xs[1..]);
      var r := InsertDown(x, xs[1..]);
      forall j | 0 <= j < |r| ensures r[j] < xs[0] {
        assert r[j] in r;
      }
      assert xs == [xs[0]] + xs[1..];
    }
  }

  lemma {:induction false} LeasesAre(table: seq<Entry>)
    ensures Falling(Leases(table))
    ensures forall l :: l in Leases(table) <==> exists e :: e in table && e.lease == l
  {
    if table != [] {
      LeasesAre(table[1..]);
      InsertDownKeeps(table[0].lease, Leases(table[1..]));
      forall l ensures l in Leases(table) <==> exists e :: e in table && e.lease == l {
        if l in Leases(table) && l != table[0].lease {
          var e :| e in table[1..] && e.lease == l;
          assert e in table;
        }
        if l == table[0].lease { assert table[0] in table; }
      }
    }
  }

  lemma {:induction false} TypesWithAre(table: seq<Entry>, lease: int)
    requires IsTable(table)
    ensures forall t :: t in TypesWith(table, lease) <==> Entry(t, lease) in table
    ensures forall i, j :: 0 <= i < j < |TypesWith(table, lease)| ==>
              TypesWith(table, lease)[i] != TypesWith(table, lease)[j]
  {
    if table != [] {
      TypesWithAre(table[1..], lease);
      assert table == [table[0]] + table[1..];
      var rest := TypesWith(table[1..], lease);
      forall i | 0 <= i < |rest| ensures rest[i] != table[0].kind {
        assert rest[i] in rest && Entry(rest[i], lease) in table[1..];
      }
    }
  }

  /**
   The plan partitions the table: every type is in exactly one group, once, and that group has its
   lease; no group is empty; leases fall strictly, so the longest-leased types have first refusal.
   */
  lemma PlanPartitions(table: seq<Entry>)
    requires IsTable(table)
    ensures var plan := Plan(table);
            && (forall i, j :: 0 <= i < j < |plan| ==> plan[i].lease > plan[j].lease)
            && (forall k :: 0 <= k < |plan| ==> plan[k].types != [])
            && (forall k, t :: 0 <= k < |plan| ==> (t in plan[k].types <==> Entry(t, plan[k].lease) in table))
            && (forall k, i, j :: 0 <= k < |plan| && 0 <= i < j < |plan[k].types| ==>
                  plan[k].types[i] != plan[k].types[j])
            && (forall e :: e in table ==>
                  exists k :: 0 <= k < |plan| && e.kind in plan[k].types && plan[k].lease == e.lease)
  {
    var plan, leases := Plan(table), Leases(table);
    LeasesAre(table);
    forall k | 0 <= k < |plan|
      ensures plan[k].types != []
      ensures forall t :: t in plan[k].types <==> Entry(t, plan[k].lease) in table
      ensures forall i, j :: 0 <= i < j < |plan[k].types| ==> plan[k].types[i] != plan[k].types[j]
    {
      TypesWithAre(table, leases[k]);
      assert leases[k] in leases;
      var e :| e in table && e.lease == leases[k];
      assert Entry(e.kind, leases[k]) == e;
      assert e.kind in TypesWith(table, leases[k]);
    }
    forall e | e in table
      ensures exists k :: 0 <= k < |plan| && e.kind in plan[k].types && plan[k].lease == e.lease
    {
      assert e.lease in leases;
      var k :| 0 <= k < |leases| && leases[k] == e.lease;
      TypesWithAre(table, e.lease);
      assert e == Entry(e.kind, e.lease);
      assert e.kind in plan[k].types;
    }
  }

  /** A type of the table is in no second group. */
  lemma OneGroupPerType(table: seq<Entry>, t: JobType, i: nat, j: nat)
    requires IsTable(table) && i < |Plan(table)| && j < |Plan(table)|
    requires t in Plan(table)[i].types && t in Plan(table)[j].types
    ensures i == j
  {
    PlanPartitions(table);
    var plan := Plan(table);
    assert Entry(t, plan[i].lease) in table && Entry(t, plan[j].lease) in table;
    var a :| 0 <= a < |table| && table[a] == Entry(t, plan[i].lease);
    var b :| 0 <= b < |table| && table[b] == Entry(t, plan[j].lease);
  }
}
