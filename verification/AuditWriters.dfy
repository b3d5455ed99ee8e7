/**
 Concurrent `writeAuditLog` transactions (apps/api/src/lib/audit-log.ts): any number of open
 transactions, any interleaving of their statements, any wall clock. The advisory lock is what keeps
 the committed log one chain.
 */
module AuditWriters {
  import opened JsText
  import CanonicalJson
  import opened AuditEvidence
  import opened AuditChain

  type TxId = nat

  /** The committed log in (createdAt, id) order, the lock's holder, and each open transaction's own rows. */
  datatype System = System(log: seq<Row>, lock: Option<TxId>, pending: map<TxId, seq<Row>>)

  datatype Step =
    | Lock(t: TxId)                          // pg_advisory_xact_lock
    | Write(t: TxId, draft: Row, clock: int) // read the tip, hash, insert
    | Commit(t: TxId)
    | Abort(t: TxId)

  /** `orderBy: [{ createdAt: "asc" }, { id: "asc" }]`. */
  predicate Before(a: Row, b: Row) {
    a.createdAt < b.createdAt || (a.createdAt == b.createdAt && CanonicalJson.Less(a.id, b.id))
  }

  function Insert(log: seq<Row>, r: Row): seq<Row> {
    if log == [] || Before(r, log[0]) then [r] + log else [log[0]] + Insert(log[1..], r)
  }

  function InsertAll(log: seq<Row>, rows: seq<Row>): seq<Row> {
    if rows == [] then log else Insert(InsertAll(log, rows[..|rows| - 1]), rows[|rows| - 1])
  }

  function PendingOf(s: System, t: TxId): seq<Row> {
    if t in s.pending then s.pending[t] else []
  }

  /** What the transaction's own queries see: the committed rows and its own. */
  function Visible(s: System, t: TxId): seq<Row> {
    InsertAll(s.log, PendingOf(s, t))
  }

  /** The row one call inserts after the newest hashed row it sees. */
  function Draft(h: Hashing, seen: seq<Row>, draft: Row, clock: int): Row {
    var c := Hashed(seen);
    var prev := if c == [] then None else c[|c| - 1].rowHash;
    var at := if c != [] && c[|c| - 1].createdAt >= clock then c[|c| - 1].createdAt + 1 else clock;
    var r := draft.(createdAt := at, prevHash := prev);
    r.(rowHash := Some(RowHash(h, r, prev)))
  }

  /** With `locking` a call waits for the lock first; without it, it is the code before the fix. */
  predicate Enabled(locking: bool, s: System, step: Step) {
    match step
    case Lock(t) => s.lock == None || s.lock == Some(t)
    case Write(t, _, _) => locking ==> s.lock == Some(t)
    case Commit(_) => true
    case Abort(_) => true
  }

  function Next(h: Hashing, s: System, step: Step): System {
    match step
    case Lock(t) => s.(lock := Some(t))
    case Write(t, draft, clock) =>
      s.(pending := s.pending[t := PendingOf(s, t) + [Draft(h, Visible(s, t), draft, clock)]])
    case Commit(t) =>
      System(Visible(s, t), if s.lock == Some(t) then None else s.lock, s.pending[t := []])
    case Abort(t) =>
      System(s.log, if s.lock == Some(t) then None else s.lock, s.pending[t := []])
  }

  function Run(h: Hashing, locking: bool, s: System, steps: seq<Step>): System
    decreases |steps|
  {
    if steps == [] then s
    else Run(h, locking, if Enabled(locking, s, steps[0]) then Next(h, s, steps[0]) else s, steps[1..])
  }

  // ---- invariant ----

  predicate Ordered(log: seq<Row>) {
    forall i, j :: 0 <= i < j < |log| ==> log[i].createdAt <= log[j].createdAt
  }

  /**
   Only the lock's holder has uncommitted rows; the log is a valid chain in order, and so is what the
   holder sees, which is the log's chain followed by the holder's own rows.
   */
  ghost predicate Inv(h: Hashing, s: System) {
    && Ordered(s.log) && Valid(h, s.log)
    && (forall t: TxId :: PendingOf(s, t) != [] ==> s.lock == Some(t))
    && (s.lock.Some? ==> HolderSees(h, s, s.lock.value))
  }

  ghost predicate HolderSees(h: Hashing, s: System, t: TxId) {
    var seen := Visible(s, t);
    Ordered(seen) && Valid(h, seen) && Hashed(seen) == Hashed(s.log) + PendingOf(s, t)
  }

  lemma {:induction false} InsertKeepsOrder(log: seq<Row>, r: Row)
    requires Ordered(log)
    ensures Ordered(Insert(log, r))
    ensures forall x :: x in Insert(log, r) ==> x == r || x in log
  {
    if log != [] && !Before(r, log[0]) {
      InsertKeepsOrder(log[1..], r);
      var n := Insert(log[1..], r);
      forall j | 0 <= j < |n| ensures log[0].createdAt <= n[j].createdAt {
        assert n[j] in n;
      }
      assert log == [log[0]] + log[1..];
    }
  }

  /** The order of a log: by time, and of rows of one time by id. */
  predicate NotAfter(a: Row, b: Row) {
    a.createdAt < b.createdAt || (a.createdAt == b.createdAt && !CanonicalJson.Less(b.id, a.id))
  }

  predicate InOrder(log: seq<Row>) {
    forall i, j :: 0 <= i < j < |log| ==> NotAfter(log[i], log[j])
  }

  lemma BeforeThenNotAfter(r: Row, a: Row, b: Row)
    requires Before(r, a) && (a == b || NotAfter(a, b))
    ensures NotAfter(r, b)
  {
    CanonicalJson.LessTotal(r.id, a.id);
    if CanonicalJson.Less(b.id, r.id) && CanonicalJson.Less(r.id, a.id) {
      CanonicalJson.LessTransitive(b.id, r.id, a.id);
    }
  }

  /** Inserting a row keeps that order, and adds that row and nothing else. */
  lemma {:induction false} InsertSorts(log: seq<Row>, r: Row)
    requires InOrder(log)
    ensures InOrder(Insert(log, r)) && multiset(Insert(log, r)) == multiset(log) + multiset{r}
  {
    InsertAdds(log, r);
    hide NotAfter, Before;
    if log != [] && !Before(r, log[0]) {
      assert NotAfter(log[0], r) by { NotBefore(r, log[0]); }
      var n := Insert(log[1..], r);
      InsertSorts(log[1..], r);
      forall j | 0 <= j < |n| ensures NotAfter(log[0], n[j]) {
        assert n[j] in multiset(n);
        if n[j] != r { assert n[j] in log[1..]; }
      }
      hide Insert;
    } else if log != [] {
      forall j | 0 <= j < |log| ensures NotAfter(r, log[j]) { BeforeThenNotAfter(r, log[0], log[j]); }
    }
  }

  lemma {:induction false} InsertAdds(log: seq<Row>, r: Row)
    ensures multiset(Insert(log, r)) == multiset(log) + multiset{r}
  {
    if log != [] && !Before(r, log[0]) {
      InsertAdds(log[1..], r);
      assert log == [log[0]] + log[1..];
    }
  }

  lemma NotBefore(r: Row, a: Row)
    requires !Before(r, a)
    ensures NotAfter(a, r)
  {
  }

  /** Where a new hashed row lands in the chain: before rows that are not older than it. */
  lemma {:induction false} InsertHashed(log: seq<Row>, r: Row) returns (k: nat)
    requires Ordered(log) && r.rowHash.Some?
    ensures var c := Hashed(log);
            && k <= |c| && Hashed(Insert(log, r)) == c[..k] + ([r] + c[k..])
            && forall i :: 0 <= i < |c| && c[i].createdAt < r.createdAt ==> i < k
  {
    var c := Hashed(log);
    if log == [] || Before(r, log[0]) {
      k := 0;
      HashedMembers(log);
      assert forall i :: 0 <= i < |c| ==> c[i] in log;
      assert ([r] + log)[1..] == log;
      assert c[..0] + ([r] + c) == [r] + c;
    } else {
      k := InsertHashed(log[1..], r);
      var d, n := Hashed(log[1..]), Insert(log[1..], r);
      assert ([log[0]] + n)[1..] == n;
      if log[0].rowHash.Some? {
        hide Hashed, Insert;
        Shift(log[0], d, [r] + d[k..], k);
        k := k + 1;
      }
    }
  }

  lemma Shift(x: Row, d: seq<Row>, tail: seq<Row>, k: nat)
    requires k <= |d|
    ensures ([x] + d)[k + 1..] == d[k..]
    ensures [x] + (d[..k] + tail) == ([x] + d)[..k + 1] + tail
  {}

  /** A row created after every hashed row becomes the newest hashed row. */
  lemma InsertIsAppend(log: seq<Row>, r: Row)
    requires Ordered(log) && r.rowHash.Some?
    requires forall x :: x in Hashed(log) ==> x.createdAt < r.createdAt
    ensures Hashed(Insert(log, r)) == Hashed(log) + [r]
  {
    var c := Hashed(log);
    assert c[..|c|] == c;
    var k := InsertHashed(log, r);
    if c != [] { assert c[|c| - 1] in c; }
  }

  /** The newest hashed row is the latest one. */
  lemma {:induction false} LastHashedIsLatest(log: seq<Row>)
    requires Ordered(log)
    ensures var c := Hashed(log); forall x :: x in c ==> x.createdAt <= c[|c| - 1].createdAt
  {
    if log != [] {
      LastHashedIsLatest(log[1..]);
      HashedMembers(log[1..]);
      var c := Hashed(log[1..]);
      if c != [] { assert c[|c| - 1] in log[1..]; }
    }
  }

  /** One locked call extends the chain its transaction sees by its own row. */
  lemma DraftExtends(h: Hashing, seen: seq<Row>, draft: Row, clock: int)
    requires Ordered(seen) && Valid(h, seen)
    ensures var r := Draft(h, seen, draft, clock);
            && Ordered(Insert(seen, r)) && Valid(h, Insert(seen, r))
            && Hashed(Insert(seen, r)) == Hashed(seen) + [r]
  {
    var r := Draft(h, seen, draft, clock);
    DraftFacts(h, seen, draft, clock);
    TipIsLast(seen, None);
    hide RowHash, Draft;
    InsertKeepsOrder(seen, r);
    InsertIsAppend(seen, r);
    LinkedConcat(h, Hashed(seen), [r], None);
    assert [r][1..] == [];
  }

  /**
   A write records what it was given: every column but the time and the two hashes is the caller's. The time is
   the clock's, unless a hashed row seen is as new as that; then it is the millisecond after the newest one.
  */
  lemma WriteRecords(h: Hashing, s: System, t: TxId, draft: Row, clock: int) returns (r: Row)
    requires Ordered(Visible(s, t))
    ensures var n := Next(h, s, Write(t, draft, clock));
            PendingOf(n, t) == PendingOf(s, t) + [r] && n.log == s.log && n.lock == s.lock
    ensures r.(createdAt := 0, prevHash := None, rowHash := None)
         == draft.(createdAt := 0, prevHash := None, rowHash := None)
    ensures ContentOf(r) == ContentOf(draft).(createdAt := r.createdAt)
    ensures var seen := Hashed(Visible(s, t));
            if forall x :: x in seen ==> x.createdAt < clock then r.createdAt == clock
            else
              exists x :: x in seen && r.createdAt == x.createdAt + 1
                          && forall y :: y in seen ==> y.createdAt <= x.createdAt
  {
    hide RowHash, CanonicalJson.Meaning, Hashed;
    r := Draft(h, Visible(s, t), draft, clock);
    var seen := Hashed(Visible(s, t));
    LastHashedIsLatest(Visible(s, t));
    if seen != [] {
      var last := seen[|seen| - 1];
      assert last in seen;
    }
  }

  /** A commit adds exactly the transaction's rows to the chain, in order; an abort adds nothing; both free the lock. */
  lemma AllOrNothing(h: Hashing, s: System, t: TxId)
    requires Inv(h, s)
    ensures var done, undone := Next(h, s, Commit(t)), Next(h, s, Abort(t));
            && Hashed(done.log) == Hashed(s.log) + PendingOf(s, t)
            && undone.log == s.log
            && PendingOf(done, t) == PendingOf(undone, t) == []
            && done.lock != Some(t) && undone.lock != Some(t)
            && forall u: TxId :: u != t ==> PendingOf(done, u) == PendingOf(s, u) == PendingOf(undone, u)
  {
    hide Valid, Ordered, Hashed;
    if s.lock != Some(t) {
      assert PendingOf(s, t) == [] && Visible(s, t) == s.log;
      assert Hashed(s.log) + [] == Hashed(s.log);
    }
  }

  /** Every statement of every transaction keeps the invariant and never rewrites the committed chain. */
  lemma NextKeeps(h: Hashing, s: System, step: Step)
    requires Inv(h, s) && Enabled(true, s, step)
    ensures Inv(h, Next(h, s, step))
    ensures Hashed(s.log) <= Hashed(Next(h, s, step).log)
  {
    hide RowHash, Draft, Valid, Ordered, Hashed;
    var n := Next(h, s, step);
    match step
    case Lock(t) =>
      if s.lock == None {
        assert PendingOf(s, t) == [] && Visible(s, t) == s.log;
        assert Hashed(s.log) + [] == Hashed(s.log);
      }
    case Write(t, draft, clock) =>
      var seen, r := Visible(s, t), Draft(h, Visible(s, t), draft, clock);
      DraftExtends(h, seen, draft, clock);
      var rows := PendingOf(n, t);
      assert rows == PendingOf(s, t) + [r] && rows[..|rows| - 1] == PendingOf(s, t);
      assert Visible(n, t) == Insert(seen, r);
      Assoc(Hashed(s.log), PendingOf(s, t), [r]);
      assert forall u: TxId :: u != t ==> PendingOf(n, u) == PendingOf(s, u);
    case Commit(t) => Released(h, s, t, n);
    case Abort(t) => Released(h, s, t, n);
  }

  lemma Released(h: Hashing, s: System, t: TxId, n: System)
    requires Inv(h, s) && n.pending == s.pending[t := []]
    requires n.lock == if s.lock == Some(t) then None else s.lock
    requires n.log == Visible(s, t) || n.log == s.log
    ensures Inv(h, n) && Hashed(s.log) <= Hashed(n.log)
  {
    hide RowHash, Valid, Ordered, Hashed;
    forall u: TxId ensures PendingOf(n, u) == if u == t then [] else PendingOf(s, u) {
    }
    if s.lock != Some(t) {
      assert PendingOf(s, t) == [] && Visible(s, t) == s.log;
    }
  }

  /**
   Safety over whole runs: with the lock, whatever the transactions do in whatever order and whatever
   the clock says, the committed log is a valid chain that extends the one before.
   */
  lemma {:induction false} LockedWritersKeepChain(h: Hashing, s: System, steps: seq<Step>)
    requires Inv(h, s)
    ensures var e := Run(h, true, s, steps);
            Inv(h, e) && Valid(h, e.log) && Hashed(s.log) <= Hashed(e.log)
    decreases |steps|
  {
    hide RowHash, Next, Hashed, Valid;
    if steps != [] {
      var n := if Enabled(true, s, steps[0]) then Next(h, s, steps[0]) else s;
      if Enabled(true, s, steps[0]) { NextKeeps(h, s, steps[0]); }
      LockedWritersKeepChain(h, n, steps[1..]);
    }
  }

  lemma QuietIsInv(h: Hashing, log: seq<Row>)
    requires Ordered(log) && Valid(h, log)
    ensures Inv(h, System(log, None, map[]))
  {
  }

  /** So a log that is a valid chain while nobody writes is one after every run, and its old chain is a prefix. */
  lemma LogStaysOneChain(h: Hashing, log: seq<Row>, steps: seq<Step>)
    requires Ordered(log) && Valid(h, log)
    ensures var after := Run(h, true, System(log, None, map[]), steps).log;
            Ordered(after) && Valid(h, after) && Hashed(log) <= Hashed(after)
  {
    QuietIsInv(h, log);
    LockedWritersKeepChain(h, System(log, None, map[]), steps);
  }

  /** A re-linked log stays one valid chain, with the re-linked rows in front, under any number of later writers. */
  lemma RelinkedLogGrows(h: Hashing, rows: seq<Row>, steps: seq<Step>)
    requires Ordered(rows)
    ensures var reset := Relink(h, rows, None);
            var after := Run(h, true, System(reset, None, map[]), steps).log;
            Ordered(after) && Valid(h, after) && Hashed(reset) <= Hashed(after)
  {
    var reset := Relink(h, rows, None);
    RelinkValid(h, rows, None);
    RelinkKeeps(h, rows, None);
    assert Ordered(reset) by {
      forall i | 0 <= i < |rows| ensures reset[i].createdAt == rows[i].createdAt {
        assert SameButHashes(rows[i], reset[i]);
      }
    }
    LogStaysOneChain(h, reset, steps);
  }

  /** Two calls that read the same tip, one after the other, fork the chain, whichever row sorts first. */
  lemma ForkIsInvalid(h: Hashing, log: seq<Row>, first: Row, second: Row)
    requires CollisionFree(h) && RowsOk(Hashed(log)) && Valid(h, log)
    requires RowOk(first) && first.rowHash == Some(RowHash(h, first, Tip(log, None)))
    requires second.prevHash == Tip(log, None)
    ensures !Linked(h, Hashed(log) + [first, second], None)
  {
    hide RowHash, RowOk, CollisionFree;
    var c := Hashed(log) + [first];
    TipIsLast(log, None);
    assert Hashed(log) + [first, second] == c + [second];
    LinkedConcat(h, c, [second], None);
    if Linked(h, c, None) {
      if Hashed(log) != [] {
        var n := |Hashed(log)|;
        assert RowsOk(c);
        HashesDistinct(h, c, n - 1, n);
        LinkedAt(h, c, None, n - 1);
      }
      assert first.rowHash != Tip(log, None);
      assert second.prevHash != first.rowHash;
    }
  }

  /** The log two unlocked transactions leave: both wrote before either committed. */
  function Race(a: Row, clockA: int, b: Row, clockB: int): seq<Step> {
    [Write(1, a, clockA), Write(2, b, clockB), Commit(1), Commit(2)]
  }

  lemma FirstWrite(h: Hashing, s: System, t: TxId, draft: Row, clock: int)
    requires PendingOf(s, t) == []
    ensures Next(h, s, Write(t, draft, clock)) == s.(pending := s.pending[t := [Draft(h, s.log, draft, clock)]])
  {
    hide Draft;
    var r := Draft(h, s.log, draft, clock);
    assert Visible(s, t) == s.log && [] + [r] == [r];
  }

  lemma CommitOne(h: Hashing, s: System, t: TxId, r: Row)
    requires PendingOf(s, t) == [r] && s.lock == None
    ensures Next(h, s, Commit(t)) == System(Insert(s.log, r), None, s.pending[t := []])
  {
    assert InsertAll(s.log, [r][..0]) == s.log;
    assert Visible(s, t) == Insert(s.log, r);
  }

  lemma RaceLog(h: Hashing, log: seq<Row>, a: Row, b: Row, clockA: int, clockB: int)
    ensures Run(h, false, System(log, None, map[]), Race(a, clockA, b, clockB)).log
         == Insert(Insert(log, Draft(h, log, a, clockA)), Draft(h, log, b, clockB))
  {
    hide Draft, Insert, Run, Next, Visible, Enabled;
    var first, second := Draft(h, log, a, clockA), Draft(h, log, b, clockB);
    var s0 := System(log, None, map[]);
    FirstWrite(h, s0, 1, a, clockA);
    var s1 := Next(h, s0, Write(1, a, clockA));
    FirstWrite(h, s1, 2, b, clockB);
    var s2 := Next(h, s1, Write(2, b, clockB));
    CommitOne(h, s2, 1, first);
    var s3 := Next(h, s2, Commit(1));
    CommitOne(h, s3, 2, second);
    var s4 := Next(h, s3, Commit(2));
    RunFour(h, s0, Write(1, a, clockA), Write(2, b, clockB), Commit(1), Commit(2));
  }

  lemma RunFour(h: Hashing, s: System, a: Step, b: Step, c: Step, d: Step)
    requires !a.Lock? && !b.Lock? && !c.Lock? && !d.Lock?
    ensures Run(h, false, s, [a, b, c, d]) == Next(h, Next(h, Next(h, Next(h, s, a), b), c), d)
  {
    hide Next, Run;
    var s1 := Next(h, s, a);
    var s2 := Next(h, s1, b);
    var s3 := Next(h, s2, c);
    RunOne(h, s, a, [b, c, d]);
    RunOne(h, s1, b, [c, d]);
    RunOne(h, s2, c, [d]);
    RunOne(h, s3, d, []);
    RunNone(h, Next(h, s3, d));
    assert [a, b, c, d] == [a] + [b, c, d];
    assert [b, c, d] == [b] + [c, d];
    assert [c, d] == [c] + [d];
    assert [d] == [d] + [];
  }

  lemma RunOne(h: Hashing, s: System, step: Step, rest: seq<Step>)
    requires !step.Lock?
    ensures Run(h, false, s, [step] + rest) == Run(h, false, Next(h, s, step), rest)
  {}

  lemma RunNone(h: Hashing, s: System)
    ensures Run(h, false, s, []) == s
  {
  }

  /**
   The race the lock closes: without it, two transactions that write before either commits leave a
   broken log, on every valid log, for every pair of rows and clocks.
   */
  lemma UnlockedWritersFork(h: Hashing, log: seq<Row>, a: Row, b: Row, clockA: int, clockB: int)
    requires CollisionFree(h) && RowsOk(log) && RowOk(a) && RowOk(b)
    requires Ordered(log) && Valid(h, log)
    ensures !Valid(h, Run(h, false, System(log, None, map[]), Race(a, clockA, b, clockB)).log)
  {
    hide RowHash, RowOk, CollisionFree, Draft, Insert, Run, Race, Before;
    RaceLog(h, log, a, b, clockA, clockB);
    var first, second := Draft(h, log, a, clockA), Draft(h, log, b, clockB);
    var c := Hashed(log);
    DraftFacts(h, log, a, clockA);
    DraftFacts(h, log, b, clockB);
    DraftExtends(h, log, a, clockA);
    HashedMembers(log);
    assert RowsOk(c) by {
      assert forall i :: 0 <= i < |c| ==> c[i] in log;
    }
    var k := InsertHashed(Insert(log, first), second);
    if c != [] { assert c[|c| - 1] in c && (c + [first])[|c| - 1] == c[|c| - 1]; }
    BothPlaces(c, first, second, k);
    ForkIsInvalid(h, log, second, first);
    ForkIsInvalid(h, log, first, second);
  }

  lemma BothPlaces(c: seq<Row>, first: Row, second: Row, k: nat)
    requires |c| <= k <= |c| + 1
    ensures var d := c + [first];
            d[..k] + ([second] + d[k..]) == if k == |c| then c + [second, first] else c + [first, second]
  {
  }

  lemma DraftFacts(h: Hashing, seen: seq<Row>, draft: Row, clock: int)
    requires Ordered(seen)
    ensures var r := Draft(h, seen, draft, clock);
            && (RowOk(draft) ==> RowOk(r)) && r.prevHash == Tip(seen, None)
            && r.rowHash == Some(RowHash(h, r, Tip(seen, None)))
            && forall x :: x in Hashed(seen) ==> x.createdAt < r.createdAt
  {
    var r := Draft(h, seen, draft, clock);
    TipIsLast(seen, None);
    LastHashedIsLatest(seen);
    RowHashIgnoresHashes(h, r, r.prevHash, None);
    RowHashIgnoresHashes(h, r.(rowHash := draft.rowHash), r.prevHash, None);
  }
}
