/**
 The tamper-evident hash chain of the admin audit log: its verifier (apps/api/src/lib/audit-log.ts)
 and the script that re-links a log (apps/api/scripts/reset-audit-chain.ts). A log is the list of its
 rows in the order the verifier reads them.
 */
module AuditChain {
  import opened JsText
  import opened AuditEvidence

  /** The rows that take part in the chain. */
  function Hashed(rows: seq<Row>): seq<Row> {
    if rows == [] then []
    else if rows[0].rowHash.Some? then [rows[0]] + Hashed(rows[1..])
    else Hashed(rows[1..])
  }

  /** Every row names its predecessor's hash and carries the hash of its own evidence. */
  predicate Linked(h: Hashing, chain: seq<Row>, prev: Option<Text>) {
    chain == []
    || (&& chain[0].prevHash == prev
        && chain[0].rowHash == Some(RowHash(h, chain[0], prev))
        && Linked(h, chain[1..], chain[0].rowHash))
  }

  predicate Valid(h: Hashing, rows: seq<Row>) {
    Linked(h, Hashed(rows), None)
  }

  /** The hash the next row has to name. */
  function Tip(rows: seq<Row>, prev: Option<Text>): Option<Text> {
    if rows == [] then prev
    else Tip(rows[1..], if rows[0].rowHash.Some? then rows[0].rowHash else prev)
  }

  lemma {:induction false} HashedConcat(a: seq<Row>, b: seq<Row>)
    ensures Hashed(a + b) == Hashed(a) + Hashed(b)
  {
    if a == [] {
      assert a + b == b;
    } else {
      HashedConcat(a[1..], b);
      assert (a + b)[1..] == a[1..] + b;
      if a[0].rowHash.Some? { Assoc([a[0]], Hashed(a[1..]), Hashed(b)); }
    }
  }

  lemma {:induction false} HashedMembers(rows: seq<Row>)
    ensures forall r :: r in Hashed(rows) <==> r in rows && r.rowHash.Some?
  {
    if rows != [] {
      HashedMembers(rows[1..]);
      assert rows == [rows[0]] + rows[1..];
    }
  }

  lemma {:induction false} TipIsLast(rows: seq<Row>, prev: Option<Text>)
    ensures var c := Hashed(rows); Tip(rows, prev) == if c == [] then prev else c[|c| - 1].rowHash
  {
    if rows != [] {
      TipIsLast(rows[1..], if rows[0].rowHash.Some? then rows[0].rowHash else prev);
    }
  }

  lemma {:induction false} LinkedConcat(h: Hashing, a: seq<Row>, b: seq<Row>, prev: Option<Text>)
    ensures Linked(h, a + b, prev)
       <==> Linked(h, a, prev) && Linked(h, b, if a == [] then prev else a[|a| - 1].rowHash)
  {
    hide RowHash;
    if a == [] {
      assert a + b == b;
    } else {
      LinkedConcat(h, a[1..], b, a[0].rowHash);
      assert (a + b)[1..] == a[1..] + b;
    }
  }

  lemma {:induction false} LinkedAt(h: Hashing, chain: seq<Row>, prev: Option<Text>, i: nat)
    requires Linked(h, chain, prev) && i < |chain|
    ensures chain[i].prevHash == (if i == 0 then prev else chain[i - 1].rowHash)
    ensures chain[i].rowHash == Some(RowHash(h, chain[i], chain[i].prevHash))
  {
    hide RowHash;
    if i > 0 {
      LinkedAt(h, chain[1..], chain[0].rowHash, i - 1);
    }
  }

  // ---- verifyAuditChainIntegrity ----

  /** `brokenAt` is the first hashed row up to which the log is no longer a valid chain. */
  method Verify(h: Hashing, rows: seq<Row>) returns (valid: bool, brokenAt: Option<Text>)
    ensures valid <==> Valid(h, rows)
    ensures valid <==> brokenAt == None
    ensures !valid ==> exists i: nat :: i < |rows| && brokenAt == Some(rows[i].id)
                         && Valid(h, rows[..i]) && !Valid(h, rows[..i + 1])
  {
    var expected: Option<Text> := None;
    for i := 0 to |rows|
      invariant Valid(h, rows[..i]) && expected == Tip(rows[..i], None)
    {
      var row := rows[i];
      ExtendPrefix(h, rows, i);
      if row.rowHash.None? { continue; }
      if row.prevHash != expected || Some(RowHash(h, row, row.prevHash)) != row.rowHash {
        SplitAt(h, rows, i + 1);
        return false, Some(row.id);
      }
      expected := row.rowHash;
    }
    assert rows[..|rows|] == rows;
    return true, None;
  }

  lemma ExtendPrefix(h: Hashing, rows: seq<Row>, i: nat)
    requires i < |rows| && Valid(h, rows[..i])
    ensures var row, tip := rows[i], Tip(rows[..i], None);
            && Tip(rows[..i + 1], None) == (if row.rowHash.Some? then row.rowHash else tip)
            && (Valid(h, rows[..i + 1])
                <==> (row.rowHash.None? || (row.prevHash == tip && row.rowHash == Some(RowHash(h, row, tip)))))
  {
    hide RowHash;
    var row, c := rows[i], Hashed(rows[..i]);
    assert rows[..i + 1] == rows[..i] + [row];
    HashedConcat(rows[..i], [row]);
    assert Hashed([row]) == if row.rowHash.Some? then [row] else [];
    TipIsLast(rows[..i], None);
    TipIsLast(rows[..i + 1], None);
    LinkedConcat(h, c, Hashed([row]), None);
    if row.rowHash.None? {
      assert c + [] == c;
    } else {
      assert Linked(h, [row][1..], row.rowHash);
    }
  }

  lemma SplitAt(h: Hashing, rows: seq<Row>, n: nat)
    requires n <= |rows| && !Valid(h, rows[..n])
    ensures !Valid(h, rows)
  {
    hide RowHash;
    assert rows == rows[..n] + rows[n..];
    HashedConcat(rows[..n], rows[n..]);
    LinkedConcat(h, Hashed(rows[..n]), Hashed(rows[n..]), None);
  }

  // ---- the re-linking script ----

  datatype Update = Update(id: Text, prevHash: Option<Text>, rowHash: Text)

  /** What re-linking makes of a log: only the two hash columns of hashed rows are written. */
  function Relink(h: Hashing, rows: seq<Row>, prev: Option<Text>): (r: seq<Row>)
    ensures |r| == |rows|
  {
    if rows == [] then []
    else if rows[0].rowHash.None? then [rows[0]] + Relink(h, rows[1..], prev)
    else
      var hash := Some(RowHash(h, rows[0], prev));
      [rows[0].(prevHash := prev, rowHash := hash)] + Relink(h, rows[1..], hash)
  }

  function Updates(h: Hashing, rows: seq<Row>, prev: Option<Text>): seq<Update> {
    if rows == [] then []
    else if rows[0].rowHash.None? then Updates(h, rows[1..], prev)
    else
      var hash := RowHash(h, rows[0], prev);
      [Update(rows[0].id, prev, hash)] + Updates(h, rows[1..], Some(hash))
  }

  /** `update({ where: { id }, data: { prevHash, rowHash } })`. */
  function Write(rows: seq<Row>, u: Update): (r: seq<Row>)
    ensures |r| == |rows|
    ensures forall i :: 0 <= i < |rows| ==>
              r[i] == if rows[i].id != u.id then rows[i]
                      else rows[i].(prevHash := u.prevHash, rowHash := Some(u.rowHash))
  {
    if rows == [] then []
    else [if rows[0].id == u.id then rows[0].(prevHash := u.prevHash, rowHash := Some(u.rowHash)) else rows[0]]
         + Write(rows[1..], u)
  }

  function WriteAll(rows: seq<Row>, updates: seq<Update>): seq<Row>
    decreases |updates|
  {
    if updates == [] then rows else WriteAll(Write(rows, updates[0]), updates[1..])
  }

  predicate UniqueIds(rows: seq<Row>) {
    forall i, j :: 0 <= i < j < |rows| ==> rows[i].id != rows[j].id
  }

  /** The admin_audit_log table; `rows` is its content in creation order. */
  class AuditTable {
    var rows: seq<Row>

    constructor (rows: seq<Row>)
      ensures this.rows == rows
    {
      this.rows := rows;
    }

    method WriteRow(u: Update)
      modifies this
      ensures rows == Write(old(rows), u)
      ensures |rows| == |old(rows)|
      ensures forall i :: 0 <= i < |rows| && old(rows)[i].id != u.id ==> rows[i] == old(rows)[i]
      ensures forall i :: 0 <= i < |rows| && old(rows)[i].id == u.id ==>
                && rows[i].prevHash == u.prevHash && rows[i].rowHash == Some(u.rowHash)
                && rows[i].(prevHash := None, rowHash := None) == old(rows)[i].(prevHash := None, rowHash := None)
    {
      rows := Write(rows, u);
    }

    method Reset(h: Hashing) returns (updated: nat)
      requires UniqueIds(rows)
      modifies this
      ensures rows == Relink(h, old(rows), None)
      ensures Valid(h, rows) && updated == |Hashed(rows)|
    {
      var read := rows;
      var expected: Option<Text> := None;
      var updates: seq<Update> := [];
      for i := 0 to |read|
        invariant rows == read
        invariant updates + Updates(h, read[i..], expected) == Updates(h, read, None)
      {
        var row := read[i];
        assert read[i..][1..] == read[i + 1..];
        if row.rowHash.None? { continue; }
        var hash := RowHash(h, row, expected);
        Assoc(updates, [Update(row.id, expected, hash)], Updates(h, read[i + 1..], Some(hash)));
        updates := updates + [Update(row.id, expected, hash)];
        expected := Some(hash);
      }
      assert updates == Updates(h, read, None);
      for k := 0 to |updates|
        invariant WriteAll(rows, updates[k..]) == WriteAll(read, updates)
      {
        WriteRow(updates[k]);
        assert updates[k..][1..] == updates[k + 1..];
      }
      WriteAllRelinks(h, read, None);
      RelinkValid(h, read, None);
      UpdatesCount(h, read, None);
      return |updates|;
    }
  }

  lemma {:induction false} UpdatesCount(h: Hashing, rows: seq<Row>, prev: Option<Text>)
    ensures |Updates(h, rows, prev)| == |Hashed(Relink(h, rows, prev))|
  {
    hide RowHash;
    if rows != [] {
      UpdatesCount(h, rows[1..], if rows[0].rowHash.None? then prev else Some(RowHash(h, rows[0], prev)));
    }
  }

  lemma {:induction false} WriteAbsent(rows: seq<Row>, u: Update)
    requires forall i :: 0 <= i < |rows| ==> rows[i].id != u.id
    ensures Write(rows, u) == rows
  {
    if rows != [] {
      WriteAbsent(rows[1..], u);
    }
  }

  lemma {:induction false} WriteAllBehind(head: Row, rows: seq<Row>, updates: seq<Update>)
    requires forall k :: 0 <= k < |updates| ==> updates[k].id != head.id
    ensures WriteAll([head] + rows, updates) == [head] + WriteAll(rows, updates)
    decreases |updates|
  {
    if updates != [] {
      assert ([head] + rows)[1..] == rows;
      WriteAllBehind(head, Write(rows, updates[0]), updates[1..]);
    }
  }

  lemma {:induction false} UpdatesIds(h: Hashing, rows: seq<Row>, prev: Option<Text>, id: Text)
    requires forall i :: 0 <= i < |rows| ==> rows[i].id != id
    ensures forall k :: 0 <= k < |Updates(h, rows, prev)| ==> Updates(h, rows, prev)[k].id != id
  {
    hide RowHash;
    if rows != [] {
      UpdatesIds(h, rows[1..], if rows[0].rowHash.None? then prev else Some(RowHash(h, rows[0], prev)), id);
    }
  }

  /** Writing back by primary key touches each hashed row once: the script's second loop is `Relink`. */
  lemma {:induction false} WriteAllRelinks(h: Hashing, rows: seq<Row>, prev: Option<Text>)
    requires UniqueIds(rows)
    ensures WriteAll(rows, Updates(h, rows, prev)) == Relink(h, rows, prev)
  {
    hide RowHash;
    if rows != [] {
      var hash := RowHash(h, rows[0], prev);
      var skip := rows[0].rowHash.None?;
      var next := if skip then prev else Some(hash);
      var head := if skip then rows[0] else rows[0].(prevHash := prev, rowHash := Some(hash));
      var rest := Updates(h, rows[1..], next);
      WriteAllRelinks(h, rows[1..], next);
      UpdatesIds(h, rows[1..], next, head.id);
      WriteAllBehind(head, rows[1..], rest);
      assert rows == [rows[0]] + rows[1..];
      if !skip {
        var u := Update(rows[0].id, prev, hash);
        WriteAbsent(rows[1..], u);
        assert Updates(h, rows, prev)[1..] == rest;
      }
    }
  }

  /** Whatever the log was, the re-linked log is a valid chain. */
  lemma {:induction false} RelinkValid(h: Hashing, rows: seq<Row>, prev: Option<Text>)
    ensures Linked(h, Hashed(Relink(h, rows, prev)), prev)
  {
    hide RowHash;
    if rows != [] {
      var hash := Some(RowHash(h, rows[0], prev));
      var skip := rows[0].rowHash.None?;
      var next := if skip then prev else hash;
      var head := if skip then rows[0] else rows[0].(prevHash := prev, rowHash := hash);
      var rest := Relink(h, rows[1..], next);
      RelinkValid(h, rows[1..], next);
      HashedConcat([head], rest);
      assert Hashed([head]) == if skip then [] else [head];
      if !skip {
        RowHashIgnoresHashes(h, rows[0], prev, hash);
        assert ([head] + Hashed(rest))[1..] == Hashed(rest);
      } else {
        assert [] + Hashed(rest) == Hashed(rest);
      }
    }
  }

  lemma RowHashIgnoresHashes(h: Hashing, r: Row, prev: Option<Text>, hash: Option<Text>)
    ensures RowHash(h, r.(prevHash := prev, rowHash := hash), prev) == RowHash(h, r, prev)
  {
  }

  /** Rows that agree on everything but the two hash columns, and on whether they are hashed. */
  predicate SameButHashes(a: Row, b: Row) {
    a.(prevHash := None, rowHash := None) == b.(prevHash := None, rowHash := None)
    && (a.rowHash.None? ==> a == b)
    && (a.rowHash.None? <==> b.rowHash.None?)
  }

  predicate AllSameButHashes(a: seq<Row>, b: seq<Row>) {
    |a| == |b| && forall i :: 0 <= i < |a| ==> SameButHashes(a[i], b[i])
  }

  lemma {:induction false} RelinkKeeps(h: Hashing, rows: seq<Row>, prev: Option<Text>)
    ensures AllSameButHashes(rows, Relink(h, rows, prev))
  {
    hide RowHash;
    if rows != [] {
      RelinkKeeps(h, rows[1..], if rows[0].rowHash.None? then prev else Some(RowHash(h, rows[0], prev)));
      var r := Relink(h, rows, prev);
      forall i | 0 < i < |rows| ensures SameButHashes(rows[i], r[i]) {
        assert rows[i] == rows[1..][i - 1] && r[i] == r[1..][i - 1];
      }
    }
  }

  /** It is the only valid linking of those rows. */
  lemma {:induction false} RelinkUnique(h: Hashing, rows: seq<Row>, other: seq<Row>, prev: Option<Text>)
    requires AllSameButHashes(rows, other) && Linked(h, Hashed(other), prev)
    ensures other == Relink(h, rows, prev)
  {
    hide RowHash;
    if rows != [] {
      var a, b := rows[0], other[0];
      assert SameButHashes(a, b);
      forall i | 0 <= i < |rows| - 1 ensures SameButHashes(rows[1..][i], other[1..][i]) {
        assert SameButHashes(rows[i + 1], other[i + 1]);
      }
      var c := Hashed(other);
      if b.rowHash.Some? {
        assert c == [b] + Hashed(other[1..]);
        assert c[0] == b && c[1..] == Hashed(other[1..]);
        RowHashIgnoresHashes(h, a, prev, None);
        RowHashIgnoresHashes(h, b, prev, None);
        assert b == a.(prevHash := prev, rowHash := Some(RowHash(h, a, prev)));
      }
      RelinkUnique(h, rows[1..], other[1..], if a.rowHash.None? then prev else b.rowHash);
      assert other == [b] + other[1..];
    }
  }

  /** A log is a valid chain exactly when re-linking it changes nothing. */
  lemma RelinkFixesValid(h: Hashing, rows: seq<Row>)
    ensures Valid(h, rows) <==> Relink(h, rows, None) == rows
  {
    hide RowHash;
    if Valid(h, rows) {
      RelinkUnique(h, rows, rows, None);
    } else {
      RelinkValid(h, rows, None);
    }
  }

  /** A row linked to the tip extends a valid log without a seam; no other hashed row does. */
  lemma AppendValid(h: Hashing, rows: seq<Row>, r: Row)
    requires Valid(h, rows) && r.rowHash.Some?
    ensures Valid(h, rows + [r])
       <==> r.prevHash == Tip(rows, None) && r.rowHash == Some(RowHash(h, r, Tip(rows, None)))
  {
    hide RowHash;
    var all := rows + [r];
    assert all[..|rows|] == rows && all[..|rows| + 1] == all;
    ExtendPrefix(h, all, |rows|);
  }

  // ---- what the chain detects ----

  /** No hash occurs twice in a chain. */
  lemma {:induction false} HashesDistinct(h: Hashing, chain: seq<Row>, i: nat, j: nat)
    requires CollisionFree(h) && RowsOk(chain) && Linked(h, chain, None)
    requires i < j < |chain|
    ensures chain[i].rowHash != chain[j].rowHash
    decreases i
  {
    hide RowHash;
    LinkedAt(h, chain, None, i);
    LinkedAt(h, chain, None, j);
    if i > 0 {
      LinkedAt(h, chain, None, i - 1);
      LinkedAt(h, chain, None, j - 1);
      HashesDistinct(h, chain, i - 1, j - 1);
    } else {
      LinkedAt(h, chain, None, j - 1);
    }
    RowHashCovers(h, chain[i], chain[i].prevHash, chain[j], chain[j].prevHash);
  }

  lemma {:induction false} RearrangedIsPrefix(h: Hashing, chain: seq<Row>, other: seq<Row>)
    requires CollisionFree(h) && RowsOk(chain) && Linked(h, chain, None)
    requires Linked(h, other, None) && forall r :: r in other ==> r in chain
    ensures other <= chain
  {
    hide RowHash, RowOk, CollisionFree;
    if other != [] {
      var n := |other| - 1;
      var init := other[..n];
      assert other == init + [other[n]];
      LinkedConcat(h, init, [other[n]], None);
      RearrangedIsPrefix(h, chain, init);
      assert other[n] in chain;
      var i :| 0 <= i < |chain| && chain[i] == other[n];
      LinkedAt(h, other, None, n);
      SamePlace(h, chain, i, n);
    }
  }

  /** In a chain, the row whose predecessor's hash is that of row n - 1 is row n. */
  lemma SamePlace(h: Hashing, chain: seq<Row>, i: nat, n: nat)
    requires CollisionFree(h) && RowsOk(chain) && Linked(h, chain, None)
    requires i < |chain| && n <= |chain|
    requires chain[i].prevHash == if n == 0 then None else chain[n - 1].rowHash
    ensures i == n
  {
    hide RowHash, RowOk, CollisionFree, Linked;
    LinkedAt(h, chain, None, i);
    if i > 0 { LinkedAt(h, chain, None, i - 1); }
    if n > 0 { LinkedAt(h, chain, None, n - 1); }
    if 0 < i < n { HashesDistinct(h, chain, i - 1, n - 1); }
    if 0 < n < i { HashesDistinct(h, chain, n - 1, i - 1); }
  }

  /**
   Deleting, reordering or repeating rows of a valid chain: the result is a valid chain exactly when
   it is a prefix, that is, when nothing but the newest rows is gone.
   */
  lemma RearrangementDetected(h: Hashing, chain: seq<Row>, other: seq<Row>)
    requires CollisionFree(h) && RowsOk(chain) && Linked(h, chain, None)
    requires forall r :: r in other ==> r in chain
    ensures Linked(h, other, None) <==> other <= chain
  {
    if other <= chain {
      assert chain == other + chain[|other|..];
      LinkedConcat(h, other, chain[|other|..], None);
    } else if Linked(h, other, None) {
      RearrangedIsPrefix(h, chain, other);
    }
  }

  /** Rows edited in place: every column may have changed but the two that hold hashes. */
  predicate SameHashes(a: seq<Row>, b: seq<Row>) {
    |a| == |b| && forall i :: 0 <= i < |a| ==> a[i].prevHash == b[i].prevHash && a[i].rowHash == b[i].rowHash
  }

  /** Row i takes part in the chain and its hashed content was changed. */
  predicate Edited(before: seq<Row>, after: seq<Row>, i: nat)
    requires i < |before| && i < |after|
  {
    before[i].rowHash.Some? && ContentOf(before[i]) != ContentOf(after[i])
  }

  /** None of the first n rows is edited. */
  predicate Intact(before: seq<Row>, after: seq<Row>, n: nat)
    requires n <= |before| == |after|
  {
    forall i: nat :: i < n ==> !Edited(before, after, i)
  }

  lemma IntactSplit(before: seq<Row>, after: seq<Row>)
    requires |before| == |after| > 0
    ensures Intact(before, after, |before|) <==>
            !Edited(before, after, 0) && Intact(before[1..], after[1..], |before| - 1)
  {
    hide ContentOf;
    assert forall i: nat :: i < |before| - 1 ==> (Edited(before, after, i + 1) <==> Edited(before[1..], after[1..], i));
    if Intact(before[1..], after[1..], |before| - 1) && !Edited(before, after, 0) {
      forall i: nat | i < |before| ensures !Edited(before, after, i) {
        if i > 0 { assert !Edited(before[1..], after[1..], i - 1); }
      }
    }
  }

  /** An edit in place breaks the chain exactly if it changes the hashed content of a row that takes part in it. */
  lemma {:induction false} EditDetected(h: Hashing, rows: seq<Row>, after: seq<Row>, prev: Option<Text>)
    requires CollisionFree(h) && RowsOk(rows) && RowsOk(after)
    requires Linked(h, Hashed(rows), prev) && SameHashes(rows, after)
    ensures Linked(h, Hashed(after), prev) <==> Intact(rows, after, |rows|)
    decreases |rows|
  {
    hide RowHash, RowOk, CollisionFree, ContentOf;
    if rows != [] {
      var a, b := rows[0], after[0];
      IntactSplit(rows, after);
      hide Intact;
      if a.rowHash.None? {
        EditDetected(h, rows[1..], after[1..], prev);
      } else {
        assert Hashed(rows)[1..] == Hashed(rows[1..]) && Hashed(after)[1..] == Hashed(after[1..]);
        RowHashCovers(h, a, prev, b, prev);
        EditDetected(h, rows[1..], after[1..], a.rowHash);
      }
    }
  }

  /** The verifier names the first such row: the log is valid up to row i and no further exactly if i is that row. */
  lemma BrokenAtFirstEdit(h: Hashing, rows: seq<Row>, after: seq<Row>, i: nat)
    requires CollisionFree(h) && RowsOk(rows) && RowsOk(after)
    requires Valid(h, rows) && SameHashes(rows, after) && i < |rows|
    ensures Valid(h, after[..i]) && !Valid(h, after[..i + 1]) <==> Intact(rows, after, i) && Edited(rows, after, i)
  {
    hide CollisionFree, RowHash, RowOk, Linked, Hashed, ContentOf;
    ValidWhileIntact(h, rows, after, i);
    ValidWhileIntact(h, rows, after, i + 1);
  }

  lemma ValidWhileIntact(h: Hashing, rows: seq<Row>, after: seq<Row>, n: nat)
    requires CollisionFree(h) && RowsOk(rows) && RowsOk(after)
    requires Valid(h, rows) && SameHashes(rows, after) && n <= |rows|
    ensures Valid(h, after[..n]) <==> Intact(rows, after, n)
  {
    hide CollisionFree, RowHash, RowOk, Linked, Hashed, ContentOf;
    PrefixValid(h, rows, n);
    EditDetected(h, rows[..n], after[..n], None);
    assert forall k: nat :: k < n ==> (Edited(rows[..n], after[..n], k) <==> Edited(rows, after, k));
  }

  lemma PrefixValid(h: Hashing, rows: seq<Row>, n: nat)
    requires Valid(h, rows) && n <= |rows|
    ensures Valid(h, rows[..n])
  {
    hide RowHash;
    HashedConcat(rows[..n], rows[n..]);
    assert rows == rows[..n] + rows[n..];
    LinkedConcat(h, Hashed(rows[..n]), Hashed(rows[n..]), None);
  }

  function Contents(chain: seq<Row>): seq<Content> {
    seq(|chain|, i requires 0 <= i < |chain| => ContentOf(chain[i]))
  }

  /** The newest hash pins the whole history: evidence, order and length. */
  lemma {:induction false} TipPinsHistory(h: Hashing, a: seq<Row>, b: seq<Row>)
    requires CollisionFree(h) && RowsOk(a) && RowsOk(b)
    requires Linked(h, a, None) && Linked(h, b, None)
    requires a != [] && b != [] && a[|a| - 1].rowHash == b[|b| - 1].rowHash
    ensures Contents(a) == Contents(b)
    decreases |a|
  {
    hide RowHash;
    hide ContentOf, RowOk, CollisionFree;
    var m, n := |a| - 1, |b| - 1;
    LastRow(h, a);
    LastRow(h, b);
    RowHashCovers(h, a[m], a[m].prevHash, b[n], b[n].prevHash);
    if m > 0 {
      TipPinsHistory(h, a[..m], b[..n]);
      assert Contents(a) == Contents(a[..m]) + [ContentOf(a[m])];
      assert Contents(b) == Contents(b[..n]) + [ContentOf(b[n])];
    }
  }

  lemma LastRow(h: Hashing, chain: seq<Row>)
    requires Linked(h, chain, None) && chain != []
    ensures var m := |chain| - 1;
            && Linked(h, chain[..m], None)
            && chain[m].rowHash == Some(RowHash(h, chain[m], chain[m].prevHash))
            && chain[m].prevHash == (if m == 0 then None else chain[..m][m - 1].rowHash)
            && (m > 0 ==> chain[m - 1].rowHash.Some?)
  {
    hide RowHash;
    var m := |chain| - 1;
    assert chain == chain[..m] + [chain[m]];
    LinkedConcat(h, chain[..m], [chain[m]], None);
    if m > 0 { LinkedAt(h, chain, None, m - 1); }
  }

  /** `actorUserId` is not hashed: a row may be re-attributed in that column and the log stays valid. */
  lemma {:induction false} ActorColumnNotCovered(
      h: Hashing, chain: seq<Row>, prev: Option<Text>, i: nat, actor: Option<Text>)
    requires i < |chain| && Linked(h, chain, prev)
    ensures Linked(h, chain[i := chain[i].(actorUserId := actor)], prev)
  {
    var edited := chain[i := chain[i].(actorUserId := actor)];
    if i == 0 {
      assert edited[1..] == chain[1..];
    } else {
      ActorColumnNotCovered(h, chain[1..], chain[0].rowHash, i - 1, actor);
      assert edited[1..] == chain[1..][i - 1 := chain[i].(actorUserId := actor)];
    }
  }
}
