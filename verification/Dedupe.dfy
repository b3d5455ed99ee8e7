/** `dedupeById` of apps/landing/lib/public-data.ts: the first row of each id wins. */
module Dedupe {
  import opened JsText

  /** A row of an untyped list: its `id` is a string, or is absent or something else. */
  datatype Row<T> = Row(id: Option<Text>, rest: T)

  /** The text a row is told apart by; the empty one stands for no id at all. */
  function Key<T>(row: Row<T>): Text { if row.id.Some? then row.id.value else [] }

  predicate Repeats<T>(rows: seq<Row<T>>, i: nat)
    requires i < |rows|
  {
    Key(rows[i]) != [] && exists j :: 0 <= j < i && Key(rows[j]) == Key(rows[i])
  }

  /** The rows that repeat no earlier id, in order. */
  function Firsts<T>(rows: seq<Row<T>>): seq<Row<T>> {
    if rows == [] then [] else
    var n := |rows| - 1;
    Firsts(rows[..n]) + if Repeats(rows, n) then [] else [rows[n]]
  }

  method DedupeById<T>(rows: seq<Row<T>>) returns (out: seq<Row<T>>)
    ensures out == Firsts(rows)
  {
    var seen: set<Text> := {};
    out := [];
    for i := 0 to |rows|
      invariant out == Firsts(rows[..i])
      invariant forall key :: key in seen <==> key != [] && exists j :: 0 <= j < i && Key(rows[j]) == key
    {
      var key := Key(rows[i]);
      assert rows[..i + 1][..i] == rows[..i];
      assert Repeats(rows[..i + 1], i) <==> key != [] && key in seen by {
        assert forall j :: 0 <= j < i ==> rows[..i + 1][j] == rows[j];
      }
      if key != [] && key in seen { continue; }
      if key != [] { seen := seen + {key}; }
      out := out + [rows[i]];
    }
    assert rows[..|rows|] == rows;
  }

  predicate Ascending(at: seq<nat>) { forall a, b :: 0 <= a < b < |at| ==> at[a] < at[b] }

  /** Where the rows that are kept stood: exactly the places that repeat no earlier id, in order. */
  function Places<T>(rows: seq<Row<T>>): (at: seq<nat>)
    ensures forall i :: i in at <==> 0 <= i < |rows| && !Repeats(rows, i)
    ensures Ascending(at)
  {
    if rows == [] then [] else
    var n := |rows| - 1;
    RepeatsBefore(rows);
    var before := Places(rows[..n]);
    assert forall a :: 0 <= a < |before| ==> before[a] in before;
    assert forall i :: i in before ==> i < n;
    if Repeats(rows, n) then before else before + [n]
  }

  ghost predicate Picked<T>(out: seq<T>, rows: seq<T>, at: seq<nat>) {
    |out| == |at| && forall k :: 0 <= k < |out| ==> at[k] < |rows| && out[k] == rows[at[k]]
  }

  /** What is left is a subsequence of the input: the rows at `Places`, in order. */
  lemma {:induction false} FirstsAtPlaces<T>(rows: seq<Row<T>>)
    ensures Picked(Firsts(rows), rows, Places(rows))
  {
    hide Repeats;
    if rows != [] { FirstsAtPlaces(rows[..|rows| - 1]); }
  }

  /** The k-th row kept repeats nothing kept before it. */
  lemma FirstsUnique<T>(rows: seq<Row<T>>, k: nat)
    requires k < |Firsts(rows)|
    ensures !Repeats(Firsts(rows), k)
  {
    FirstsAtPlaces(rows);
    var at := Places(rows);
    assert at[k] in at;
    forall j | 0 <= j < k && Key(Firsts(rows)[j]) == Key(Firsts(rows)[k]) ensures Key(Firsts(rows)[k]) == [] {
      assert at[j] < at[k];
    }
  }

  /** Every id of the input is kept with the earliest row that has it; every row without one is kept. */
  lemma {:induction false} FirstsKeep<T>(rows: seq<Row<T>>, i: nat)
    requires i < |rows|
    ensures Key(rows[i]) == [] ==> rows[i] in Firsts(rows)
    ensures exists j :: 0 <= j <= i && Key(rows[j]) == Key(rows[i]) && rows[j] in Firsts(rows)
    ensures !Repeats(rows, i) ==> rows[i] in Firsts(rows)
  {
    FirstsAtPlaces(rows);
    if Repeats(rows, i) {
      var j :| 0 <= j < i && Key(rows[j]) == Key(rows[i]);
      FirstsKeep(rows, j);
    } else {
      var k :| 0 <= k < |Places(rows)| && Places(rows)[k] == i;
      assert Firsts(rows)[k] == rows[i];
    }
  }

  /** Nothing changes exactly when nothing repeats; so a second pass changes nothing. */
  lemma {:induction false} FirstsFixed<T>(rows: seq<Row<T>>)
    ensures Firsts(rows) == rows <==> forall i :: 0 <= i < |rows| ==> !Repeats(rows, i)
    ensures |Firsts(rows)| <= |rows|
  {
    hide Repeats;
    if rows != [] {
      var n := |rows| - 1;
      var init := rows[..n];
      FirstsFixed(init);
      RepeatsBefore(rows);
      assert init + [rows[n]] == rows;
      if Firsts(rows) == rows {
        assert !Repeats(rows, n);
        assert Firsts(init) == Firsts(rows)[..n];
        forall i: nat | i < |rows| ensures !Repeats(rows, i) { if i < n { assert !Repeats(init, i); } }
      } else if Firsts(init) == init {
        assert Repeats(rows, n);
      } else {
        var i: nat :| i < n && Repeats(init, i);
        assert Repeats(rows, i);
      }
    }
  }

  lemma RepeatsBefore<T>(rows: seq<Row<T>>)
    requires rows != []
    ensures forall i: nat :: i < |rows| - 1 ==> (Repeats(rows[..|rows| - 1], i) <==> Repeats(rows, i))
  {}

  lemma FirstsIdempotent<T>(rows: seq<Row<T>>)
    ensures Firsts(Firsts(rows)) == Firsts(rows)
  {
    forall k: nat | k < |Firsts(rows)| ensures !Repeats(Firsts(rows), k) { FirstsUnique(rows, k); }
    FirstsFixed(Firsts(rows));
  }

  /** Of two sources joined, everything the first one alone would show is shown, in front. */
  lemma {:induction false} FirstSourceWins<T>(a: seq<Row<T>>, b: seq<Row<T>>)
    ensures Firsts(a) <= Firsts(a + b)
    decreases |b|
  {
    if b == [] { assert a + b == a; }
    else {
      FirstSourceWins(a, b[..|b| - 1]);
      assert (a + b)[..|a + b| - 1] == a + b[..|b| - 1];
    }
  }
}
