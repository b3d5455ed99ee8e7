/** The karma ladder of apps/landing/lib/karma.ts, and the percentage of apps/landing/lib/format.ts. */
module Karma {
  import opened JsText

  datatype Tier = Tier(id: Text, min: int)
  type Ladder = s: seq<Tier> | s != [] witness [Tier([], 0)]

  /** The last tier in list order whose floor the points reach; the first tier if there is none. */
  function Standing(points: int, ladder: Ladder): (k: nat)
    ensures k < |ladder|
  {
    var n := |ladder| - 1;
    if n == 0 || points >= ladder[n].min then n else Standing(points, ladder[..n])
  }

  method TierFor(points: int, ladder: Ladder) returns (current: Tier)
    ensures current == ladder[Standing(points, ladder)]
  {
    current := ladder[0];
    for i := 0 to |ladder|
      invariant i == 0 ==> current == ladder[0]
      invariant i > 0 ==> current == ladder[Standing(points, ladder[..i])]
    {
      assert i > 0 ==> ladder[..i + 1][..i] == ladder[..i];
      var t := ladder[i];
      if points >= t.min { current := t; }
    }
    assert ladder[..|ladder|] == ladder;
  }

  /** The built-in ladder answers only when no live one has come. */
  method TierForLive(points: int, tiers: seq<Tier>, builtIn: Ladder) returns (current: Tier)
    ensures tiers == [] ==> current == builtIn[Standing(points, builtIn)]
    ensures tiers != [] ==> current == tiers[Standing(points, tiers)]
  {
    if |tiers| == 0 {
      current := TierFor(points, builtIn);
      return;
    }
    current := tiers[0];
    for i := 0 to |tiers|
      invariant i == 0 ==> current == tiers[0]
      invariant i > 0 ==> current == tiers[Standing(points, tiers[..i])]
    {
      assert i > 0 ==> tiers[..i + 1][..i] == tiers[..i];
      var t := tiers[i];
      if points >= t.min { current := t; }
    }
    assert tiers[..|tiers|] == tiers;
  }

  predicate Ascending(ladder: seq<Tier>) {
    forall i, j :: 0 <= i < j < |ladder| ==> ladder[i].min < ladder[j].min
  }

  predicate Distinct(ladder: seq<Tier>) {
    forall i, j :: 0 <= i < j < |ladder| ==> ladder[i].min != ladder[j].min
  }

  /** The k-th tier has the highest floor that the points reach. */
  predicate Highest(points: int, ladder: seq<Tier>, k: nat) {
    && k < |ladder| && ladder[k].min <= points
    && forall i :: 0 <= i < |ladder| && ladder[i].min <= points ==> ladder[i].min <= ladder[k].min
  }

  predicate Reached(points: int, ladder: seq<Tier>) { exists i :: 0 <= i < |ladder| && ladder[i].min <= points }

  lemma {:induction false} StandingIsLast(points: int, ladder: Ladder)
    ensures var k := Standing(points, ladder);
            && (Reached(points, ladder) ==> ladder[k].min <= points)
            && (!Reached(points, ladder) ==> k == 0)
            && (forall i :: k < i < |ladder| ==> points < ladder[i].min)
  {
    var n := |ladder| - 1;
    if n > 0 && points < ladder[n].min {
      StandingIsLast(points, ladder[..n]);
      if Reached(points, ladder) {
        var i :| 0 <= i < |ladder| && ladder[i].min <= points;
        assert ladder[..n][i].min <= points;
      }
    }
  }

  /** With distinct floors, every balance gets the highest tier it reaches exactly when the ladder ascends. */
  lemma HighestExactly(ladder: Ladder)
    requires Distinct(ladder)
    ensures Ascending(ladder) <==>
            forall points :: Reached(points, ladder) ==> Highest(points, ladder, Standing(points, ladder))
  {
    if Ascending(ladder) {
      forall points | Reached(points, ladder) ensures Highest(points, ladder, Standing(points, ladder)) {
        StandingIsLast(points, ladder);
      }
    } else {
      var i, j :| 0 <= i < j < |ladder| && ladder[i].min >= ladder[j].min;
      var points := ladder[i].min;
      StandingIsLast(points, ladder);
      var k := Standing(points, ladder);
      assert k >= j;
      assert Reached(points, ladder) && !Highest(points, ladder, k);
    }
  }

  /** More points never mean a lower tier. */
  lemma StandingMonotone(p: int, q: int, ladder: Ladder)
    requires p <= q
    ensures Standing(p, ladder) <= Standing(q, ladder)
  {}

  /** A tier holds the balances from its floor up to the next floor, which is how the leaderboard filters. */
  lemma TierRange(points: int, ladder: Ladder, k: nat)
    requires Ascending(ladder) && k < |ladder| && ladder[0].min <= points
    ensures Standing(points, ladder) == k <==>
            ladder[k].min <= points && (k + 1 < |ladder| ==> points < ladder[k + 1].min)
  {}

  function CompletionPct(count: int, target: int): int {
    if target <= 0 then 0
    else if count >= target then 100
    else var rounded := (200 * count + target) / (2 * target); if rounded > 99 then 99 else rounded
  }

  function Distance(a: int, b: int): int { if a <= b then b - a else a - b }

  /**
   Only a target that is met is at 100; short of that the percentage is the nearest one that is not 100,
   the larger one of two as near, so it stays between 0 and 99 and never falls while the count grows.
  */
  lemma PctHonest(count: int, target: int)
    requires count >= 0
    ensures var pct := CompletionPct(count, target);
            && 0 <= pct <= 100
            && (pct == 100 <==> target > 0 && count >= target)
            && (target <= 0 ==> pct == 0)
            && (forall more :: more >= count ==> pct <= CompletionPct(more, target))
            && (0 <= count < target ==> forall p :: p <= 99 ==>
                  && Distance(100 * count, pct * target) <= Distance(100 * count, p * target)
                  && (p > pct ==> Distance(100 * count, pct * target) < Distance(100 * count, p * target)))
  {
    if count < target {
      forall more | more >= count ensures CompletionPct(count, target) <= CompletionPct(more, target) {
        RoundMonotone(count, more, target);
      }
      forall p | p <= 99
        ensures Distance(100 * count, CompletionPct(count, target) * target) <= Distance(100 * count, p * target)
        ensures p > CompletionPct(count, target) ==>
                  Distance(100 * count, CompletionPct(count, target) * target) < Distance(100 * count, p * target)
      {
        RoundNearest(count, target, p);
      }
    }
  }

  datatype Progress = Progress(next: Option<Tier>, remaining: int, pct: int)

  function FindIndex(ladder: seq<Tier>, id: Text): int {
    if ladder == [] then -1 else if ladder[0].id == id then 0
    else var at := FindIndex(ladder[1..], id); if at < 0 then -1 else at + 1
  }

  function NextTierProgress(points: int, ladder: Ladder): Progress {
    var current := ladder[Standing(points, ladder)];
    var idx := FindIndex(ladder, current.id);
    if 0 <= idx + 1 < |ladder| then
      var next := ladder[idx + 1];
      var into := Max(0, points - current.min);
      var remaining := Max(0, next.min - points);
      Progress(Some(next), remaining, CompletionPct(into, next.min - current.min))
    else Progress(None, 0, 100)
  }

  predicate DistinctIds(ladder: seq<Tier>) {
    forall i, j :: 0 <= i < j < |ladder| ==> ladder[i].id != ladder[j].id
  }

  lemma {:induction false} FindsItself(ladder: seq<Tier>, k: nat)
    requires DistinctIds(ladder) && k < |ladder|
    ensures FindIndex(ladder, ladder[k].id) == k
  {
    if k > 0 {
      assert ladder[1..][k - 1] == ladder[k];
      FindsItself(ladder[1..], k - 1);
    }
  }

  /**
   While a tier is left to climb to: it is the first one above the points, what is earned and what remains
   add up to its floor, and the bar is between 0 and 99. The bar is full exactly at the top.
  */
  lemma ProgressHonest(points: int, ladder: Ladder)
    requires Ascending(ladder) && DistinctIds(ladder)
    ensures var k, progress := Standing(points, ladder), NextTierProgress(points, ladder);
            && progress.next == (if k + 1 < |ladder| then Some(ladder[k + 1]) else None)
            && (progress.next.Some? ==>
                  points + progress.remaining == progress.next.value.min && progress.remaining > 0)
            && (progress.next.None? ==> progress.remaining == 0)
            && (progress.pct == 100 <==> progress.next.None?)
            && 0 <= progress.pct <= 100
            && (progress.next.Some? ==>
                  var done, span := points - ladder[k].min, progress.next.value.min - ladder[k].min;
                  forall p :: 0 <= p <= 99 && done >= 0 ==>
                    Distance(100 * done, progress.pct * span) <= Distance(100 * done, p * span))
  {
    StandingIsLast(points, ladder);
    var k := Standing(points, ladder);
    FindsItself(ladder, k);
    if k + 1 < |ladder| {
      PctHonest(Max(0, points - ladder[k].min), ladder[k + 1].min - ladder[k].min);
    }
  }

  /** Within a tier the bar never falls while points grow. */
  lemma ProgressMonotone(p: int, q: int, ladder: Ladder)
    requires Ascending(ladder) && DistinctIds(ladder) && p <= q && Standing(p, ladder) == Standing(q, ladder)
    ensures NextTierProgress(p, ladder).pct <= NextTierProgress(q, ladder).pct
    ensures NextTierProgress(p, ladder).remaining >= NextTierProgress(q, ladder).remaining
  {
    var k := Standing(p, ladder);
    FindsItself(ladder, k);
    hide Standing, FindIndex, CompletionPct;
    if k + 1 < |ladder| {
      var floor, span := ladder[k].min, ladder[k + 1].min - ladder[k].min;
      PctMonotone(Max(0, p - floor), Max(0, q - floor), span);
    }
  }

  lemma PctMonotone(count: int, more: int, target: int)
    requires 0 <= count <= more
    ensures CompletionPct(count, target) <= CompletionPct(more, target)
  {
    PctHonest(count, target);
  }

  lemma RoundMonotone(count: int, more: int, target: int)
    requires 0 <= count <= more && target > 0
    ensures CompletionPct(count, target) <= CompletionPct(more, target)
  {
    Div(200 * count + target, 200 * more + target, 2 * target);
  }

  lemma Div(a: int, b: int, d: int)
    requires a <= b && d > 0
    ensures a / d <= b / d
  {
    var x, y := a / d, b / d;
    assert x * d <= a && b < (y + 1) * d;
    Factor(x, y + 1, d);
  }

  lemma Factor(x: int, y: int, d: int)
    requires d > 0 && x * d < y * d
    ensures x < y
  {}

  lemma Apart(p: int, q: int, d: int)
    requires d > 0
    ensures p < q ==> p * d <= q * d - d
  {
    if p < q {
      AtLeast(q - p, d);
      assert (q - p) * d == q * d - p * d;
    }
  }

  lemma AtLeast(n: int, d: int)
    requires n >= 1 && d > 0
    ensures n * d >= d
  {}

  lemma RoundNearest(count: int, target: int, p: int)
    requires 0 <= count < target && p <= 99
    ensures Distance(100 * count, CompletionPct(count, target) * target) <= Distance(100 * count, p * target)
    ensures p > CompletionPct(count, target) ==>
              Distance(100 * count, CompletionPct(count, target) * target) < Distance(100 * count, p * target)
  {
    var r := (200 * count + target) / (2 * target);
    var pct := CompletionPct(count, target);
    assert (2 * target) * r <= 200 * count + target < (2 * target) * r + 2 * target;
    assert (2 * target) * r == 2 * (r * target);
    Apart(p, pct, target);
    Apart(pct, p, target);
    Apart(pct, r, target);
  }
}
