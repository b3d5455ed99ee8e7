/**
 Several workers over one job table (apps/api/src/services/jobs.ts, apps/api/src/worker.ts), as
 interleaved steps on a common clock. A claim is two steps, the read that picks a row and the guarded
 write that takes it, so other workers and producers can step in between. A run is timely when every
 claim is carried to its outcome, or abandoned, within the time limit of the job's type.
 */
module Workers {
  import opened JsText
  import opened JobQueue
  import opened ClaimPlan

  type WorkerId = nat

  datatype Activity = Idle | Found(id: nat, at: int, lease: int) | Running(id: nat, at: int, lease: int)

  datatype System = System(jobs: seq<Job>, now: int, workers: map<WorkerId, Activity>)

  datatype Step =
    | Tick(d: nat)
    | Find(w: WorkerId, group: nat)
    | Swap(w: WorkerId)
    | Finish(w: WorkerId, ok: bool)
    | Abandon(w: WorkerId) // no outcome reaches the table: the worker died, or a write or re-read was lost
    | Enqueue(kind: JobType, key: nat, maxAttempts: int, due: int)

  /** The claim plan, and how long a job of each type may take from its claim's clock reading to its outcome. */
  datatype Setup = Setup(plan: seq<Group>, limit: JobType -> int)

  /** Every lease under which jobs of type t are claimed outlasts the work on them. */
  predicate Covers(u: Setup, t: JobType) {
    forall g :: 0 <= g < |u.plan| && t in u.plan[g].types ==> 0 <= u.limit(t) < u.plan[g].lease
  }

  function Doing(s: System, w: WorkerId): Activity {
    if w in s.workers then s.workers[w] else Idle
  }

  predicate InTime(u: Setup, s: System, a: Activity, now: int) {
    a.Idle? || (a.id < |s.jobs| && now <= a.at + u.limit(s.jobs[a.id].kind))
  }

  /** `timely` lets time pass only as far as every worker keeps to its limit. */
  ghost predicate Enabled(u: Setup, timely: bool, s: System, step: Step) {
    match step
    case Tick(d) => timely ==> forall w: WorkerId :: InTime(u, s, Doing(s, w), s.now + d)
    case Find(w, group) => Doing(s, w) == Idle && group < |u.plan|
    case Swap(w) => Doing(s, w).Found? && Doing(s, w).id < |s.jobs|
    case Finish(w, _) => Doing(s, w).Running? && Doing(s, w).id < |s.jobs|
    case Abandon(_) => true
    case Enqueue(_, _, _, _) => true
  }

  function Swapped(s: System, w: WorkerId, a: Activity): System
    requires a.Found? && a.id < |s.jobs|
  {
    if Guard(s.jobs[a.id], a.at) then
      System(s.jobs[a.id := Taken(s.jobs[a.id], a.at, a.lease)], s.now, s.workers[w := Running(a.id, a.at, a.lease)])
    else
      s.(workers := s.workers[w := Idle])
  }

  ghost function Next(u: Setup, timely: bool, s: System, step: Step): System
    requires Enabled(u, timely, s, step)
  {
    match step
    case Tick(d) => s.(now := s.now + d)
    case Find(w, group) =>
      var g := u.plan[group];
      match Candidate(s.jobs, g.types, s.now) {
        case None => s
        case Some(id) => s.(workers := s.workers[w := Found(id, s.now, g.lease)])
      }
    case Swap(w) => Swapped(s, w, Doing(s, w))
    case Finish(w, ok) =>
      var id := Doing(s, w).id;
      var j := s.jobs[id];
      System(s.jobs[id := if ok then Completed(j) else FailedAt(j, s.now)], s.now, s.workers[w := Idle])
    case Abandon(w) => s.(workers := s.workers[w := Idle])
    case Enqueue(kind, key, maxAttempts, due) => s.(jobs := Enqueued(s.jobs, kind, key, maxAttempts, due))
  }

  /** Steps that are not enabled do nothing. */
  ghost function Do(u: Setup, timely: bool, s: System, step: Step): System {
    if Enabled(u, timely, s, step) then Next(u, timely, s, step) else s
  }

  ghost function Run(u: Setup, timely: bool, s: System, steps: seq<Step>): System
    decreases |steps|
  {
    if steps == [] then s else Run(u, timely, Do(u, timely, s, steps[0]), steps[1..])
  }

  /** Undisturbed, the read and the guarded write of an idle worker are the one claim of the queue. */
  lemma FindThenSwap(u: Setup, timely: bool, s: System, w: WorkerId, group: nat)
    requires Doing(s, w) == Idle && group < |u.plan|
    ensures var found := Do(u, timely, s, Find(w, group));
            var n := Do(u, timely, found, Swap(w));
            ClaimResult(s.jobs, u.plan[group].types, u.plan[group].lease, s.now, NoFault)
            == (n.jobs, if Doing(n, w).Running? then Claimed(Doing(n, w).id) else Nothing)
  {
  }

  // ---- safety of timely runs, one type at a time ----

  predicate Works(s: System, a: Activity, t: JobType) {
    !a.Idle? && a.id < |s.jobs| && s.jobs[a.id].kind == t
  }

  ghost predicate ActivityOk(u: Setup, s: System, a: Activity, t: JobType) {
    && (a.Idle? || (a.id < |s.jobs| && a.at <= s.now))
    && (Works(s, a, t) ==> u.limit(t) < a.lease && InTime(u, s, a, s.now))
  }

  /** A worker running a job of type t holds its row under a lease that has not run out, and holds it alone. */
  ghost predicate Holds(s: System, a: Activity, t: JobType) {
    a.Running? && Works(s, a, t) ==> s.jobs[a.id].status == Processing && s.jobs[a.id].due == Some(a.at + a.lease)
  }

  predicate Together(s: System, v: WorkerId, w: WorkerId) {
    Doing(s, v).Running? && Doing(s, w).Running? && Doing(s, v).id == Doing(s, w).id
  }

  ghost predicate Exclusive(s: System, t: JobType) {
    forall v: WorkerId, w: WorkerId :: Together(s, v, w) && Works(s, Doing(s, v), t) ==> v == w
  }

  ghost predicate Inv(u: Setup, s: System, t: JobType) {
    && (forall w: WorkerId :: ActivityOk(u, s, Doing(s, w), t))
    && (forall w: WorkerId :: Holds(s, Doing(s, w), t))
    && Exclusive(s, t)
  }

  /** No other claim's guarded write goes through on a row that a worker holds. */
  lemma SwapSpares(u: Setup, s: System, t: JobType, w: WorkerId, v: WorkerId)
    requires Inv(u, s, t) && Doing(s, w).Found? && Doing(s, v).Running? && Doing(s, w).id == Doing(s, v).id
    requires Works(s, Doing(s, v), t)
    ensures !Guard(s.jobs[Doing(s, w).id], Doing(s, w).at)
  {
    assert ActivityOk(u, s, Doing(s, w), t) && ActivityOk(u, s, Doing(s, v), t) && Holds(s, Doing(s, v), t);
  }

  /** A step of one worker keeps the invariant if it leaves alone what the others do and hold. */
  lemma Frame(u: Setup, s: System, n: System, t: JobType, w: WorkerId)
    requires Inv(u, s, t) && n.now == s.now && |s.jobs| <= |n.jobs|
    requires forall i :: 0 <= i < |s.jobs| ==> n.jobs[i].kind == s.jobs[i].kind
    requires forall v: WorkerId :: v != w ==> Doing(n, v) == Doing(s, v)
    requires forall v: WorkerId :: v != w && Doing(s, v).Running? && Works(s, Doing(s, v), t) ==>
               && n.jobs[Doing(s, v).id] == s.jobs[Doing(s, v).id]
               && (Doing(n, w).Running? ==> Doing(s, v).id != Doing(n, w).id)
    requires ActivityOk(u, n, Doing(n, w), t) && Holds(n, Doing(n, w), t)
    ensures Inv(u, n, t)
  {
    forall v: WorkerId ensures ActivityOk(u, n, Doing(n, v), t) && Holds(n, Doing(n, v), t) {
      assert ActivityOk(u, s, Doing(s, v), t) && Holds(s, Doing(s, v), t);
    }
    forall v: WorkerId, x: WorkerId | Together(n, v, x) && Works(n, Doing(n, v), t)
      ensures v == x
    {
      assert ActivityOk(u, s, Doing(s, v), t) && ActivityOk(u, s, Doing(s, x), t);
      assert v != w && x != w ==> Together(s, v, x);
    }
  }

  lemma SwapKeeps(u: Setup, s: System, t: JobType, w: WorkerId)
    requires Inv(u, s, t) && Doing(s, w).Found? && Doing(s, w).id < |s.jobs|
    ensures Inv(u, Swapped(s, w, Doing(s, w)), t)
  {
    var a := Doing(s, w);
    var n := Swapped(s, w, a);
    assert ActivityOk(u, s, a, t);
    forall v: WorkerId | v != w && Doing(s, v).Running? && Works(s, Doing(s, v), t)
      ensures n.jobs[Doing(s, v).id] == s.jobs[Doing(s, v).id]
      ensures Doing(n, w).Running? ==> Doing(s, v).id != Doing(n, w).id
    {
      if Doing(s, v).id == a.id { SwapSpares(u, s, t, w, v); }
    }
    Frame(u, s, n, t, w);
  }

  lemma FinishKeeps(u: Setup, s: System, t: JobType, w: WorkerId, j: Job)
    requires Inv(u, s, t) && Doing(s, w).Running? && Doing(s, w).id < |s.jobs|
    requires j.kind == s.jobs[Doing(s, w).id].kind
    ensures Inv(u, System(s.jobs[Doing(s, w).id := j], s.now, s.workers[w := Idle]), t)
  {
    var n := System(s.jobs[Doing(s, w).id := j], s.now, s.workers[w := Idle]);
    forall v: WorkerId | v != w && Doing(s, v).Running? && Works(s, Doing(s, v), t)
      ensures n.jobs[Doing(s, v).id] == s.jobs[Doing(s, v).id]
    {
      assert !Together(s, v, w);
    }
    Frame(u, s, n, t, w);
  }

  lemma EnqueueKeeps(u: Setup, s: System, t: JobType, kind: JobType, key: nat, maxAttempts: int, due: int)
    requires Inv(u, s, t)
    ensures Inv(u, s.(jobs := Enqueued(s.jobs, kind, key, maxAttempts, due)), t)
  {
    var n := s.(jobs := Enqueued(s.jobs, kind, key, maxAttempts, due));
    forall v: WorkerId
      ensures ActivityOk(u, n, Doing(n, v), t) && Holds(n, Doing(n, v), t)
      ensures Works(n, Doing(n, v), t) <==> Works(s, Doing(s, v), t)
    {
      assert ActivityOk(u, s, Doing(s, v), t) && Holds(s, Doing(s, v), t);
    }
    forall v: WorkerId, w: WorkerId | Together(n, v, w) && Works(n, Doing(n, v), t) ensures v == w {
      assert Together(s, v, w);
    }
  }

  lemma NextKeeps(u: Setup, s: System, t: JobType, step: Step)
    requires Covers(u, t) && Inv(u, s, t) && Enabled(u, true, s, step)
    ensures Inv(u, Next(u, true, s, step), t)
  {
    hide Inv, InTime;
    var n := Next(u, true, s, step);
    match step
    case Tick(d) => TickKeeps(u, s, t, d);
    case Find(w, group) => FindKeeps(u, s, t, w, group);
    case Swap(w) => SwapKeeps(u, s, t, w);
    case Finish(w, ok) => FinishKeeps(u, s, t, w, n.jobs[Doing(s, w).id]);
    case Abandon(w) => IdleKeeps(u, s, t, w);
    case Enqueue(kind, key, maxAttempts, due) => EnqueueKeeps(u, s, t, kind, key, maxAttempts, due);
  }

  lemma TickKeeps(u: Setup, s: System, t: JobType, d: nat)
    requires Inv(u, s, t) && forall w: WorkerId :: InTime(u, s, Doing(s, w), s.now + d)
    ensures Inv(u, s.(now := s.now + d), t)
  {
    var n := s.(now := s.now + d);
    forall w: WorkerId ensures ActivityOk(u, n, Doing(n, w), t) && Holds(n, Doing(n, w), t) {
      assert ActivityOk(u, s, Doing(s, w), t) && Holds(s, Doing(s, w), t) && InTime(u, s, Doing(s, w), n.now);
    }
    forall v: WorkerId, w: WorkerId | Together(n, v, w) && Works(n, Doing(n, v), t) ensures v == w {
      assert Together(s, v, w) && Doing(s, v) == Doing(n, v);
    }
  }

  lemma IdleKeeps(u: Setup, s: System, t: JobType, w: WorkerId)
    requires Inv(u, s, t)
    ensures Inv(u, s.(workers := s.workers[w := Idle]), t)
  {
    Frame(u, s, s.(workers := s.workers[w := Idle]), t, w);
  }

  lemma FindKeeps(u: Setup, s: System, t: JobType, w: WorkerId, group: nat)
    requires Covers(u, t) && Inv(u, s, t) && Enabled(u, true, s, Find(w, group))
    ensures Inv(u, Next(u, true, s, Find(w, group)), t)
  {
    var n := Next(u, true, s, Find(w, group));
    if Candidate(s.jobs, u.plan[group].types, s.now).Some? {
      var a := Doing(n, w);
      assert s.jobs[a.id].kind in u.plan[group].types;
      Frame(u, s, n, t, w);
    }
  }

  /**
   In every timely interleaving of any number of workers, losses and producers, no job of a type whose leases
   outlast its work is handled by two workers at once, whatever the leases of the other types.
   */
  lemma {:induction false} OneWorkerPerJob(u: Setup, s: System, t: JobType, steps: seq<Step>)
    requires Covers(u, t) && Inv(u, s, t)
    ensures Inv(u, Run(u, true, s, steps), t) && Exclusive(Run(u, true, s, steps), t)
    decreases |steps|
  {
    hide Inv, Enabled, Next;
    if steps != [] {
      if Enabled(u, true, s, steps[0]) { NextKeeps(u, s, t, steps[0]); }
      OneWorkerPerJob(u, Do(u, true, s, steps[0]), t, steps[1..]);
    } else {
      InvExclusive(u, s, t);
    }
  }

  lemma InvExclusive(u: Setup, s: System, t: JobType)
    requires Inv(u, s, t)
    ensures Exclusive(s, t)
  {
  }

  ghost predicate AllCovered(u: Setup) {
    forall t: JobType :: Covers(u, t)
  }

  ghost predicate AllInv(u: Setup, s: System) {
    forall t: JobType :: Inv(u, s, t)
  }

  lemma AllKept(u: Setup, s: System, step: Step)
    requires AllCovered(u) && AllInv(u, s) && Enabled(u, true, s, step)
    ensures AllInv(u, Next(u, true, s, step))
  {
    forall t: JobType ensures Inv(u, Next(u, true, s, step), t) { NextKeeps(u, s, t, step); }
  }

  // ---- settled jobs ----

  predicate Settled(j: Job) {
    j.status == Done || j.status == Dead
  }

  /** In a timely run a settled job whose leases outlast its work is never touched until its own key is enqueued. */
  lemma {:induction false} SettledStays(u: Setup, s: System, steps: seq<Step>, i: nat)
    requires i < |s.jobs| && Settled(s.jobs[i]) && Covers(u, s.jobs[i].kind) && Inv(u, s, s.jobs[i].kind)
    requires forall k :: 0 <= k < |steps| && steps[k].Enqueue? ==> steps[k].key != s.jobs[i].key
    ensures i < |Run(u, true, s, steps).jobs| && Run(u, true, s, steps).jobs[i] == s.jobs[i]
    decreases |steps|
  {
    if steps != [] {
      var n := Do(u, true, s, steps[0]);
      if Enabled(u, true, s, steps[0]) {
        NextKeeps(u, s, s.jobs[i].kind, steps[0]);
        if steps[0].Finish? { assert Holds(s, Doing(s, steps[0].w), s.jobs[i].kind); }
      }
      SettledStays(u, n, steps[1..], i);
    }
  }

  predicate Rearms(jobs: seq<Job>, key: nat, i: nat) {
    i < |jobs| && Keyed(jobs, key) == Some(i) && jobs[i].status != Processing
  }

  /** A step that writes row i: a claim that takes it, an outcome, or a re-arm. */
  ghost predicate Touches(u: Setup, timely: bool, s: System, step: Step, i: nat) {
    && Enabled(u, timely, s, step)
    && match step
       case Swap(w) => Doing(s, w).id == i && Guard(s.jobs[i], Doing(s, w).at)
       case Finish(w, _) => Doing(s, w).id == i
       case Enqueue(_, key, _, _) => Rearms(s.jobs, key, i)
       case _ => false
  }

  ghost predicate Untouched(u: Setup, timely: bool, s: System, steps: seq<Step>, i: nat)
    decreases |steps|
  {
    || steps == []
    || (&& !Touches(u, timely, s, steps[0], i)
        && Untouched(u, timely, Do(u, timely, s, steps[0]), steps[1..], i))
  }

  /** The first step that writes row i is an outcome reported by a worker still running it, or a re-arm. */
  ghost predicate Revived(u: Setup, timely: bool, s: System, steps: seq<Step>, i: nat)
    decreases |steps|
  {
    && steps != []
    && if Touches(u, timely, s, steps[0], i) then steps[0].Finish? || steps[0].Enqueue?
       else Revived(u, timely, Do(u, timely, s, steps[0]), steps[1..], i)
  }

  /** In every run, late workers included, a settled job moves only by one of those two. */
  lemma {:induction false} SettledMovesOnly(u: Setup, timely: bool, s: System, steps: seq<Step>, i: nat)
    requires i < |s.jobs| && Settled(s.jobs[i])
    ensures var e := Run(u, timely, s, steps);
            i < |e.jobs| && (e.jobs[i] == s.jobs[i] || Revived(u, timely, s, steps, i))
    decreases |steps|
  {
    RunKeepsRows(u, timely, s, steps);
    if steps != [] && !Touches(u, timely, s, steps[0], i) {
      StepUntouched(u, timely, s, steps[0], i);
      hide Do, Touches, Settled;
      SettledMovesOnly(u, timely, Do(u, timely, s, steps[0]), steps[1..], i);
    }
  }

  lemma StepUntouched(u: Setup, timely: bool, s: System, step: Step, i: nat)
    requires i < |s.jobs| && !Touches(u, timely, s, step, i)
    ensures var n := Do(u, timely, s, step); i < |n.jobs| && n.jobs[i] == s.jobs[i]
  {
  }

  lemma StepKeepsRows(u: Setup, timely: bool, s: System, step: Step)
    ensures var n := Do(u, timely, s, step);
            && |s.jobs| <= |n.jobs| && s.now <= n.now
            && (forall i :: 0 <= i < |s.jobs| ==> n.jobs[i].kind == s.jobs[i].kind && n.jobs[i].key == s.jobs[i].key)
            && (UniqueKeys(s.jobs) ==> UniqueKeys(n.jobs))
  {
  }

  /** In every run: no row goes away or changes its type or key, keys stay unique, and time does not go back. */
  lemma {:induction false} RunKeepsRows(u: Setup, timely: bool, s: System, steps: seq<Step>)
    ensures var e := Run(u, timely, s, steps);
            && |s.jobs| <= |e.jobs| && s.now <= e.now
            && (forall i :: 0 <= i < |s.jobs| ==> e.jobs[i].kind == s.jobs[i].kind && e.jobs[i].key == s.jobs[i].key)
            && (UniqueKeys(s.jobs) ==> UniqueKeys(e.jobs))
    decreases |steps|
  {
    if steps != [] {
      StepKeepsRows(u, timely, s, steps[0]);
      hide Do, UniqueKeys;
      RunKeepsRows(u, timely, Do(u, timely, s, steps[0]), steps[1..]);
    }
  }

  // ---- the retry ledger ----

  function Most(j: Job): nat {
    if j.maxAttempts > 1 then j.maxAttempts else 1
  }

  /** A leased row with no attempt left: to claim it again breaks the promise of bounded retries. */
  predicate UsedUp(j: Job) {
    j.status == Processing && j.attempts >= Most(j)
  }

  /** The claims a job may still see. */
  function Budget(j: Job): nat {
    var left := if Most(j) > j.attempts then Most(j) - j.attempts else 0;
    match j.status
    case Done => 0
    case Dead => 0
    case Pending => if left > 1 then left else 1
    case _ => left
  }

  /** A row that failed has attempts left. */
  predicate FailedHasBudget(jobs: seq<Job>) {
    forall i :: 0 <= i < |jobs| && jobs[i].status == Failed ==> jobs[i].attempts < jobs[i].maxAttempts
  }

  /** The row a step claims. */
  ghost function ClaimedBy(u: Setup, timely: bool, s: System, step: Step): (claimed: Option<nat>)
    ensures claimed.Some? ==> claimed.value < |s.jobs|
  {
    if step.Swap? && Enabled(u, timely, s, step) && Guard(s.jobs[Doing(s, step.w).id], Doing(s, step.w).at)
    then Some(Doing(s, step.w).id) else None
  }

  ghost function Claims(u: Setup, timely: bool, s: System, steps: seq<Step>): nat
    decreases |steps|
  {
    if steps == [] then 0
    else
      (if ClaimedBy(u, timely, s, steps[0]).Some? then 1 else 0)
        + Claims(u, timely, Do(u, timely, s, steps[0]), steps[1..])
  }

  /** Claims of rows that had no attempts left: leases that ran out on the last attempt. */
  ghost function Overruns(u: Setup, timely: bool, s: System, steps: seq<Step>): nat
    decreases |steps|
  {
    if steps == [] then 0
    else
      var c := ClaimedBy(u, timely, s, steps[0]);
      (if c.Some? && UsedUp(s.jobs[c.value]) then 1 else 0)
        + Overruns(u, timely, Do(u, timely, s, steps[0]), steps[1..])
  }

  /** The budget that producers add. */
  ghost function Granted(u: Setup, timely: bool, s: System, steps: seq<Step>): nat
    decreases |steps|
  {
    if steps == [] then 0
    else
      var n := Do(u, timely, s, steps[0]);
      (if steps[0].Enqueue? && Total(Budget, n.jobs) > Total(Budget, s.jobs)
       then Total(Budget, n.jobs) - Total(Budget, s.jobs) else 0)
        + Granted(u, timely, n, steps[1..])
  }

  lemma StepLedger(u: Setup, s: System, step: Step)
    requires AllInv(u, s) && FailedHasBudget(s.jobs) && Enabled(u, true, s, step) && !step.Enqueue?
    ensures var n, c := Next(u, true, s, step), ClaimedBy(u, true, s, step);
            && FailedHasBudget(n.jobs)
            && Total(Budget, n.jobs) + (if c.Some? then 1 else 0)
               <= Total(Budget, s.jobs) + (if c.Some? && UsedUp(s.jobs[c.value]) then 1 else 0)
  {
    var n := Next(u, true, s, step);
    match step
    case Swap(w) =>
      var a := Doing(s, w);
      if Guard(s.jobs[a.id], a.at) {
        TotalUpdate(Budget, s.jobs, a.id, Taken(s.jobs[a.id], a.at, a.lease));
      }
    case Finish(w, ok) =>
      var id := Doing(s, w).id;
      assert Inv(u, s, s.jobs[id].kind) && Holds(s, Doing(s, w), s.jobs[id].kind);
      TotalUpdate(Budget, s.jobs, id, n.jobs[id]);
    case _ =>
  }

  /**
   Over every timely run: claims are paid for by the attempts the jobs started with, the attempts
   producers granted, and the leases that ran out when no attempt was left.
   */
  lemma {:induction false} RetryLedger(u: Setup, s: System, steps: seq<Step>)
    requires AllCovered(u) && AllInv(u, s) && FailedHasBudget(s.jobs)
    ensures Claims(u, true, s, steps) + Total(Budget, Run(u, true, s, steps).jobs)
         <= Total(Budget, s.jobs) + Granted(u, true, s, steps) + Overruns(u, true, s, steps)
    decreases |steps|
  {
    if steps != [] {
      hide AllInv, Next, Enabled, Budget, AllCovered;
      var n := Do(u, true, s, steps[0]);
      if Enabled(u, true, s, steps[0]) {
        AllKept(u, s, steps[0]);
        if steps[0].Enqueue? { EnqueueLedger(u, s, steps[0]); } else { StepLedger(u, s, steps[0]); }
      } else {
        NotClaimed(u, true, s, steps[0]);
      }
      RetryLedger(u, n, steps[1..]);
    }
  }

  lemma EnqueueLedger(u: Setup, s: System, step: Step)
    requires FailedHasBudget(s.jobs) && step.Enqueue? && Enabled(u, true, s, step)
    ensures FailedHasBudget(Next(u, true, s, step).jobs) && ClaimedBy(u, true, s, step) == None
  {
  }

  lemma NotClaimed(u: Setup, timely: bool, s: System, step: Step)
    requires !Enabled(u, timely, s, step)
    ensures ClaimedBy(u, timely, s, step) == None
  {
  }

  // ---- bounded retries ----

  /** The promise of bounded retries, for one row. */
  predicate Bounded(j: Job) {
    match j.status
    case Pending => j.attempts == 0
    case Failed => j.attempts < j.maxAttempts
    case _ => j.attempts <= Most(j)
  }

  /** Every leased row has a worker on it. */
  ghost predicate Attended(s: System) {
    forall i: nat :: i < |s.jobs| && s.jobs[i].status == Processing ==>
      exists w: WorkerId :: Doing(s, w).Running? && Doing(s, w).id == i
  }

  ghost predicate AllBounded(s: System) {
    forall i :: 0 <= i < |s.jobs| ==> Bounded(s.jobs[i])
  }

  lemma StepBounded(u: Setup, timely: bool, s: System, step: Step)
    requires AllBounded(s) && Enabled(u, timely, s, step)
    ensures var c := ClaimedBy(u, timely, s, step);
            AllBounded(Next(u, timely, s, step)) <==> !(c.Some? && UsedUp(s.jobs[c.value]))
  {
    var n, c := Next(u, timely, s, step), ClaimedBy(u, timely, s, step);
    if c.Some? && UsedUp(s.jobs[c.value]) {
      assert !Bounded(n.jobs[c.value]);
    } else {
      forall i | 0 <= i < |n.jobs| ensures Bounded(n.jobs[i]) {
        assert i < |s.jobs| ==> Bounded(s.jobs[i]);
      }
    }
  }

  /** The promise holds in every state of a run. */
  ghost predicate AlwaysBounded(u: Setup, timely: bool, s: System, steps: seq<Step>)
    decreases |steps|
  {
    AllBounded(s) && (steps == [] || AlwaysBounded(u, timely, Do(u, timely, s, steps[0]), steps[1..]))
  }

  /**
   In any run, late workers included, retries are bounded exactly if no lease that ran out on a job's last attempt is
   claimed again.
   */
  lemma {:induction false} RetriesBoundedExactly(u: Setup, timely: bool, s: System, steps: seq<Step>)
    requires AllBounded(s)
    ensures AlwaysBounded(u, timely, s, steps) <==> Overruns(u, timely, s, steps) == 0
    decreases |steps|
  {
    if steps != [] {
      hide Next, Enabled, AllBounded, UsedUp;
      var n := Do(u, timely, s, steps[0]);
      if Enabled(u, timely, s, steps[0]) {
        StepBounded(u, timely, s, steps[0]);
      } else {
        NotClaimed(u, timely, s, steps[0]);
      }
      if AllBounded(n) { RetriesBoundedExactly(u, timely, n, steps[1..]); }
    }
  }

  lemma AttendedKept(u: Setup, s: System, step: Step)
    requires AllInv(u, s) && Attended(s) && AllBounded(s) && Enabled(u, true, s, step) && !step.Abandon?
    ensures Attended(Next(u, true, s, step)) && AllBounded(Next(u, true, s, step))
  {
    var n := Next(u, true, s, step);
    forall i: nat | i < |n.jobs|
      ensures Bounded(n.jobs[i])
      ensures n.jobs[i].status == Processing ==> exists w: WorkerId :: Doing(n, w).Running? && Doing(n, w).id == i
    {
      if i < |s.jobs| && s.jobs[i].status == Processing {
        var v: WorkerId :| Doing(s, v).Running? && Doing(s, v).id == i;
        var t := s.jobs[i].kind;
        assert Inv(u, s, t) && Holds(s, Doing(s, v), t) && ActivityOk(u, s, Doing(s, v), t);
        if step.Swap? && Doing(s, step.w).id == i { SwapSpares(u, s, t, step.w, v); }
        if step.Finish? && Doing(s, step.w).id == i {
          assert Together(s, v, step.w) && step.w == v;
        } else {
          assert Doing(n, v) == Doing(s, v);
        }
      } else if n.jobs[i].status == Processing {
        assert step.Swap? && Doing(n, step.w).Running? && Doing(n, step.w).id == i;
      }
    }
  }

  /** So they are bounded while every claim is carried to an outcome in the table. */
  lemma {:induction false} RetriesBoundedUnlessAbandoned(u: Setup, s: System, steps: seq<Step>)
    requires AllCovered(u) && AllInv(u, s) && Attended(s) && AllBounded(s)
    requires forall k :: 0 <= k < |steps| ==> !steps[k].Abandon?
    ensures AllBounded(Run(u, true, s, steps))
    decreases |steps|
  {
    if steps != [] {
      hide AllInv, Next, Enabled, Attended, AllBounded, AllCovered;
      var n := Do(u, true, s, steps[0]);
      if Enabled(u, true, s, steps[0]) {
        AllKept(u, s, steps[0]);
        AttendedKept(u, s, steps[0]);
      }
      RetriesBoundedUnlessAbandoned(u, n, steps[1..]);
    }
  }

  // ---- where the promises stop ----

  lemma RunMore(u: Setup, timely: bool, s: System, step: Step, rest: seq<Step>)
    ensures Run(u, timely, s, [step] + rest) == Run(u, timely, Do(u, timely, s, step), rest)
  {}

  /** A worker takes the job and leaves no outcome, and the lease runs out; `n` times over. */
  function AbandonLoop(n: nat, lease: nat): seq<Step> {
    if n == 0 then []
    else [Find(1, 0)] + ([Swap(1)] + ([Abandon(1)] + ([Tick(lease)] + AbandonLoop(n - 1, lease))))
  }

  /**
   A reclaim does not look at `maxAttempts`: a job that is abandoned every time is claimed again without end, in
   timely runs and for every limit on attempts.
   */
  lemma {:induction false} RetriesUnboundedWhenAbandoned(u: Setup, s: System, j: Job, lease: nat, n: nat)
    requires u.plan == [Group([j.kind], lease)]
    requires s.jobs == [j] && Due(j, s.now) && forall w: WorkerId :: Doing(s, w) == Idle
    ensures var e := Run(u, true, s, AbandonLoop(n, lease));
            |e.jobs| == 1 && e.jobs[0].attempts == j.attempts + n && e.jobs[0].maxAttempts == j.maxAttempts
    decreases n
  {
    if n > 0 {
      var rest := AbandonLoop(n - 1, lease);
      var taken := Taken(j, s.now, lease);
      var s1 := s.(workers := s.workers[1 := Found(0, s.now, lease)]);
      var s2 := System([taken], s.now, s.workers[1 := Running(0, s.now, lease)]);
      var s3 := System([taken], s.now, s.workers[1 := Idle]);
      var s4 := System([taken], s.now + lease, s.workers[1 := Idle]);
      assert Candidate(s.jobs, u.plan[0].types, s.now) == Some(0);
      assert Do(u, true, s, Find(1, 0)) == s1;
      assert [j][0 := taken] == [taken];
      assert s1.workers[1 := Running(0, s.now, lease)] == s2.workers;
      assert Do(u, true, s1, Swap(1)) == s2;
      assert s2.workers[1 := Idle] == s3.workers;
      assert Do(u, true, s2, Abandon(1)) == s3;
      forall w: WorkerId ensures Doing(s3, w) == Idle && Doing(s4, w) == Idle {
        assert Doing(s, w) == Idle;
      }
      assert Do(u, true, s3, Tick(lease)) == s4;
      RetriesUnboundedWhenAbandoned(u, s4, taken, lease, n - 1);
      hide Do, Run;
      RunMore(u, true, s, Find(1, 0), [Swap(1)] + ([Abandon(1)] + ([Tick(lease)] + rest)));
      RunMore(u, true, s1, Swap(1), [Abandon(1)] + ([Tick(lease)] + rest));
      RunMore(u, true, s2, Abandon(1), [Tick(lease)] + rest);
      RunMore(u, true, s3, Tick(lease), rest);
    }
  }

  /** A worker takes a job; when `d` has passed, another one takes it too. */
  function LateSteps(g: nat, d: nat): seq<Step> {
    [Find(1, g)] + ([Swap(1)] + ([Tick(d)] + ([Find(2, g)] + ([Swap(2)] + []))))
  }

  function TwoHolders(j: Job, lease: int, d: nat): System {
    System([Taken(Taken(j, 0, lease), d, lease)], d, map[1 := Running(0, 0, lease), 2 := Running(0, d, lease)])
  }

  /** As soon as the first worker may outlast its lease, two workers run one job. */
  lemma LateWorkerShares(u: Setup, timely: bool, g: nat, j: Job, d: nat)
    requires g < |u.plan| && j.kind in u.plan[g].types && Due(j, 0) && d >= u.plan[g].lease
    requires timely ==> d <= u.limit(j.kind)
    ensures var e := Run(u, timely, System([j], 0, map[]), LateSteps(g, d));
            e == TwoHolders(j, u.plan[g].lease, d) && !Exclusive(e, j.kind)
  {
    var lease := u.plan[g].lease;
    var s := System([j], 0, map[]);
    var once := Taken(j, 0, lease);
    var twice := Taken(once, d, lease);
    var s1 := System([j], 0, map[1 := Found(0, 0, lease)]);
    var s2 := System([once], 0, map[1 := Running(0, 0, lease)]);
    var s3 := System([once], d, map[1 := Running(0, 0, lease)]);
    var s4 := System([once], d, map[1 := Running(0, 0, lease), 2 := Found(0, d, lease)]);
    var s5 := TwoHolders(j, lease, d);
    assert Do(u, timely, s, Find(1, g)) == s1;
    assert [j][0 := once] == [once] && [once][0 := twice] == [twice];
    assert Do(u, timely, s1, Swap(1)) == s2;
    assert Do(u, timely, s2, Tick(d)) == s3;
    assert Do(u, timely, s3, Find(2, g)) == s4;
    assert Do(u, timely, s4, Swap(2)) == s5;
    assert Together(s5, 1, 2) && Works(s5, Doing(s5, 1), j.kind);
    hide Do, Run;
    RunMore(u, timely, s, Find(1, g), [Swap(1)] + ([Tick(d)] + ([Find(2, g)] + ([Swap(2)] + []))));
    RunMore(u, timely, s1, Swap(1), [Tick(d)] + ([Find(2, g)] + ([Swap(2)] + [])));
    RunMore(u, timely, s2, Tick(d), [Find(2, g)] + ([Swap(2)] + []));
    RunMore(u, timely, s3, Find(2, g), [Swap(2)] + []);
    RunMore(u, timely, s4, Swap(2), []);
    RunEnds(u, timely, s5);
  }

  /** No timely run ever has two workers on a job of type t exactly if every lease of the type outlasts its work. */
  lemma OneWorkerExactly(u: Setup, t: JobType)
    requires 0 <= u.limit(t)
    ensures Covers(u, t) <==> forall jobs, now, steps :: Exclusive(Run(u, true, System(jobs, now, map[]), steps), t)
  {
    if Covers(u, t) {
      forall jobs, now, steps ensures Exclusive(Run(u, true, System(jobs, now, map[]), steps), t) {
        OneWorkerPerJob(u, System(jobs, now, map[]), t, steps);
      }
    } else {
      var g :| 0 <= g < |u.plan| && t in u.plan[g].types && u.limit(t) >= u.plan[g].lease;
      var j := Job(t, 0, Pending, 0, 1, None);
      var d := Max(0, u.plan[g].lease);
      LateWorkerShares(u, true, g, j, d);
      assert !Exclusive(Run(u, true, System([j], 0, map[]), LateSteps(g, d)), t);
    }
  }

  /**
   `complete` and `fail` do not check who holds the row. Once a worker has outlived its lease and a second one has
   taken the job over, the second one's failure turns the job that the first has completed into one that runs again.
   */
  lemma LateWorkerRevivesJob(u: Setup, g: nat, j: Job, d: nat)
    requires g < |u.plan| && j.kind in u.plan[g].types && Due(j, 0) && d >= u.plan[g].lease
    requires j.attempts + 2 < j.maxAttempts
    ensures var shared := Run(u, false, System([j], 0, map[]), LateSteps(g, d));
            var done := Run(u, false, shared, [Finish(1, true)]);
            var end := Run(u, false, done, [Finish(2, false)]);
            |end.jobs| == |done.jobs| == 1 && done.jobs[0].status == Done && end.jobs[0].status == Failed
  {
    LateWorkerShares(u, false, g, j, d);
    var shared := TwoHolders(j, u.plan[g].lease, d);
    var done := Do(u, false, shared, Finish(1, true));
    var end := Do(u, false, done, Finish(2, false));
    assert done.jobs[0].status == Done && end.jobs[0].status == Failed;
    hide Do, LateSteps;
    RunOne(u, false, shared, Finish(1, true));
    RunOne(u, false, done, Finish(2, false));
  }

  lemma RunOne(u: Setup, timely: bool, s: System, step: Step)
    ensures Run(u, timely, s, [step]) == Do(u, timely, s, step)
  {
    assert [step] == [step] + [];
    RunMore(u, timely, s, step, []);
  }

  lemma RunEnds(u: Setup, timely: bool, s: System)
    ensures Run(u, timely, s, []) == s
  {
  }

  // ---- claims before the due time ----

  predicate Early(j: Job, now: int) {
    j.status == Pending && j.due.Some? && now < j.due.value
  }

  /** Some step re-arms row i for later than `now`, and no step after it writes the row. */
  ghost predicate RearmedForLater(u: Setup, timely: bool, s: System, steps: seq<Step>, i: nat, now: int)
    decreases |steps|
  {
    && steps != []
    && var n := Do(u, timely, s, steps[0]);
       || RearmedForLater(u, timely, n, steps[1..], i, now)
       || (&& steps[0].Enqueue? && Rearms(s.jobs, steps[0].key, i) && now < steps[0].due
           && Untouched(u, timely, n, steps[1..], i))
  }

  /** A row is pending and not yet due exactly if it was left so, or was so before and nothing has written it since. */
  lemma {:induction false} EarlyHistory(u: Setup, timely: bool, s: System, steps: seq<Step>, i: nat, now: int)
    requires i < |s.jobs|
    ensures var e := Run(u, timely, s, steps);
            && i < |e.jobs|
            && (Early(e.jobs[i], now) <==>
                  || (Early(s.jobs[i], now) && Untouched(u, timely, s, steps, i))
                  || RearmedForLater(u, timely, s, steps, i, now))
    decreases |steps|
  {
    if steps != [] {
      EarlyStep(u, timely, s, steps[0], i, now);
      hide Do, Touches, Early, Rearms;
      EarlyHistory(u, timely, Do(u, timely, s, steps[0]), steps[1..], i, now);
    }
  }

  lemma EarlyStep(u: Setup, timely: bool, s: System, step: Step, i: nat, now: int)
    requires i < |s.jobs|
    ensures var n := Do(u, timely, s, step);
            && i < |n.jobs|
            && (Early(n.jobs[i], now) <==>
                  || (Early(s.jobs[i], now) && !Touches(u, timely, s, step, i))
                  || (step.Enqueue? && Rearms(s.jobs, step.key, i) && now < step.due))
            && (step.Enqueue? && Rearms(s.jobs, step.key, i) ==> Touches(u, timely, s, step, i))
  {
    if !Touches(u, timely, s, step, i) { StepUntouched(u, timely, s, step, i); }
  }

  /**
   A worker reads a row that is due; then anything happens. Its guarded write takes the row before the row's due
   time exactly if meanwhile the row's key was enqueued again, for a time still to come, and nothing has written
   the row since. Nobody need have handled it in between.
   */
  lemma EarlyClaimExactly(u: Setup, timely: bool, s: System, w: WorkerId, group: nat, steps: seq<Step>)
    requires Enabled(u, timely, s, Find(w, group)) && Doing(Do(u, timely, s, Find(w, group)), w).Found?
    requires var found := Do(u, timely, s, Find(w, group)); Doing(Run(u, timely, found, steps), w) == Doing(found, w)
    ensures var found := Do(u, timely, s, Find(w, group));
            var e, i := Run(u, timely, found, steps), Doing(found, w).id;
            && i < |e.jobs|
            && (ClaimedBy(u, timely, e, Swap(w)) == Some(i) && !Due(e.jobs[i], e.now) <==>
                  RearmedForLater(u, timely, found, steps, i, e.now))
  {
    var found := Do(u, timely, s, Find(w, group));
    var e, a := Run(u, timely, found, steps), Doing(found, w);
    RunKeepsRows(u, timely, found, steps);
    assert a.id < |found.jobs| && Due(found.jobs[a.id], a.at) && a.at == found.now;
    EarlyHistory(u, timely, found, steps, a.id, e.now);
    hide Run, Do, RearmedForLater, Untouched;
    assert Doing(e, w) == a;
  }

  /** It happens in timely runs, here after another worker has handled the job: read, handled, re-armed, taken. */
  lemma RearmedJobRunsEarly(u: Setup, j: Job, lease: nat, later: nat)
    requires u.plan == [Group([j.kind], lease)] && Due(j, 0) && later > 0
    ensures var start := System([j], 0, map[]);
            var before := Run(u, true, start, [Find(1, 0)] + ([Find(2, 0)] + ([Swap(2)] + ([Finish(2, true)]
                            + ([Enqueue(j.kind, j.key, j.maxAttempts, later)] + [])))));
            && before.now == 0 && |before.jobs| == 1
            && before.jobs[0].status == Pending && before.jobs[0].due == Some(later)
            && ClaimedBy(u, true, before, Swap(1)) == Some(0)
  {
    var s := System([j], 0, map[]);
    var taken := Taken(j, 0, lease);
    var ready := Rearmed(Completed(taken), later);
    var found, running := Found(0, 0, lease), Running(0, 0, lease);
    var s1 := System([j], 0, map[1 := found]);
    var s2 := System([j], 0, map[1 := found, 2 := found]);
    var s3 := System([taken], 0, map[1 := found, 2 := running]);
    var s4 := System([Completed(taken)], 0, map[1 := found, 2 := Idle]);
    var s5 := System([ready], 0, map[1 := found, 2 := Idle]);
    assert Do(u, true, s, Find(1, 0)) == s1;
    assert Do(u, true, s1, Find(2, 0)) == s2;
    assert [j][0 := taken] == [taken] && [taken][0 := Completed(taken)] == [Completed(taken)];
    assert [Completed(taken)][0 := ready] == [ready];
    assert Do(u, true, s2, Swap(2)) == s3;
    assert Do(u, true, s3, Finish(2, true)) == s4;
    assert Keyed(s4.jobs, j.key) == Some(0);
    assert Do(u, true, s4, Enqueue(j.kind, j.key, j.maxAttempts, later)) == s5;
    assert ClaimedBy(u, true, s5, Swap(1)) == Some(0);
    hide Do, Run, ClaimedBy;
    var rest := [Enqueue(j.kind, j.key, j.maxAttempts, later)] + [];
    RunMore(u, true, s, Find(1, 0), [Find(2, 0)] + ([Swap(2)] + ([Finish(2, true)] + rest)));
    RunMore(u, true, s1, Find(2, 0), [Swap(2)] + ([Finish(2, true)] + rest));
    RunMore(u, true, s2, Swap(2), [Finish(2, true)] + rest);
    RunMore(u, true, s3, Finish(2, true), rest);
    RunMore(u, true, s4, Enqueue(j.kind, j.key, j.maxAttempts, later), []);
    RunEnds(u, true, s5);
  }
}
