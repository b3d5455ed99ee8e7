/** `runJobQueueLoop` of apps/api/src/worker.ts: one pass over the claim plan, repeated passes, the heartbeat. */
module DrainLoop {
  import opened JsText
  import opened JobQueue
  import opened ClaimPlan

  datatype Handled = Returned | Raised

  /** What the outside decides during one pass: clocks, the handler's outcome, and database errors. */
  datatype Env = Env(
    clock: nat -> int,
    claimFault: nat -> ClaimFault,
    handler: (nat, Job) -> Handled,
    completeLost: bool,
    failReadThrows: bool,
    failLost: bool,
    failClock: int)

  datatype Work = Work(id: nat, group: nat, handled: Handled)

  /** `drained` and `tickError` are the loop's flag and its outer catch. */
  datatype Pass = Pass(jobs: seq<Job>, drained: bool, work: Option<Work>, tickError: bool)

  function Settle(jobs: seq<Job>, id: nat, handled: Handled, env: Env): (seq<Job>, bool)
    requires id < |jobs|
  {
    match handled
    case Returned => (if env.completeLost then jobs else jobs[id := Completed(jobs[id])], false)
    case Raised =>
      if env.failReadThrows then (jobs, true)
      else (if env.failLost then jobs else jobs[id := FailedAt(jobs[id], env.failClock)], false)
  }

  function PassFrom(jobs: seq<Job>, plan: seq<Group>, k: nat, env: Env): Pass
    requires k <= |plan|
    decreases |plan| - k
  {
    if k == |plan| then Pass(jobs, false, None, false)
    else
      var (claimed, claim) := ClaimResult(jobs, plan[k].types, plan[k].lease, env.clock(k), env.claimFault(k));
      match claim
      case Threw => Pass(claimed, false, None, true)
      case Nothing => PassFrom(claimed, plan, k + 1, env)
      case Claimed(id) =>
        var handled := env.handler(id, claimed[id]);
        var (settled, tickError) := Settle(claimed, id, handled, env);
        Pass(settled, true, Some(Work(id, k, handled)), tickError)
  }

  method RunPass(queue: Queue, plan: seq<Group>, env: Env) returns (drained: bool, work: Option<Work>, tickError: bool)
    modifies queue
    ensures Pass(queue.jobs, drained, work, tickError) == PassFrom(old(queue.jobs), plan, 0, env)
  {
    drained, work, tickError := false, None, false;
    var k := 0;
    while k < |plan|
      invariant k <= |plan| && !drained && work == None && !tickError
      invariant PassFrom(queue.jobs, plan, k, env) == PassFrom(old(queue.jobs), plan, 0, env)
    {
      var claim := queue.Claim(plan[k].types, plan[k].lease, env.clock(k), env.claimFault(k));
      match claim {
        case Threw => return false, None, true;
        case Nothing => k := k + 1;
        case Claimed(id) =>
          drained := true;
          var handled := env.handler(id, queue.jobs[id]);
          match handled {
            case Returned => queue.Complete(id, env.completeLost);
            case Raised =>
              if env.failReadThrows { return true, Some(Work(id, k, handled)), true; }
              queue.Fail(id, env.failClock, env.failLost);
          }
          return true, Some(Work(id, k, handled)), false;
      }
    }
  }

  // ---- what one pass can do ----

  predicate Disjoint(plan: seq<Group>) {
    forall i, j, t :: 0 <= i < j < |plan| && t in plan[i].types ==> t !in plan[j].types
  }

  lemma PlanIsDisjoint(table: seq<Entry>)
    requires IsTable(table)
    ensures Disjoint(Plan(table))
  {
    var plan := Plan(table);
    forall i, j, t | 0 <= i < j < |plan| && t in plan[i].types ensures t !in plan[j].types {
      if t in plan[j].types { OneGroupPerType(table, t, i, j); }
    }
  }

  /**
   The fate of one job in one pass: untouched; leased, waiting for its lease to run out; done, and then
   its handler has returned; or parked by `fail`, and then its handler has thrown.
   */
  ghost predicate Fate(before: Job, after: Job, id: nat, plan: seq<Group>, env: Env, pass: Pass) {
    || after == before
    || exists k: nat ::
         && k < |plan| && before.kind in plan[k].types && Due(before, env.clock(k))
         && var taken := Taken(before, env.clock(k), plan[k].lease);
            || after == taken
            || (pass.work == Some(Work(id, k, Returned)) && after == Completed(taken))
            || (pass.work == Some(Work(id, k, Raised)) && after == FailedAt(taken, env.failClock))
  }

  /** Over the plan of any lease table: no job is lost or changed beyond its fate, under every pattern of errors. */
  lemma PassFates(jobs: seq<Job>, table: seq<Entry>, env: Env)
    requires IsTable(table)
    ensures var plan := Plan(table);
            var pass := PassFrom(jobs, plan, 0, env);
            && |pass.jobs| == |jobs|
            && (forall id: nat :: id < |jobs| ==> Fate(jobs[id], pass.jobs[id], id, plan, env, pass))
            && (pass.work.Some? ==> pass.work.value.id < |jobs|)
            && (pass.drained <==> pass.work.Some?)
  {
    PlanIsDisjoint(table);
    FatesFrom(jobs, Plan(table), 0, env);
  }

  lemma {:induction false} FatesFrom(jobs: seq<Job>, plan: seq<Group>, k: nat, env: Env)
    requires k <= |plan| && Disjoint(plan)
    ensures var pass := PassFrom(jobs, plan, k, env);
            && |pass.jobs| == |jobs|
            && (forall id: nat :: id < |jobs| ==> Fate(jobs[id], pass.jobs[id], id, plan, env, pass))
            && (forall id: nat, g: nat :: id < |jobs| && g < k && jobs[id].kind in plan[g].types ==>
                  pass.jobs[id] == jobs[id])
            && (pass.work.Some? ==> pass.work.value.id < |jobs|)
            && (pass.drained <==> pass.work.Some?)
    decreases |plan| - k
  {
    hide Taken, Completed, FailedAt, Due, Disjoint, ClaimResult, Candidate;
    if k < |plan| {
      KindsApart(plan, k);
      ClaimEffect(jobs, plan[k].types, plan[k].lease, env.clock(k), env.claimFault(k));
      var (claimed, claim) := ClaimResult(jobs, plan[k].types, plan[k].lease, env.clock(k), env.claimFault(k));
      var pass := PassFrom(jobs, plan, k, env);
      match claim
      case Threw =>
      case Nothing =>
        FatesFrom(claimed, plan, k + 1, env);
        forall id: nat | id < |jobs| ensures Fate(jobs[id], pass.jobs[id], id, plan, env, pass) {
          if claimed[id] != jobs[id] { assert pass.jobs[id] == claimed[id]; }
        }
      case Claimed(w) =>
        assert forall id: nat :: id < |jobs| && id != w ==> pass.jobs[id] == jobs[id];
    }
  }

  /** What becomes of a claimed row once its handler has returned or thrown. */
  ghost predicate Outcome(claimed: Job, row: Job, handled: Handled, env: Env) {
    && SameRow(row, claimed)
    && match handled
       case Returned => if env.completeLost then row == claimed else row.status == Done
       case Raised =>
         if env.failReadThrows || env.failLost then row == claimed
         else if claimed.attempts >= claimed.maxAttempts then row.status == Dead
         else
           && row.status == Failed && row.due.Some?
           && 10_000 <= row.due.value - env.failClock <= 3_600_000 && Waiting(row, row.due.value)
  }

  /**
   The work of a pass: the handler gets the row as it was claimed, under its group's lease and with one more
   attempt; a job whose handler has returned is done, and one whose handler has thrown has failed, unless the
   write was lost; only a failing read in `fail` breaks the tick.
  */
  ghost predicate Handles(jobs: seq<Job>, plan: seq<Group>, from: nat, env: Env, pass: Pass) {
    match pass.work
    case None => true
    case Some(w) =>
      && from <= w.group < |plan| && w.id < |jobs| == |pass.jobs| && jobs[w.id].kind in plan[w.group].types
      && var claimed := jobs[w.id].(status := Processing, attempts := jobs[w.id].attempts + 1,
                                    due := Some(env.clock(w.group) + plan[w.group].lease));
      && w.handled == env.handler(w.id, claimed)
      && Outcome(claimed, pass.jobs[w.id], w.handled, env)
      && (pass.tickError <==> w.handled == Raised && env.failReadThrows)
  }

  lemma PassOutcome(jobs: seq<Job>, table: seq<Entry>, env: Env)
    requires IsTable(table)
    ensures Handles(jobs, Plan(table), 0, env, PassFrom(jobs, Plan(table), 0, env))
  {
    PlanIsDisjoint(table);
    HandlesFrom(jobs, Plan(table), 0, env);
  }

  lemma {:induction false} HandlesFrom(jobs: seq<Job>, plan: seq<Group>, k: nat, env: Env)
    requires k <= |plan| && Disjoint(plan)
    ensures Handles(jobs, plan, k, env, PassFrom(jobs, plan, k, env))
    decreases |plan| - k
  {
    hide Outcome, Settle, ClaimResult, Disjoint, Due;
    if k < |plan| {
      var (claimed, claim) := ClaimResult(jobs, plan[k].types, plan[k].lease, env.clock(k), env.claimFault(k));
      ClaimEffect(jobs, plan[k].types, plan[k].lease, env.clock(k), env.claimFault(k));
      match claim
      case Threw =>
      case Nothing =>
        HandlesFrom(claimed, plan, k + 1, env);
        var work := PassFrom(claimed, plan, k + 1, env).work;
        if work.Some? { KindsApart(plan, work.value.group); }
      case Claimed(id) => SettleOutcome(claimed, id, env.handler(id, claimed[id]), env);
    }
  }

  lemma SettleOutcome(jobs: seq<Job>, id: nat, handled: Handled, env: Env)
    requires id < |jobs|
    ensures var (settled, tickError) := Settle(jobs, id, handled, env);
            && |settled| == |jobs| && Outcome(jobs[id], settled[id], handled, env)
            && (tickError <==> handled == Raised && env.failReadThrows)
  {
    FailedAtMeans(jobs[id], env.failClock);
    hide Waiting, Unclaimable, Backoff;
  }

  lemma KindsApart(plan: seq<Group>, k: nat)
    requires Disjoint(plan) && k < |plan|
    ensures forall g: nat, t :: g < k && t in plan[g].types ==> t !in plan[k].types
  {}

  /** A claim leaves every row as it was, but for the one it takes. */
  lemma ClaimEffect(jobs: seq<Job>, types: seq<JobType>, lease: int, now: int, fault: ClaimFault)
    ensures var (after, claim) := ClaimResult(jobs, types, lease, now, fault);
            && |after| == |jobs|
            && (forall i :: 0 <= i < |jobs| && after[i] != jobs[i] ==>
                  && jobs[i].kind in types && Due(jobs[i], now)
                  && after[i] == Taken(jobs[i], now, lease) && after[i].kind == jobs[i].kind)
            && (claim.Threw? ==> after == jobs)
            && (claim.Claimed? ==>
                  && claim.id < |jobs| && jobs[claim.id].kind in types && Due(jobs[claim.id], now)
                  && after == jobs[claim.id := Taken(jobs[claim.id], now, lease)])
  {
  }

  ghost predicate Faultless(env: Env) {
    (forall k :: env.claimFault(k) == NoFault) && !env.completeLost && !env.failReadThrows && !env.failLost
  }

  /** A group that a pass goes past: none of its jobs is due, or the write or the re-read of the claim failed. */
  predicate PassedOver(jobs: seq<Job>, g: Group, now: int, fault: ClaimFault) {
    match fault
    case FindThrows => false
    case NoFault => Candidate(jobs, g.types, now) == None
    case _ => true
  }

  predicate AllPassedOver(jobs: seq<Job>, plan: seq<Group>, from: nat, to: nat, env: Env)
    requires to <= |plan|
  {
    forall k :: from <= k < to ==> PassedOver(jobs, plan[k], env.clock(k), env.claimFault(k))
  }

  /** Where a pass over the groups from `from` on ends, seen from the table it began with. */
  ghost predicate Ends(jobs: seq<Job>, plan: seq<Group>, from: nat, env: Env, pass: Pass) {
    match pass.work
    case Some(w) =>
      && from <= w.group < |plan| && env.claimFault(w.group) == NoFault
      && Candidate(jobs, plan[w.group].types, env.clock(w.group)) == Some(w.id)
      && AllPassedOver(jobs, plan, from, w.group, env)
    case None =>
      if pass.tickError
      then
        exists k: nat ::
          from <= k < |plan| && env.claimFault(k) == FindThrows && AllPassedOver(jobs, plan, from, k, env)
      else from <= |plan| && AllPassedOver(jobs, plan, from, |plan|, env)
  }

  /**
   First refusal, under every pattern of errors: the job handled is the oldest due one of the first group whose
   claim goes through; a pass that handles none has gone past every group, or was ended by a failing search.
  */
  lemma PassPriority(jobs: seq<Job>, table: seq<Entry>, env: Env)
    requires IsTable(table)
    ensures Ends(jobs, Plan(table), 0, env, PassFrom(jobs, Plan(table), 0, env))
  {
    PlanIsDisjoint(table);
    EndsFrom(jobs, Plan(table), 0, env);
  }

  lemma {:induction false} EndsFrom(jobs: seq<Job>, plan: seq<Group>, k: nat, env: Env)
    requires k <= |plan| && Disjoint(plan)
    ensures Ends(jobs, plan, k, env, PassFrom(jobs, plan, k, env))
    decreases |plan| - k
  {
    hide Candidate, Disjoint;
    if k < |plan| {
      var now, fault := env.clock(k), env.claimFault(k);
      var (claimed, claim) := ClaimResult(jobs, plan[k].types, plan[k].lease, now, fault);
      if claim == Nothing {
        EndsFrom(claimed, plan, k + 1, env);
        LaterGroups(jobs, plan, k, now, fault);
        EndsLater(jobs, claimed, plan, k, env, PassFrom(claimed, plan, k + 1, env));
      }
    }
  }

  /** What a fruitless claim of one group leaves is the same to every later group. */
  lemma LaterGroups(jobs: seq<Job>, plan: seq<Group>, k: nat, now: int, fault: ClaimFault)
    requires Disjoint(plan) && k < |plan|
    ensures var after := ClaimResult(jobs, plan[k].types, plan[k].lease, now, fault).0;
            forall g, t :: k < g < |plan| ==> Candidate(after, plan[g].types, t) == Candidate(jobs, plan[g].types, t)
  {
    var candidate := Candidate(jobs, plan[k].types, now);
    if candidate.Some? {
      var i := candidate.value;
      var taken := Taken(jobs[i], now, plan[k].lease);
      assert jobs[i].kind in plan[k].types;
      forall g, t | k < g < |plan|
        ensures Candidate(jobs[i := taken], plan[g].types, t) == Candidate(jobs, plan[g].types, t)
      {
        CandidateElsewhere(jobs, i, taken, plan[g].types, t);
      }
    }
  }

  lemma EndsLater(jobs: seq<Job>, claimed: seq<Job>, plan: seq<Group>, k: nat, env: Env, pass: Pass)
    requires k < |plan| && Ends(claimed, plan, k + 1, env, pass)
    requires forall g, t :: k < g < |plan| ==> Candidate(claimed, plan[g].types, t) == Candidate(jobs, plan[g].types, t)
    requires PassedOver(jobs, plan[k], env.clock(k), env.claimFault(k))
    ensures Ends(jobs, plan, k, env, pass)
  {
    hide Candidate;
    assert forall to: nat :: to <= |plan| && AllPassedOver(claimed, plan, k + 1, to, env) ==>
        AllPassedOver(jobs, plan, k, to, env);
  }

  // ---- draining ----

  /** How many more passes a job can take up. */
  function Effort(j: Job): nat {
    if j.status == Done || j.status == Dead then 0
    else 1 + if j.maxAttempts > j.attempts then j.maxAttempts - j.attempts else 0
  }

  predicate NothingDue(jobs: seq<Job>, plan: seq<Group>, from: nat, env: Env) {
    forall k :: from <= k < |plan| ==> Candidate(jobs, plan[k].types, env.clock(k)) == None
  }

  /** A pass without database errors either finds nothing due or uses up some of the remaining effort. */
  lemma PassProgress(jobs: seq<Job>, plan: seq<Group>, env: Env)
    requires Faultless(env)
    ensures var pass := PassFrom(jobs, plan, 0, env);
            && (pass.drained ==> Total(Effort, pass.jobs) < Total(Effort, jobs))
            && (!pass.drained ==> pass.jobs == jobs && pass.work == None && NothingDue(jobs, plan, 0, env))
  {
    ProgressFrom(jobs, plan, 0, env);
  }

  lemma {:induction false} ProgressFrom(jobs: seq<Job>, plan: seq<Group>, k: nat, env: Env)
    requires k <= |plan| && Faultless(env)
    ensures var pass := PassFrom(jobs, plan, k, env);
            && (pass.drained ==> Total(Effort, pass.jobs) < Total(Effort, jobs))
            && (!pass.drained ==> pass.jobs == jobs && pass.work == None && NothingDue(jobs, plan, k, env))
    decreases |plan| - k
  {
    if k < |plan| {
      match Candidate(jobs, plan[k].types, env.clock(k))
      case None => ProgressFrom(jobs, plan, k + 1, env);
      case Some(id) =>
        var taken := Taken(jobs[id], env.clock(k), plan[k].lease);
        var after := if env.handler(id, taken) == Returned then Completed(taken) else FailedAt(taken, env.failClock);
        assert PassFrom(jobs, plan, k, env).jobs == jobs[id := after];
        TotalUpdate(Effort, jobs, id, after);
    }
  }

  /** With nothing enqueued meanwhile, the loop stops draining after at most `Total(Effort)` busy passes. */
  method DrainBurst(queue: Queue, plan: seq<Group>, envs: nat -> Env) returns (passes: nat)
    requires forall i :: Faultless(envs(i))
    modifies queue
    ensures passes <= Total(Effort, old(queue.jobs))
    ensures NothingDue(queue.jobs, plan, 0, envs(passes))
  {
    passes := 0;
    while true
      invariant passes + Total(Effort, queue.jobs) <= Total(Effort, old(queue.jobs))
      decreases Total(Effort, queue.jobs)
    {
      PassProgress(queue.jobs, plan, envs(passes));
      var drained, _, _ := RunPass(queue, plan, envs(passes));
      if !drained { return; }
      passes := passes + 1;
    }
  }

  // ---- heartbeat ----

  const HEARTBEAT_MIN_INTERVAL_MS := 40_000

  /** The end of a turn: the clock at the throttle, the clock after the write, and whether the write was lost. */
  datatype TurnEnd = TurnEnd(clock: int, after: int, lost: bool)

  /** `last` is the loop's own variable, `stored` the row the watchdog reads, `lostInRow` the writes lost since then. */
  datatype Beats = Beats(last: int, stored: int, lostInRow: nat)

  function Beat(b: Beats, end: TurnEnd): Beats {
    if end.clock - b.last < HEARTBEAT_MIN_INTERVAL_MS then b
    else if end.lost then Beats(end.after, b.stored, b.lostInRow + 1)
    else Beats(end.after, end.clock, 0)
  }

  function BeatsAfter(b: Beats, ends: seq<TurnEnd>): Beats {
    if ends == [] then b else Beat(BeatsAfter(b, ends[..|ends| - 1]), ends[|ends| - 1])
  }

  function JobsAfter(jobs: seq<Job>, plan: seq<Group>, envs: seq<Env>): seq<Job> {
    if envs == [] then jobs else PassFrom(JobsAfter(jobs, plan, envs[..|envs| - 1]), plan, 0, envs[|envs| - 1]).jobs
  }

  class Worker {
    const queue: Queue
    var lastHeartbeatAt: int
    var storedHeartbeatAt: int
    var lostInRow: nat

    constructor (queue: Queue, storedHeartbeatAt: int)
      ensures this.queue == queue && BeatsNow() == Beats(0, storedHeartbeatAt, 0)
    {
      this.queue, lastHeartbeatAt := queue, 0;
      this.storedHeartbeatAt, lostInRow := storedHeartbeatAt, 0;
    }

    function BeatsNow(): Beats
      reads this
    {
      Beats(lastHeartbeatAt, storedHeartbeatAt, lostInRow)
    }

    /** One turn of the loop. The heartbeat depends on the clock only: a tick that failed writes it too. */
    method Turn(plan: seq<Group>, env: Env, end: TurnEnd) returns (pass: Pass, wrote: bool)
      modifies this, queue
      ensures pass == PassFrom(old(queue.jobs), plan, 0, env) && queue.jobs == pass.jobs
      ensures wrote <==> end.clock - old(lastHeartbeatAt) >= HEARTBEAT_MIN_INTERVAL_MS
      ensures lastHeartbeatAt == if wrote then end.after else old(lastHeartbeatAt)
      ensures storedHeartbeatAt == if wrote && !end.lost then end.clock else old(storedHeartbeatAt)
      ensures BeatsNow() == Beat(old(BeatsNow()), end)
    {
      var drained, work, tickError := RunPass(queue, plan, env);
      pass := Pass(queue.jobs, drained, work, tickError);
      wrote := end.clock - lastHeartbeatAt >= HEARTBEAT_MIN_INTERVAL_MS;
      if wrote {
        if end.lost {
          lostInRow := lostInRow + 1;
        } else {
          storedHeartbeatAt, lostInRow := end.clock, 0;
        }
        lastHeartbeatAt := end.after;
      }
    }

    /** The endless loop, up to any turn. */
    method Turns(plan: seq<Group>, envs: seq<Env>, ends: seq<TurnEnd>)
      requires |envs| == |ends|
      modifies this, queue
      ensures queue.jobs == JobsAfter(old(queue.jobs), plan, envs)
      ensures BeatsNow() == BeatsAfter(old(BeatsNow()), ends)
    {
      for i := 0 to |ends|
        invariant queue.jobs == JobsAfter(old(queue.jobs), plan, envs[..i])
        invariant BeatsNow() == BeatsAfter(old(BeatsNow()), ends[..i])
      {
        assert envs[..i + 1][..i] == envs[..i] && ends[..i + 1][..i] == ends[..i];
        var _, _ := Turn(plan, envs[i], ends[i]);
      }
      assert envs[..|envs|] == envs && ends[..|ends|] == ends;
    }
  }

  /** Turns end no later than `longest` after each other, and no write of a heartbeat takes longer than `writing`. */
  predicate Paced(ends: seq<TurnEnd>, longest: int, writing: int) {
    && (forall i :: 0 < i < |ends| ==> ends[i].clock - ends[i - 1].clock <= longest)
    && (forall i :: 0 <= i < |ends| ==> 0 <= ends[i].after - ends[i].clock <= writing)
  }

  /** Lost writes and one more throttle, each with a turn and a write. */
  function AgeBound(lostInRow: nat, longest: int, writing: int): int {
    (lostInRow + 1) * (HEARTBEAT_MIN_INTERVAL_MS + longest + writing)
  }

  /** Turn k writes the heartbeat, and the write is not lost. */
  predicate Stores(b: Beats, ends: seq<TurnEnd>, k: nat)
    requires k < |ends|
  {
    ends[k].clock - BeatsAfter(b, ends[..k]).last >= HEARTBEAT_MIN_INTERVAL_MS && !ends[k].lost
  }

  /**
   Over every run of the loop, from any state it starts in: once one write has not been lost, the stored heartbeat
   is never again older than one throttle, turn and write for each write lost in a row and one more.
  */
  lemma HeartbeatAge(b: Beats, ends: seq<TurnEnd>, k: nat, n: nat, longest: int, writing: int)
    requires k < n < |ends| && Paced(ends, longest, writing) && Stores(b, ends, k)
    ensures var before := BeatsAfter(b, ends[..n]);
            ends[n].clock - before.stored < AgeBound(before.lostInRow, longest, writing)
  {
    assert ends[n].clock - ends[n - 1].clock <= longest;
    hide AgeBound, BeatsAfter;
    BeatsKept(b, ends, k, n, longest, writing);
  }

  /** A new worker's first turn with the clock past the throttle stores a heartbeat, if the write is not lost. */
  lemma FirstTurnStores(stored: int, ends: seq<TurnEnd>, k: nat)
    requires k < |ends| && forall i :: 0 <= i < k ==> ends[i].clock < HEARTBEAT_MIN_INTERVAL_MS
    ensures Stores(Beats(0, stored, 0), ends, k) <==> ends[k].clock >= HEARTBEAT_MIN_INTERVAL_MS && !ends[k].lost
  {
    QuietBefore(stored, ends, k);
  }

  lemma {:induction false} QuietBefore(stored: int, ends: seq<TurnEnd>, k: nat)
    requires k <= |ends| && forall i :: 0 <= i < k ==> ends[i].clock < HEARTBEAT_MIN_INTERVAL_MS
    ensures BeatsAfter(Beats(0, stored, 0), ends[..k]) == Beats(0, stored, 0)
  {
    if k > 0 {
      QuietBefore(stored, ends, k - 1);
      assert ends[..k][..k - 1] == ends[..k - 1];
    }
  }

  /** After every turn: the throttle has not run out, and `last` is not far past `stored`. */
  predicate BeatOk(b: Beats, at: int, longest: int, writing: int) {
    && at - b.last < HEARTBEAT_MIN_INTERVAL_MS
    && b.last - b.stored <= AgeBound(b.lostInRow, longest, writing) - HEARTBEAT_MIN_INTERVAL_MS - longest
  }

  lemma AgeBounds(lostInRow: nat, longest: int, writing: int)
    ensures AgeBound(0, longest, writing) == HEARTBEAT_MIN_INTERVAL_MS + longest + writing
    ensures AgeBound(lostInRow + 1, longest, writing)
         == AgeBound(lostInRow, longest, writing) + AgeBound(0, longest, writing)
  {
  }

  lemma BeatKeeps(b: Beats, at: int, end: TurnEnd, longest: int, writing: int)
    requires BeatOk(b, at, longest, writing) && end.clock - at <= longest && 0 <= end.after - end.clock <= writing
    ensures BeatOk(Beat(b, end), end.clock, longest, writing)
  {
    AgeBounds(b.lostInRow, longest, writing);
    hide AgeBound;
  }

  lemma BeatStarts(b: Beats, end: TurnEnd, longest: int, writing: int)
    requires end.clock - b.last >= HEARTBEAT_MIN_INTERVAL_MS && !end.lost && 0 <= end.after - end.clock <= writing
    ensures BeatOk(Beat(b, end), end.clock, longest, writing)
  {
    AgeBounds(0, longest, writing);
    hide AgeBound;
  }

  lemma {:induction false} BeatsKept(b: Beats, ends: seq<TurnEnd>, k: nat, n: nat, longest: int, writing: int)
    requires k < n <= |ends| && Paced(ends, longest, writing) && Stores(b, ends, k)
    ensures BeatOk(BeatsAfter(b, ends[..n]), ends[n - 1].clock, longest, writing)
  {
    assert ends[..n][..n - 1] == ends[..n - 1];
    if n == k + 1 {
      BeatStarts(BeatsAfter(b, ends[..k]), ends[k], longest, writing);
    } else {
      BeatsKept(b, ends, k, n - 1, longest, writing);
      assert ends[n - 1].clock - ends[n - 2].clock <= longest;
      hide BeatOk, Beat;
      BeatKeeps(BeatsAfter(b, ends[..n - 1]), ends[n - 2].clock, ends[n - 1], longest, writing);
    }
  }
}
