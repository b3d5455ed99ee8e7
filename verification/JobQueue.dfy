/**
 The job table of apps/api/src/services/jobs.ts: enqueue, claim, complete and fail. A job's id is its
 place in `jobs`, which lists the rows in creation order.
 */
module JobQueue {
  import opened JsText

  type JobType = string

  datatype Status = Pending | Processing | Failed | Dead | Done

  /** `due` is `nextAttemptAt`: when the row may be claimed, or when its lease runs out. */
  datatype Job = Job(kind: JobType, key: nat, status: Status, attempts: nat, maxAttempts: int, due: Option<int>)

  predicate Reached(due: Option<int>, now: int) {
    due.Some? && due.value <= now
  }

  /** The rows `claim` looks for. */
  predicate Due(j: Job, now: int) {
    match j.status
    case Pending => j.due == None || Reached(j.due, now)
    case Failed => Reached(j.due, now)
    case Processing => Reached(j.due, now)
    case _ => false
  }

  /** The rows the claim's guarded write accepts; a pending row is not asked whether it is due. */
  predicate Guard(j: Job, now: int) {
    match j.status
    case Pending => true
    case Failed => Reached(j.due, now)
    case Processing => Reached(j.due, now)
    case _ => false
  }

  predicate Wanted(j: Job, types: seq<JobType>, now: int) {
    j.kind in types && Due(j, now)
  }

  /** The oldest row that is wanted. */
  function Candidate(jobs: seq<Job>, types: seq<JobType>, now: int): (r: Option<nat>)
    ensures r.Some? ==> r.value < |jobs| && Wanted(jobs[r.value], types, now)
    ensures r.Some? ==> forall i :: 0 <= i < r.value ==> !Wanted(jobs[i], types, now)
    ensures r.None? ==> forall i :: 0 <= i < |jobs| ==> !Wanted(jobs[i], types, now)
  {
    if jobs == [] then None
    else if Wanted(jobs[0], types, now) then Some(0)
    else match Candidate(jobs[1..], types, now)
      case None => None
      case Some(i) => Some(i + 1)
  }

  /** Rows of other types do not matter to a claim. */
  lemma {:induction false} CandidateElsewhere(jobs: seq<Job>, i: nat, j: Job, types: seq<JobType>, now: int)
    requires i < |jobs| && jobs[i].kind !in types && j.kind !in types
    ensures Candidate(jobs[i := j], types, now) == Candidate(jobs, types, now)
  {
    if i == 0 {
      assert jobs[i := j][1..] == jobs[1..];
    } else {
      CandidateElsewhere(jobs[1..], i - 1, j, types, now);
      assert jobs[i := j][1..] == jobs[1..][i - 1 := j];
    }
  }

  function Taken(j: Job, now: int, lease: int): Job {
    j.(status := Processing, attempts := j.attempts + 1, due := Some(now + lease))
  }

  function Pow2(n: nat): nat {
    if n == 0 then 1 else 2 * Pow2(n - 1)
  }

  /** Ten seconds doubled per attempt, at most an hour. */
  function Backoff(attempts: nat): int {
    var s := Pow2(attempts) * 10;
    (if s < 3600 then s else 3600) * 1000
  }

  /** The delay starts at ten seconds and doubles until it is an hour. */
  lemma {:induction false} BackoffDoubles(attempts: nat)
    ensures 10_000 <= Backoff(attempts) <= 3_600_000
    ensures Backoff(0) == 10_000
    ensures Backoff(attempts + 1) == Min(2 * Backoff(attempts), 3_600_000)
  {
    PowPositive(attempts);
  }

  lemma {:induction false} PowPositive(n: nat)
    ensures Pow2(n) >= 1
  {
    if n > 0 { PowPositive(n - 1); }
  }

  function Completed(j: Job): Job {
    j.(status := Done)
  }

  function FailedAt(j: Job, now: int): Job {
    if j.attempts >= j.maxAttempts then j.(status := Dead, due := None)
    else j.(status := Failed, due := Some(now + Backoff(j.attempts)))
  }

  /** No claim at any time picks the row or takes it. */
  ghost predicate Unclaimable(j: Job) {
    forall now :: !Due(j, now) && !Guard(j, now)
  }

  /** A row that a claim may pick and take from `due` on, and not before. */
  ghost predicate Waiting(j: Job, due: int) {
    forall now :: (Due(j, now) <==> now >= due) && (Guard(j, now) <==> now >= due)
  }

  predicate SameRow(a: Job, b: Job) {
    a.kind == b.kind && a.key == b.key && a.attempts == b.attempts && a.maxAttempts == b.maxAttempts
  }

  /** A failure settles a row exactly when its attempts are used up; otherwise it has to wait. */
  lemma FailedAtMeans(j: Job, now: int)
    ensures var f := FailedAt(j, now);
            && SameRow(f, j)
            && (j.attempts >= j.maxAttempts <==> f.status == Dead)
            && (j.attempts >= j.maxAttempts ==> Unclaimable(f))
            && (j.attempts < j.maxAttempts ==>
                  && f.status == Failed && Waiting(f, now + Backoff(j.attempts))
                  && 10_000 <= Backoff(j.attempts) <= 3_600_000)
  {
    BackoffDoubles(j.attempts);
  }

  function Rearmed(j: Job, due: int): Job {
    if j.status == Processing then j else j.(status := Pending, attempts := 0, due := Some(due))
  }

  /** The row with an idempotency key. */
  function Keyed(jobs: seq<Job>, key: nat): (r: Option<nat>)
    ensures r.Some? ==> r.value < |jobs| && jobs[r.value].key == key
    ensures r.None? ==> forall i :: 0 <= i < |jobs| ==> jobs[i].key != key
  {
    if jobs == [] then None
    else if jobs[0].key == key then Some(0)
    else match Keyed(jobs[1..], key)
      case None => None
      case Some(i) => Some(i + 1)
  }

  predicate UniqueKeys(jobs: seq<Job>) {
    forall i, j :: 0 <= i < j < |jobs| ==> jobs[i].key != jobs[j].key
  }

  function Enqueued(jobs: seq<Job>, kind: JobType, key: nat, maxAttempts: int, due: int): seq<Job> {
    match Keyed(jobs, key)
    case Some(i) => jobs[i := Rearmed(jobs[i], due)]
    case None => jobs + [Job(kind, key, Pending, 0, maxAttempts, Some(due))]
  }

  /** A row that starts over: no attempt made, and claims pick it from `due` on and not before. */
  ghost predicate Fresh(j: Job, due: int) {
    j.attempts == 0 && forall now :: Due(j, now) <==> now >= due
  }

  /**
   What enqueuing does to row i, the row of its key afterwards: a new row is as asked for and starts over; a row
   there was keeps its type and limit, and starts over unless it is being processed.
  */
  ghost predicate EnqueuedAt(
      jobs: seq<Job>, after: seq<Job>, i: nat, kind: JobType, key: nat, maxAttempts: int, due: int)
  {
    && i < |after| && after[i].key == key
    && if i < |jobs| then
         && after[i].kind == jobs[i].kind && after[i].maxAttempts == jobs[i].maxAttempts
         && if jobs[i].status == Processing then after[i] == jobs[i] else Fresh(after[i], due)
       else
         after[i].kind == kind && after[i].maxAttempts == maxAttempts && Fresh(after[i], due)
  }

  /** No other row changes, and a row is added only for a key that had none. */
  lemma EnqueuedMeans(jobs: seq<Job>, kind: JobType, key: nat, maxAttempts: int, due: int) returns (i: nat)
    ensures var after := Enqueued(jobs, kind, key, maxAttempts, due);
            && EnqueuedAt(jobs, after, i, kind, key, maxAttempts, due)
            && (i == |jobs| <==> forall k :: 0 <= k < |jobs| ==> jobs[k].key != key)
            && |after| == (if i == |jobs| then i + 1 else |jobs|)
            && (forall k :: 0 <= k < |jobs| && k != i ==> after[k] == jobs[k])
  {
    match Keyed(jobs, key)
    case Some(k) => i := k;
    case None => i := |jobs|;
  }

  /** Where a database error can strike one claim. */
  datatype ClaimFault = NoFault | FindThrows | WriteThrows | RereadThrows

  datatype Claim = Nothing | Claimed(id: nat) | Threw

  /** One undisturbed claim: the rows it leaves and what it returns. */
  function ClaimResult(jobs: seq<Job>, types: seq<JobType>, lease: int, now: int, fault: ClaimFault): (seq<Job>, Claim)
  {
    if fault == FindThrows then (jobs, Threw)
    else match Candidate(jobs, types, now)
      case None => (jobs, Nothing)
      case Some(i) =>
        if fault == WriteThrows then (jobs, Nothing)
        else (jobs[i := Taken(jobs[i], now, lease)], if fault == RereadThrows then Nothing else Claimed(i))
  }

  /** A claimed row is the oldest due one, out of reach while the lease lasts; an error reports nothing claimed. */
  ghost predicate ClaimMeans(
      jobs: seq<Job>, after: seq<Job>, claim: Claim, types: seq<JobType>, lease: int, now: int, fault: ClaimFault)
  {
    var candidate := Candidate(jobs, types, now);
    var written := candidate.Some? && (fault == NoFault || fault == RereadThrows);
    && (claim.Threw? <==> fault == FindThrows)
    && (claim.Claimed? <==> fault == NoFault && candidate.Some?)
    && (claim.Claimed? ==> candidate == Some(claim.id))
    && (!written ==> after == jobs)
    && (written ==>
          var i := candidate.value;
          && |after| == |jobs| && (forall k :: 0 <= k < |jobs| && k != i ==> after[k] == jobs[k])
          && Waiting(after[i], now + lease) && after[i].attempts == jobs[i].attempts + 1
          && after[i].kind == jobs[i].kind && after[i].key == jobs[i].key
          && after[i].maxAttempts == jobs[i].maxAttempts)
  }

  class Queue {
    var jobs: seq<Job>

    constructor (jobs: seq<Job>)
      ensures this.jobs == jobs
    {
      this.jobs := jobs;
    }

    method FindFirst(types: seq<JobType>, now: int) returns (candidate: Option<nat>)
      ensures candidate == Candidate(jobs, types, now)
    {
      for i := 0 to |jobs|
        invariant forall k :: 0 <= k < i ==> !Wanted(jobs[k], types, now)
      {
        if Wanted(jobs[i], types, now) {
          return Some(i);
        }
      }
      return None;
    }

    /** The guarded write of a claim: the row is taken, under its lease and with one more attempt, or nothing is. */
    method Take(id: nat, lease: int, now: int) returns (count: nat)
      requires id < |jobs|
      modifies this
      ensures count == if Guard(old(jobs)[id], now) then 1 else 0
      ensures jobs == if count == 1 then old(jobs)[id := Taken(old(jobs)[id], now, lease)] else old(jobs)
      ensures count == 1 ==>
                && Waiting(jobs[id], now + lease) && jobs[id].attempts == old(jobs)[id].attempts + 1
                && jobs[id].(status := Pending, attempts := 0, due := None)
                   == old(jobs)[id].(status := Pending, attempts := 0, due := None)
    {
      count := 0;
      var job := jobs[id];
      if Guard(job, now) {
        jobs := jobs[id := job.(status := Processing, attempts := job.attempts + 1, due := Some(now + lease))];
        count := 1;
      }
    }

    method Claim(types: seq<JobType>, lease: int, now: int, fault: ClaimFault) returns (claim: Claim)
      modifies this
      ensures (jobs, claim) == ClaimResult(old(jobs), types, lease, now, fault)
      ensures ClaimMeans(old(jobs), jobs, claim, types, lease, now, fault)
    {
      if fault == FindThrows { return Threw; }
      var candidate := FindFirst(types, now);
      if candidate == None || fault == WriteThrows { return Nothing; }
      var id := candidate.value;
      var count := Take(id, lease, now);
      if count == 0 { return Nothing; }
      return if fault == RereadThrows then Nothing else Claimed(id);
    }

    /** An error of the write is logged, not thrown: the row stays leased. A completed row is never claimed again. */
    method Complete(id: nat, lost: bool)
      requires id < |jobs|
      modifies this
      ensures jobs == if lost then old(jobs) else old(jobs)[id := Completed(old(jobs)[id])]
      ensures |jobs| == |old(jobs)| && forall i :: 0 <= i < |jobs| && i != id ==> jobs[i] == old(jobs)[i]
      ensures SameRow(jobs[id], old(jobs)[id])
      ensures if lost then jobs[id] == old(jobs)[id] else jobs[id].status == Done && Unclaimable(jobs[id])
    {
      if !lost { jobs := jobs[id := jobs[id].(status := Done)]; }
    }

    /** A failed row is settled once its attempts are used up, and else waits between ten seconds and an hour. */
    method Fail(id: nat, now: int, lost: bool)
      requires id < |jobs|
      modifies this
      ensures jobs == if lost then old(jobs) else old(jobs)[id := FailedAt(old(jobs)[id], now)]
      ensures |jobs| == |old(jobs)| && forall i :: 0 <= i < |jobs| && i != id ==> jobs[i] == old(jobs)[i]
      ensures SameRow(jobs[id], old(jobs)[id])
      ensures !lost ==>
                if jobs[id].attempts >= jobs[id].maxAttempts then jobs[id].status == Dead && Unclaimable(jobs[id])
                else
                  && jobs[id].status == Failed && jobs[id].due.Some?
                  && 10_000 <= jobs[id].due.value - now <= 3_600_000 && Waiting(jobs[id], jobs[id].due.value)
      ensures lost ==> jobs[id] == old(jobs)[id]
    {
      FailedAtMeans(jobs[id], now);
      var job := jobs[id];
      var dead := job.attempts >= job.maxAttempts;
      var due := if dead then None else Some(now + Backoff(job.attempts));
      if !lost { jobs := jobs[id := job.(status := if dead then Dead else Failed, due := due)]; }
    }

    /** One row per key: the key's row is the one returned, and no other row changes. */
    method Enqueue(kind: JobType, key: nat, maxAttempts: int, due: int) returns (id: nat)
      modifies this
      ensures jobs == Enqueued(old(jobs), kind, key, maxAttempts, due)
      ensures EnqueuedAt(old(jobs), jobs, id, kind, key, maxAttempts, due)
      ensures UniqueKeys(old(jobs)) ==>
                UniqueKeys(jobs) && forall i :: 0 <= i < |jobs| && jobs[i].key == key ==> i == id
      ensures forall i :: 0 <= i < |old(jobs)| && i != id ==> jobs[i] == old(jobs)[i]
    {
      var existing := Keyed(jobs, key);
      match existing
      case Some(i) =>
        if jobs[i].status != Processing {
          jobs := jobs[i := jobs[i].(status := Pending, attempts := 0, due := Some(due))];
        }
        id := i;
      case None =>
        id := |jobs|;
        jobs := jobs + [Job(kind, key, Pending, 0, maxAttempts, Some(due))];
    }
  }

  // ---- sums over the table ----

  function Total(f: Job -> nat, jobs: seq<Job>): nat {
    if jobs == [] then 0 else f(jobs[0]) + Total(f, jobs[1..])
  }

  lemma {:induction false} TotalUpdate(f: Job -> nat, jobs: seq<Job>, i: nat, j: Job)
    requires i < |jobs|
    ensures Total(f, jobs[i := j]) + f(jobs[i]) == Total(f, jobs) + f(j)
  {
    if i == 0 {
      assert jobs[i := j][1..] == jobs[1..];
    } else {
      TotalUpdate(f, jobs[1..], i - 1, j);
      assert jobs[i := j][1..] == jobs[1..][i - 1 := j];
    }
  }

  lemma {:induction false} TotalAppend(f: Job -> nat, jobs: seq<Job>, j: Job)
    ensures Total(f, jobs + [j]) == Total(f, jobs) + f(j)
  {
    if jobs == [] {
      assert [j][1..] == [] && jobs + [j] == [j];
    } else {
      TotalAppend(f, jobs[1..], j);
      assert (jobs + [j])[1..] == jobs[1..] + [j];
    }
  }
}
