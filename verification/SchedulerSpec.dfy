/** The cooperative scheduler as a value: its jobs in registration order and the one running. */
module SchedulerSpec {
  import opened Types

  // UnknownPolicy stands for an enumeration value outside the three declared ones.
  datatype Policy = Startup | Periodic | OnDemand | UnknownPolicy

  datatype SchedulerResult =
    | Registered | DuplicateId | Full | InvalidConfig | TimeOverflow
    | Requested | AlreadyPending | NotFound | NotOnDemand
    | Taken | NoDueJob | Busy
    | Completed | NoActiveJob | WrongJob

  datatype Job = Job(id: U32, policy: Policy, periodMs: U64, deadlineMs: U64, pending: bool)

  datatype Sched = Sched(jobs: seq<Job>, active: Option<nat>)

  const EMPTY := Sched([], None)

  predicate UniqueIds(jobs: seq<Job>) {
    forall i, j :: 0 <= i < j < |jobs| ==> jobs[i].id != jobs[j].id
  }

  predicate JobOk(job: Job) {
    (job.policy == Periodic <==> job.periodMs > 0) && job.policy != UnknownPolicy
  }

  predicate Sound(s: Sched) {
    && UniqueIds(s.jobs)
    && (forall i :: 0 <= i < |s.jobs| ==> JobOk(s.jobs[i]))
    && (s.active.Some? ==> s.active.value < |s.jobs|)
  }

  predicate Due(job: Job, now: U64) {
    if job.policy == Periodic then now >= job.deadlineMs else job.pending
  }

  // The position of the first job satisfying a test, or the number of jobs.
  function Find(jobs: seq<Job>, id: U32): (i: nat)
    ensures i <= |jobs|
    ensures i < |jobs| ==> jobs[i].id == id
    ensures forall j :: 0 <= j < i ==> jobs[j].id != id
  {
    if jobs == [] then 0 else if jobs[0].id == id then 0 else 1 + Find(jobs[1..], id)
  }

  function FirstDue(jobs: seq<Job>, now: U64): (i: nat)
    ensures i <= |jobs|
    ensures i < |jobs| ==> Due(jobs[i], now)
    ensures forall j :: 0 <= j < i ==> !Due(jobs[j], now)
  {
    if jobs == [] then 0 else if Due(jobs[0], now) then 0 else 1 + FirstDue(jobs[1..], now)
  }

  // ---- Calls ----

  function RegisterJob(capacity: nat, s: Sched, id: U32, policy: Policy, periodMs: U64, now: U64)
    : (Sched, SchedulerResult)
  {
    if policy == UnknownPolicy || (if policy == Periodic then periodMs == 0 else periodMs != 0) then (s, InvalidConfig)
    else if Find(s.jobs, id) != |s.jobs| then (s, DuplicateId)
    else if |s.jobs| == capacity then (s, Full)
    else if policy == Periodic && periodMs > MAX_U64 - now then (s, TimeOverflow)
    else
      var deadline := if policy == Periodic then now + periodMs else 0;
      (s.(jobs := s.jobs + [Job(id, policy, periodMs, deadline, policy == Startup)]), Registered)
  }

  function RequestJob(s: Sched, id: U32): (Sched, SchedulerResult) {
    var i := Find(s.jobs, id);
    if i == |s.jobs| then (s, NotFound)
    else if s.jobs[i].policy != OnDemand then (s, NotOnDemand)
    else if s.active == Some(i) || s.jobs[i].pending then (s, AlreadyPending)
    else (s.(jobs := s.jobs[i := s.jobs[i].(pending := true)]), Requested)
  }

  function TakeNextDue(s: Sched, now: U64): (Sched, SchedulerResult) {
    if s.active.Some? then (s, Busy)
    else
      var i := FirstDue(s.jobs, now);
      if i < |s.jobs| then (s.(active := Some(i)), Taken) else (s, NoDueJob)
  }

  // The next deadline of a periodic job completed at `now`; None if none fits 64 bits.
  function NextDeadline(deadline: U64, period: U64, now: U64): Option<U64>
    requires period > 0 && now >= deadline
  {
    var elapsed := (now - deadline) / period;
    if elapsed >= (MAX_U64 - deadline) / period then None
    else
      NoOverflow(deadline, period, elapsed);
      Some(deadline + (elapsed + 1) * period)
  }

  lemma NoOverflow(deadline: U64, period: U64, elapsed: nat)
    requires period > 0 && elapsed < (MAX_U64 - deadline) / period
    ensures 0 <= (elapsed + 1) * period <= MAX_U64 - deadline
  {
    var q := (MAX_U64 - deadline) / period;
    assert (elapsed + 1) * period <= q * period <= MAX_U64 - deadline;
  }

  // A running periodic job was due when it was taken, and time does not go back.
  predicate OnTime(s: Sched, now: U64) {
    s.active.Some? && s.active.value < |s.jobs| && s.jobs[s.active.value].policy == Periodic ==>
      s.jobs[s.active.value].deadlineMs <= now
  }

  function CompleteJob(s: Sched, id: U32, now: U64): (Sched, SchedulerResult)
    requires Sound(s) && OnTime(s, now)
  {
    if s.active.None? then (s, NoActiveJob)
    else
      var i := s.active.value;
      var job := s.jobs[i];
      if job.id != id then (s, WrongJob)
      else if job.policy == Periodic then
        match NextDeadline(job.deadlineMs, job.periodMs, now)
        case None => (s, TimeOverflow)
        case Some(d) => (Sched(s.jobs[i := job.(deadlineMs := d)], None), Completed)
      else (Sched(s.jobs[i := job.(pending := false)], None), Completed)
  }

  // ---- Exactness of rescheduling ----

  // The k-th deadline of a cadence.
  function Slot(start: int, period: int, k: int): int {
    start + k * period
  }

  lemma SlotOrder(start: int, period: int, j: int, k: int)
    requires period > 0
    ensures j <= k <==> Slot(start, period, j) <= Slot(start, period, k)
  {
    if j <= k {
      Apart(start, period, j, k);
    } else {
      Apart(start, period, k, j);
      Apart(start, period, k + 1, j);
    }
  }

  lemma Apart(start: int, period: int, j: int, k: int)
    requires period > 0 && j <= k
    ensures Slot(start, period, k) - Slot(start, period, j) == (k - j) * period >= 0
    ensures Slot(start, period, j + 1) == Slot(start, period, j) + period
  {
    assert k * period - j * period == (k - j) * period;
    assert (j + 1) * period == j * period + period;
  }

  // Division by the period finds the last slot that is not in the future.
  lemma LastSlot(start: int, period: int, t: int)
    requires period > 0 && t >= start
    ensures var q := (t - start) / period; q >= 0 && Slot(start, period, q) <= t < Slot(start, period, q + 1)
  {
    var q := (t - start) / period;
    assert t - start == q * period + (t - start) % period;
    assert (q + 1) * period == q * period + period;
  }

  /**
   The new deadline is the least one on the cadence strictly after now; there is none
   exactly when no such deadline fits 64 bits.
   */
  lemma ReschedulingIsExact(deadline: U64, period: U64, now: U64)
    requires period > 0 && now >= deadline
    ensures var next := NextDeadline(deadline, period, now);
      && (next.None? <==> forall k :: k >= 1 && Slot(deadline, period, k) > now ==> Slot(deadline, period, k) > MAX_U64)
      && (next.Some? ==>
            && (exists k :: k >= 1 && next.value == Slot(deadline, period, k))
            && next.value > now
            && forall k :: k >= 1 && Slot(deadline, period, k) > now ==> next.value <= Slot(deadline, period, k))
  {
    var elapsed, last := (now - deadline) / period, (MAX_U64 - deadline) / period;
    LastSlot(deadline, period, now);
    LastSlot(deadline, period, MAX_U64);
    assert elapsed >= last <==> Slot(deadline, period, elapsed + 1) > MAX_U64 by {
      SlotOrder(deadline, period, elapsed + 1, last);
      SlotOrder(deadline, period, last + 1, elapsed + 1);
    }
    forall k | k >= 1 && Slot(deadline, period, k) > now
      ensures Slot(deadline, period, elapsed + 1) <= Slot(deadline, period, k)
    {
      SlotOrder(deadline, period, k, elapsed);
      SlotOrder(deadline, period, elapsed + 1, k);
    }
    assert NextDeadline(deadline, period, now).Some? ==>
        NextDeadline(deadline, period, now).value == Slot(deadline, period, elapsed + 1);
  }
}
