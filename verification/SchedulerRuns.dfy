/**
 Counting over whole histories of scheduler calls. An observer that sees only calls,
 readings and answers keeps one entry per registered job.
 */
module SchedulerRuns {
  import opened Types
  import opened SchedulerSpec

  datatype Event =
    | Register(id: U32, policy: Policy, periodMs: U64, now: U64)
    | Request(id: U32, now: U64)
    | Take(now: U64)
    | Complete(id: U32, now: U64)

  // For one job: what it was registered as and when, how often it was requested, taken and
  // completed, and, for a periodic job, the number of the deadline it waits for.
  datatype Entry = Entry(id: U32, policy: Policy, periodMs: U64, since: U64,
                         requested: nat, taken: nat, completed: nat, slot: nat)

  datatype World = World(s: Sched, entries: seq<Entry>, last: U64)

  const START := World(EMPTY, [], 0)

  predicate Chronological(events: seq<Event>) {
    forall i, j :: 0 <= i < j < |events| ==> events[i].now <= events[j].now
  }

  function Call(capacity: nat, s: Sched, e: Event): (Sched, SchedulerResult)
    requires Sound(s) && (e.Complete? ==> OnTime(s, e.now))
  {
    match e
    case Register(id, policy, period, now) => RegisterJob(capacity, s, id, policy, period, now)
    case Request(id, _) => RequestJob(s, id)
    case Take(now) => TakeNextDue(s, now)
    case Complete(id, now) => CompleteJob(s, id, now)
  }

  // The position of a job's entry, or the number of entries.
  function EntryOf(entries: seq<Entry>, id: U32): (i: nat)
    ensures i <= |entries|
    ensures i < |entries| ==> entries[i].id == id
    ensures forall j :: 0 <= j < i ==> entries[j].id != id
  {
    if entries == [] then 0 else if entries[0].id == id then 0 else 1 + EntryOf(entries[1..], id)
  }

  // The job a call handed out.
  function Handed(s': Sched): Option<U32> {
    if s'.active.Some? && s'.active.value < |s'.jobs| then Some(s'.jobs[s'.active.value].id) else None
  }

  /** The observer's rule; a completed periodic job waits for the first deadline after now. */
  function Observe(entries: seq<Entry>, e: Event, r: SchedulerResult, handed: Option<U32>): seq<Entry> {
    match r
    case Registered =>
      if e.Register? then entries + [Entry(e.id, e.policy, e.periodMs, e.now, 0, 0, 0, 1)] else entries
    case Requested =>
      if e.Request? && EntryOf(entries, e.id) < |entries| then
        var i := EntryOf(entries, e.id);
        entries[i := entries[i].(requested := entries[i].requested + 1)]
      else entries
    case Taken =>
      if handed.Some? && EntryOf(entries, handed.value) < |entries| then
        var i := EntryOf(entries, handed.value);
        entries[i := entries[i].(taken := entries[i].taken + 1)]
      else entries
    case Completed =>
      if e.Complete? && EntryOf(entries, e.id) < |entries| then
        var i := EntryOf(entries, e.id);
        var x := entries[i];
        entries[i := x.(completed := x.completed + 1, slot := NextSlot(x, e.now))]
      else entries
    case _ => entries
  }

  function NextSlot(x: Entry, now: U64): nat {
    if x.policy == Periodic && x.periodMs > 0 && now >= x.since then (now - x.since) / x.periodMs + 1 else x.slot
  }

  /** What the counts say about one job at time t. */
  predicate Tally(job: Job, x: Entry, active: bool, t: U64) {
    && job.id == x.id && job.policy == x.policy && job.periodMs == x.periodMs && JobOk(job)
    && x.taken == x.completed + (if active then 1 else 0)
    && match job.policy
       case Periodic =>
         && job.deadlineMs == Slot(x.since, job.periodMs, x.slot)
         && x.slot >= 1 && x.since <= t
         && x.completed < x.slot
         && Slot(x.since, job.periodMs, x.taken) <= t
         && (active ==> job.deadlineMs <= t)
       case Startup =>
         && x.completed == (if job.pending then 0 else 1)
         && (active ==> job.pending)
       case OnDemand =>
         && x.requested == x.completed + (if job.pending then 1 else 0)
         && (active ==> job.pending)
       case UnknownPolicy => false
  }

  predicate Tallied(w: World) {
    && Sound(w.s) && |w.entries| == |w.s.jobs|
    && forall i :: 0 <= i < |w.s.jobs| ==> Tally(w.s.jobs[i], w.entries[i], w.s.active == Some(i), w.last)
  }

  function Advance(capacity: nat, w: World, e: Event): World
    requires Tallied(w) && w.last <= e.now
  {
    var (s', r) := Call(capacity, w.s, e);
    World(s', Observe(w.entries, e, r, Handed(s')), e.now)
  }

  lemma TimePasses(job: Job, x: Entry, active: bool, t: U64, now: U64)
    requires Tally(job, x, active, t) && t <= now
    ensures Tally(job, x, active, now)
  {
  }

  lemma TakenTally(job: Job, x: Entry, t: U64)
    requires Tally(job, x, false, t) && Due(job, t)
    ensures Tally(job, x.(taken := x.taken + 1), true, t)
  {
    if job.policy == Periodic {
      SlotOrder(x.since, job.periodMs, x.taken + 1, x.slot);
    }
  }

  // The first deadline after t, counted from the registration and from the last deadline.
  lemma NextSlotIs(job: Job, x: Entry, t: U64)
    requires Tally(job, x, true, t) && job.policy == Periodic
    ensures NextSlot(x, t) == x.slot + (t - job.deadlineMs) / job.periodMs + 1
  {
    var p, r := job.periodMs, x.since;
    LastSlot(r, p, t);
    LastSlot(job.deadlineMs, p, t);
    var q, e := (t - r) / p, (t - job.deadlineMs) / p;
    SlotShift(r, p, x.slot, e);
    SlotShift(r, p, x.slot, e + 1);
    SlotOrder(r, p, x.slot + e, q);
    SlotOrder(r, p, q + 1, x.slot + e);
    SlotOrder(r, p, x.slot + e + 1, q);
    SlotOrder(r, p, q, x.slot + e);
  }

  lemma NextDeadlineIs(job: Job, x: Entry, t: U64)
    requires Tally(job, x, true, t) && job.policy == Periodic
    requires NextDeadline(job.deadlineMs, job.periodMs, t).Some?
    ensures NextDeadline(job.deadlineMs, job.periodMs, t).value == Slot(x.since, job.periodMs, NextSlot(x, t))
    ensures NextSlot(x, t) > x.slot
  {
    var e := (t - job.deadlineMs) / job.periodMs;
    LastSlot(job.deadlineMs, job.periodMs, t);
    NextSlotIs(job, x, t);
    SlotShift(x.since, job.periodMs, x.slot, e + 1);
  }

  predicate Completable(job: Job, t: U64) {
    job.policy == Periodic ==>
      job.periodMs > 0 && t >= job.deadlineMs && NextDeadline(job.deadlineMs, job.periodMs, t).Some?
  }

  // The job after its completion.
  function Rested(job: Job, t: U64): Job
    requires Completable(job, t)
  {
    if job.policy == Periodic then job.(deadlineMs := NextDeadline(job.deadlineMs, job.periodMs, t).value)
    else job.(pending := false)
  }

  lemma CompletedTally(job: Job, x: Entry, t: U64)
    requires Tally(job, x, true, t) && Completable(job, t)
    ensures Tally(Rested(job, t), x.(completed := x.completed + 1, slot := NextSlot(x, t)), false, t)
  {
    if job.policy == Periodic {
      NextDeadlineIs(job, x, t);
    }
  }

  lemma SlotShift(start: int, period: int, j: int, k: int)
    ensures Slot(Slot(start, period, j), period, k) == Slot(start, period, j + k)
  {
    assert j * period + k * period == (j + k) * period;
  }

  lemma AllTimePasses(w: World, now: U64)
    requires Tallied(w) && w.last <= now
    ensures Tallied(w.(last := now))
  {
    forall i | 0 <= i < |w.s.jobs|
      ensures Tally(w.s.jobs[i], w.entries[i], w.s.active == Some(i), now)
    {
      TimePasses(w.s.jobs[i], w.entries[i], w.s.active == Some(i), w.last, now);
    }
  }

  // Jobs and entries lie in the same order.
  lemma {:induction false} FoundTogether(jobs: seq<Job>, entries: seq<Entry>, id: U32)
    requires |jobs| == |entries| && forall i :: 0 <= i < |jobs| ==> jobs[i].id == entries[i].id
    ensures EntryOf(entries, id) == Find(jobs, id)
  {
    if jobs != [] && jobs[0].id != id {
      FoundTogether(jobs[1..], entries[1..], id);
    }
  }

  lemma EntryIsFound(w: World, id: U32)
    requires Tallied(w)
    ensures EntryOf(w.entries, id) == Find(w.s.jobs, id)
    ensures forall i :: 0 <= i < |w.s.jobs| && w.s.jobs[i].id == id ==> EntryOf(w.entries, id) == i
  {
    FoundTogether(w.s.jobs, w.entries, id);
  }

  // One job and its entry changed, and perhaps whether it is the active one.
  lemma PairReplaced(w: World, i: nat, job: Job, x: Entry, active: Option<nat>)
    requires Tallied(w) && i < |w.s.jobs| && job.id == w.s.jobs[i].id
    requires Tally(job, x, active == Some(i), w.last) && (active.Some? ==> active.value < |w.s.jobs|)
    requires forall j :: 0 <= j < |w.s.jobs| && j != i ==> (active == Some(j) <==> w.s.active == Some(j))
    ensures Tallied(World(Sched(w.s.jobs[i := job], active), w.entries[i := x], w.last))
  {
  }

  lemma RegisterTallied(capacity: nat, w: World, e: Event)
    requires Tallied(w) && w.last <= e.now && e.Register?
    ensures Tallied(Advance(capacity, w, e))
  {
    AllTimePasses(w, e.now);
  }

  // The request is merged into the job: it is pending from now on.
  lemma RequestAdvances(capacity: nat, w: World, e: Event)
    requires Tallied(w) && w.last <= e.now && e.Request? && Call(capacity, w.s, e).1 == Requested
    ensures var i := Find(w.s.jobs, e.id);
      && i < |w.s.jobs| && w.s.jobs[i].policy == OnDemand && !w.s.jobs[i].pending && w.s.active != Some(i)
      && Advance(capacity, w, e)
         == World(Sched(w.s.jobs[i := w.s.jobs[i].(pending := true)], w.s.active),
                  w.entries[i := w.entries[i].(requested := w.entries[i].requested + 1)], e.now)
  {
    EntryIsFound(w, e.id);
  }

  lemma RequestTallied(capacity: nat, w: World, e: Event)
    requires Tallied(w) && w.last <= e.now && e.Request?
    ensures Tallied(Advance(capacity, w, e))
  {
    AllTimePasses(w, e.now);
    if Call(capacity, w.s, e).1 == Requested {
      var i := Find(w.s.jobs, e.id);
      RequestAdvances(capacity, w, e);
      PairReplaced(w.(last := e.now), i, w.s.jobs[i].(pending := true),
                   w.entries[i].(requested := w.entries[i].requested + 1), w.s.active);
    }
  }

  // Job i is taken: its entry counts one more, and the jobs stay as they are.
  lemma TakeAdvances(capacity: nat, w: World, e: Event, i: nat)
    requires Tallied(w) && w.last <= e.now && e.Take?
    requires w.s.active.None? && i == FirstDue(w.s.jobs, e.now) < |w.s.jobs|
    ensures var x := w.entries[i].(taken := w.entries[i].taken + 1);
      Advance(capacity, w, e) == World(Sched(w.s.jobs[i := w.s.jobs[i]], Some(i)), w.entries[i := x], e.now)
  {
    EntryIsFound(w, w.s.jobs[i].id);
    assert w.s.jobs[i := w.s.jobs[i]] == w.s.jobs;
  }

  lemma DueIsTallied(w: World, i: nat)
    requires Tallied(w) && w.s.active.None? && i < |w.s.jobs| && Due(w.s.jobs[i], w.last)
    ensures var x := w.entries[i].(taken := w.entries[i].taken + 1);
      Tallied(World(Sched(w.s.jobs[i := w.s.jobs[i]], Some(i)), w.entries[i := x], w.last))
  {
    var x := w.entries[i];
    TakenTally(w.s.jobs[i], x, w.last);
    PairReplaced(w, i, w.s.jobs[i], x.(taken := x.taken + 1), Some(i));
  }

  lemma TakeTallied(capacity: nat, w: World, e: Event)
    requires Tallied(w) && w.last <= e.now && e.Take?
    ensures Tallied(Advance(capacity, w, e))
  {
    var i := FirstDue(w.s.jobs, e.now);
    AllTimePasses(w, e.now);
    if w.s.active.None? && i < |w.s.jobs| {
      DueIsTallied(w.(last := e.now), i);
      TakeAdvances(capacity, w, e, i);
    } else {
      assert Advance(capacity, w, e) == w.(last := e.now);
    }
  }

  // The active job is completed.
  lemma CompleteAdvances(capacity: nat, w: World, e: Event)
    requires Tallied(w) && w.last <= e.now && e.Complete? && Call(capacity, w.s, e).1 == Completed
    ensures w.s.active.Some? && Completable(w.s.jobs[w.s.active.value], e.now)
    ensures var i := w.s.active.value;
      var x := w.entries[i];
      Advance(capacity, w, e)
      == World(Sched(w.s.jobs[i := Rested(w.s.jobs[i], e.now)], None),
               w.entries[i := x.(completed := x.completed + 1, slot := NextSlot(x, e.now))], e.now)
  {
    EntryIsFound(w, e.id);
  }

  lemma CompleteTallied(capacity: nat, w: World, e: Event)
    requires Tallied(w) && w.last <= e.now && e.Complete?
    ensures Tallied(Advance(capacity, w, e))
  {
    AllTimePasses(w, e.now);
    if Call(capacity, w.s, e).1 == Completed {
      var i := w.s.active.value;
      var job, x := w.s.jobs[i], w.entries[i];
      CompleteAdvances(capacity, w, e);
      CompletedTally(job, x, e.now);
      PairReplaced(w.(last := e.now), i, Rested(job, e.now),
                   x.(completed := x.completed + 1, slot := NextSlot(x, e.now)), None);
    }
  }

  lemma AdvanceTallied(capacity: nat, w: World, e: Event)
    requires Tallied(w) && w.last <= e.now
    ensures Tallied(Advance(capacity, w, e))
  {
    match e
    case Register(_, _, _, _) => RegisterTallied(capacity, w, e);
    case Request(_, _) => RequestTallied(capacity, w, e);
    case Take(_) => TakeTallied(capacity, w, e);
    case Complete(_, _) => CompleteTallied(capacity, w, e);
  }

  /** The scheduler and the observer after a whole history of calls under a monotone clock. */
  function Run(capacity: nat, events: seq<Event>): (w: World)
    requires Chronological(events)
    ensures Tallied(w) && w.last == (if events == [] then 0 else events[|events| - 1].now)
  {
    if events == [] then START
    else
      var n := |events| - 1;
      var before := Run(capacity, events[..n]);
      AdvanceTallied(capacity, before, events[n]);
      Advance(capacity, before, events[n])
  }

  // What the counts say about one job by time t.
  predicate Counted(job: Job, x: Entry, active: bool, t: U64) {
    && x.taken == x.completed + (if active then 1 else 0)
    && match job.policy
       case Periodic =>
         && job.periodMs > 0 && x.since <= t && x.slot >= 1
         && job.deadlineMs == Slot(x.since, job.periodMs, x.slot)
         && x.taken <= (t - x.since) / job.periodMs
       case Startup => x.taken <= 1
       case OnDemand => x.requested - x.completed == (if job.pending then 1 else 0)
       case UnknownPolicy => false
  }

  lemma TallyCounts(job: Job, x: Entry, active: bool, t: U64)
    requires Tally(job, x, active, t)
    ensures Counted(job, x, active, t)
  {
    if job.policy == Periodic {
      AtMostOncePerPeriod(x.since, job.periodMs, x.taken, t);
    }
  }

  /**
   By any time t: every job taken was completed but the active one, a periodic job keeps its
   cadence and was taken at most once a period, a startup job at most once, and an
   on-demand job owes at most the one request it has pending.
   */
  lemma CountsInEveryRun(capacity: nat, events: seq<Event>, i: nat)
    requires Chronological(events) && i < |Run(capacity, events).s.jobs|
    ensures var w := Run(capacity, events); Counted(w.s.jobs[i], w.entries[i], w.s.active == Some(i), w.last)
  {
    var w := Run(capacity, events);
    TallyCounts(w.s.jobs[i], w.entries[i], w.s.active == Some(i), w.last);
  }

  lemma AtMostOncePerPeriod(start: nat, period: nat, n: nat, t: nat)
    requires period > 0 && Slot(start, period, n) <= t && start <= t
    ensures n <= (t - start) / period
  {
    LastSlot(start, period, t);
    SlotOrder(start, period, (t - start) / period + 1, n);
  }

  // ---- What every call answers ----

  /** A job wants to run, as far as the observer can tell. */
  predicate Wants(x: Entry, now: U64) {
    match x.policy
    case Periodic => Slot(x.since, x.periodMs, x.slot) <= now
    case Startup => x.completed == 0
    case OnDemand => x.requested > x.completed
    case UnknownPolicy => false
  }

  predicate Running(x: Entry) {
    x.taken > x.completed
  }

  // Entry i is the first that wants to run.
  predicate FirstWanting(entries: seq<Entry>, i: nat, now: U64) {
    && i < |entries| && Wants(entries[i], now)
    && forall j :: 0 <= j < i ==> !Wants(entries[j], now)
  }

  lemma DueIsWanting(job: Job, x: Entry, active: bool, t: U64, now: U64)
    requires Tally(job, x, active, t)
    ensures Due(job, now) <==> Wants(x, now)
  {
  }

  // One job runs at most: the one entry that was taken more often than completed.
  lemma ActiveIsRunning(w: World)
    requires Tallied(w)
    ensures KnowsActive(w)
  {
    forall i | 0 <= i < |w.entries| ensures w.s.active == Some(i) <==> Running(w.entries[i]) {
      assert Tally(w.s.jobs[i], w.entries[i], w.s.active == Some(i), w.last);
    }
  }

  // The observer knows which job is active.
  ghost predicate KnowsActive(w: World) {
    Tallied(w) && forall i :: 0 <= i < |w.entries| ==> (w.s.active == Some(i) <==> Running(w.entries[i]))
  }

  lemma FirstDueIsWanting(w: World, now: U64)
    requires Tallied(w)
    ensures var i := FirstDue(w.s.jobs, now);
      if i < |w.s.jobs| then FirstWanting(w.entries, i, now)
      else forall j :: 0 <= j < |w.entries| ==> !Wants(w.entries[j], now)
  {
    forall i | 0 <= i < |w.entries|
      ensures Due(w.s.jobs[i], now) <==> Wants(w.entries[i], now)
    {
      DueIsWanting(w.s.jobs[i], w.entries[i], w.s.active == Some(i), w.last, now);
    }
  }

  /**
   In every chronological run: while a job runs the answer is Busy; otherwise the job taken is
   the first in registration order that wants to run by the observer's entries, and one is
   taken exactly when there is one.
   */
  lemma TakenIsFirstWanting(capacity: nat, events: seq<Event>, now: U64)
    requires Chronological(events)
    ensures var w := Run(capacity, events);
      var (s', r) := TakeNextDue(w.s, now);
      if exists i :: 0 <= i < |w.entries| && Running(w.entries[i]) then r == Busy && s' == w.s
      else
        && (r == Taken <==> exists i :: FirstWanting(w.entries, i, now))
        && (r == Taken ==> s'.active.Some? && FirstWanting(w.entries, s'.active.value, now))
        && (r != Taken ==> r == NoDueJob && forall i :: 0 <= i < |w.entries| ==> !Wants(w.entries[i], now))
        && s'.jobs == w.s.jobs
  {
    var w := Run(capacity, events);
    ActiveIsRunning(w);
    if w.s.active.Some? {
      assert Running(w.entries[w.s.active.value]);
    } else {
      FirstDueIsWanting(w, now);
    }
  }

  predicate Registrable(e: Event)
    requires e.Register?
  {
    e.policy != UnknownPolicy && (e.policy == Periodic <==> e.periodMs > 0)
  }

  /** What the observer expects a call other than Take to answer. */
  function Expected(capacity: nat, entries: seq<Entry>, e: Event): SchedulerResult
    requires !e.Take?
  {
    var i := EntryOf(entries, e.id);
    if e.Register? then
      if !Registrable(e) then InvalidConfig
      else if i < |entries| then DuplicateId
      else if |entries| == capacity then Full
      else if e.policy == Periodic && e.now + e.periodMs > MAX_U64 then TimeOverflow
      else Registered
    else if e.Request? then
      if i == |entries| then NotFound
      else if entries[i].policy != OnDemand then NotOnDemand
      else if entries[i].requested > entries[i].completed then AlreadyPending
      else Requested
    else if forall j :: 0 <= j < |entries| ==> !Running(entries[j]) then NoActiveJob
    else if i == |entries| || !Running(entries[i]) then WrongJob
    else if entries[i].policy == Periodic && NextTime(entries[i], e.now) > MAX_U64 then TimeOverflow
    else Completed
  }

  // The first time on the job's cadence after now.
  function NextTime(x: Entry, now: U64): int {
    Slot(x.since, x.periodMs, NextSlot(x, now))
  }

  lemma CompletionOverflows(job: Job, x: Entry, t: U64)
    requires Tally(job, x, true, t) && job.policy == Periodic
    ensures NextDeadline(job.deadlineMs, job.periodMs, t).None?
       <==> NextTime(x, t) > MAX_U64
  {
    var p, r := job.periodMs, x.since;
    var e, last := (t - job.deadlineMs) / p, (MAX_U64 - job.deadlineMs) / p;
    NextSlotIs(job, x, t);
    LastSlot(job.deadlineMs, p, MAX_U64);
    SlotOrder(job.deadlineMs, p, e + 1, last);
    SlotOrder(job.deadlineMs, p, last + 1, e + 1);
    SlotShift(r, p, x.slot, e + 1);
  }

  predicate Refuses(s: Sched, answer: (Sched, SchedulerResult)) {
    answer.1 in {Registered, Requested, Completed} || answer.0 == s
  }

  lemma RegisterAnswers(capacity: nat, w: World, e: Event)
    requires Tallied(w) && e.Register?
    ensures Call(capacity, w.s, e).1 == Expected(capacity, w.entries, e) && Refuses(w.s, Call(capacity, w.s, e))
  {
    EntryIsFound(w, e.id);
  }

  lemma RequestAnswers(capacity: nat, w: World, e: Event)
    requires Tallied(w) && e.Request?
    ensures Call(capacity, w.s, e).1 == Expected(capacity, w.entries, e) && Refuses(w.s, Call(capacity, w.s, e))
  {
    EntryIsFound(w, e.id);
    var i := Find(w.s.jobs, e.id);
    if i < |w.s.jobs| {
      assert Tally(w.s.jobs[i], w.entries[i], w.s.active == Some(i), w.last);
    }
  }

  lemma CompleteAnswers(capacity: nat, w: World, e: Event)
    requires KnowsActive(w) && e.Complete? && w.last <= e.now
    ensures OnTime(w.s, e.now)
    ensures Call(capacity, w.s, e).1 == Expected(capacity, w.entries, e) && Refuses(w.s, Call(capacity, w.s, e))
  {
    if w.s.active.Some? {
      var i := w.s.active.value;
      EntryIsFound(w, e.id);
      assert Running(w.entries[i]);
      TimePasses(w.s.jobs[i], w.entries[i], true, w.last, e.now);
      if w.s.jobs[i].policy == Periodic {
        CompletionOverflows(w.s.jobs[i], w.entries[i], e.now);
      }
    }
  }

  /** In every chronological run every call answers as its entries demand; a refusal changes nothing. */
  lemma EveryAnswerIsExpected(capacity: nat, events: seq<Event>, e: Event)
    requires Chronological(events) && !e.Take? && Run(capacity, events).last <= e.now
    ensures var w := Run(capacity, events);
      && (e.Complete? ==> OnTime(w.s, e.now))
      && Call(capacity, w.s, e).1 == Expected(capacity, w.entries, e) && Refuses(w.s, Call(capacity, w.s, e))
  {
    var w := Run(capacity, events);
    ActiveIsRunning(w);
    match e
    case Register(_, _, _, _) => RegisterAnswers(capacity, w, e);
    case Request(_, _) => RequestAnswers(capacity, w, e);
    case Complete(_, _) => CompleteAnswers(capacity, w, e);
  }
}
