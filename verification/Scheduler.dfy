/** The scheduler object: a fixed array of jobs, updated in place. */
module Scheduler {
  import opened Types
  import opened Time
  import opened SchedulerSpec

  class Scheduler {
    const clock: Clock
    const jobs: array<Job>
    var size: nat
    var activeIndex: nat  // the capacity stands for "none"
    ghost var lastReading: U64

    ghost predicate Valid()
      reads this, jobs
    {
      && jobs.Length > 0 && size <= jobs.Length
      && (activeIndex < size || activeIndex == jobs.Length)
      && Sound(View()) && OnTime(View(), lastReading)
    }

    ghost function View(): Sched
      requires size <= jobs.Length
      reads this, jobs
    {
      Sched(jobs[..size], if activeIndex == jobs.Length then None else Some(activeIndex))
    }

    constructor (capacity: nat, clock: Clock)
      requires capacity > 0
      ensures Valid() && View() == EMPTY && jobs.Length == capacity && this.clock == clock
      ensures fresh(jobs) && lastReading == 0
    {
      this.clock := clock;
      jobs := new Job[capacity](_ => Job(0, OnDemand, 0, 0, false));
      size := 0;
      activeIndex := capacity;
      lastReading := 0;
    }

    // The clock readings a call made.
    twostate predicate Read(readings: seq<nat>)
      reads clock
    {
      clock.readings == old(clock.readings) + readings
    }

    method RegisterJob(id: U32, policy: Policy, periodMs: U64) returns (result: SchedulerResult, ghost now: U64)
      requires Valid()
      modifies this`size, jobs, clock
      ensures Valid() && old(clock.now) <= now <= clock.now
      ensures (View(), result) == SchedulerSpec.RegisterJob(jobs.Length, old(View()), id, policy, periodMs, now)
      ensures Read(if policy == Periodic && result in {Registered, TimeOverflow} then [now] else [])
    {
      now := clock.now;
      if policy == UnknownPolicy || (if policy == Periodic then periodMs == 0 else periodMs != 0) {
        return InvalidConfig, now;
      }
      var index := FindJob(id);
      if index != size {
        return DuplicateId, now;
      }
      if size == jobs.Length {
        return Full, now;
      }
      var deadline: U64 := 0;
      if policy == Periodic {
        var reading := clock.NowMs();
        now := reading;
        if periodMs > MAX_U64 - reading {
          return TimeOverflow, now;
        }
        deadline := reading + periodMs;
      }
      AddJob(Job(id, policy, periodMs, deadline, policy == Startup));
      return Registered, now;
    }

    method AddJob(job: Job)
      requires Valid() && size < jobs.Length && JobOk(job) && Find(jobs[..size], job.id) == size
      modifies this`size, jobs
      ensures Valid() && View() == old(View()).(jobs := old(View()).jobs + [job])
    {
      jobs[size] := job;
      size := size + 1;
      assert jobs[..size] == old(jobs[..size]) + [job];
    }

    method Request(id: U32) returns (result: SchedulerResult)
      requires Valid()
      modifies jobs
      ensures Valid()
      ensures (View(), result) == RequestJob(old(View()), id)
    {
      var index := FindJob(id);
      if index == size {
        return NotFound;
      }
      if jobs[index].policy != OnDemand {
        return NotOnDemand;
      }
      if index == activeIndex || jobs[index].pending {
        return AlreadyPending;
      }
      jobs[index] := jobs[index].(pending := true);
      return Requested;
    }

    method TakeNextDue(id: U32) returns (result: SchedulerResult, taken: U32, ghost now: U64)
      requires Valid() && lastReading <= clock.now
      modifies this`activeIndex, this`lastReading, clock
      ensures Valid() && old(clock.now) <= now <= clock.now && lastReading <= clock.now
      ensures (View(), result) == SchedulerSpec.TakeNextDue(old(View()), now)
      ensures Read(if result == Busy then [] else [now])
      ensures if result == Taken then taken == jobs[activeIndex].id else taken == id
    {
      now, taken := clock.now, id;
      if activeIndex != jobs.Length {
        return Busy, taken, now;
      }
      var reading := clock.NowMs();
      now, lastReading := reading, reading;
      for index := 0 to size
        invariant FirstDue(jobs[..size], reading) >= index
        invariant Valid() && activeIndex == jobs.Length
        invariant clock.now == reading == lastReading && View() == old(View()) && Read([now])
      {
        if Due(jobs[index], reading) {
          activeIndex := index;
          return Taken, jobs[index].id, now;
        }
      }
      return NoDueJob, taken, now;
    }

    method Complete(id: U32) returns (result: SchedulerResult, ghost now: U64)
      requires Valid() && lastReading <= clock.now
      modifies this`activeIndex, this`lastReading, jobs, clock
      ensures Valid() && old(clock.now) <= now <= clock.now && lastReading <= clock.now
      ensures old(lastReading) <= now && OnTime(old(View()), now)
      ensures (View(), result) == CompleteJob(old(View()), id, now)
      ensures Read(if result == TimeOverflow || (result == Completed && old(jobs[activeIndex].policy == Periodic))
                   then [now] else [])
    {
      now := clock.now;
      if activeIndex == jobs.Length {
        return NoActiveJob, now;
      }
      var job := jobs[activeIndex];
      if job.id != id {
        return WrongJob, now;
      }
      if job.policy == Periodic {
        var reading := clock.NowMs();
        now, lastReading := reading, reading;
        var fits, deadline := Reschedule(job.deadlineMs, job.periodMs, reading);
        if !fits {
          return TimeOverflow, now;
        }
        jobs[activeIndex] := job.(deadlineMs := deadline);
      } else {
        jobs[activeIndex] := job.(pending := false);
      }
      activeIndex := jobs.Length;
      return Completed, now;
    }

    // Skips missed periods; the types show that no intermediate value leaves 64 bits.
    method Reschedule(deadlineMs: U64, periodMs: U64, now: U64) returns (fits: bool, deadline: U64)
      requires periodMs > 0 && now >= deadlineMs
      ensures NextDeadline(deadlineMs, periodMs, now) == if fits then Some(deadline) else None
    {
      var elapsedPeriods: U64 := (now - deadlineMs) / periodMs;
      if elapsedPeriods >= (MAX_U64 - deadlineMs) / periodMs {
        return false, deadlineMs;
      }
      NoOverflow(deadlineMs, periodMs, elapsedPeriods);
      var step: U64 := (elapsedPeriods + 1) * periodMs;
      return true, deadlineMs + step;
    }

    method FindJob(id: U32) returns (index: nat)
      requires Valid()
      ensures index == Find(jobs[..size], id)
    {
      index := 0;
      while index < size
        invariant index <= size && Find(jobs[..size], id) >= index
      {
        if jobs[index].id == id {
          return;
        }
        index := index + 1;
      }
    }
  }
}
