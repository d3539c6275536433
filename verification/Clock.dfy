// src/domain/fake_clock.cpp: jobs with due times, and the sweep that runs them.
//
// The state is a value (`ClockState`) with one function per operation; the class `FakeClock`
// performs the operations in place and is proved equal to those functions (throughout the model, a
// function named by a past participle is the state after the operation). A run also keeps a
// log of what happened to the jobs, and the sweep laws are stated over that log alone.

module Clock {
  import opened Wrappers

  const INVALID_JOB: nat := 0

  datatype Job<T> = Job(id: nat, runAt: nat, callback: T)

  datatype ClockState<T> = ClockState(now: nat, nextJob: nat, jobs: seq<Job<T>>)

  /** What a running callback may do to the clock. */
  datatype ClockOp<T> = Schedule(delay: nat, callback: T) | CancelJob(id: nat)

  /** What the callback of job `id` does when it runs. Since no id runs twice (proved below), a
      function of the id describes every callback, however it was chosen. */
  type Behaviour<!T> = nat -> seq<ClockOp<T>>

  datatype Event =
    | Armed(id: nat, runAt: nat)
    | Dropped(id: nat)
    | SweepBegan(now: nat)
    | Ran(id: nat, runAt: nat)

  datatype Timeline<T> = Timeline(clock: ClockState<T>, log: seq<Event>)

  // ---- operations ------------------------------------------------------------------------

  function Scheduled<T>(c: ClockState<T>, delay: nat, callback: T): ClockState<T> {
    ClockState(c.now, c.nextJob + 1, c.jobs + [Job(c.nextJob, c.now + delay, callback)])
  }

  function RemoveJob<T>(jobs: seq<Job<T>>, id: nat): seq<Job<T>> {
    if jobs == [] then []
    else
      var r := RemoveJob(jobs[..|jobs| - 1], id);
      if jobs[|jobs| - 1].id == id then r else r + [jobs[|jobs| - 1]]
  }

  function Cancelled<T>(c: ClockState<T>, id: nat): ClockState<T> {
    c.(jobs := RemoveJob(c.jobs, id))
  }

  /** The position of the first job with this id, or the length when there is none. */
  function FindJob<T>(jobs: seq<Job<T>>, id: nat): (k: nat)
    ensures k <= |jobs|
    ensures k < |jobs| ==> jobs[k].id == id
    ensures forall i :: 0 <= i < k ==> jobs[i].id != id
  {
    if jobs == [] then 0
    else if jobs[0].id == id then 0
    else 1 + FindJob(jobs[1..], id)
  }

  function EraseAt<T>(jobs: seq<Job<T>>, k: nat): seq<Job<T>>
    requires k < |jobs|
  {
    jobs[..k] + jobs[k + 1..]
  }

  /** Sweep entries: (due time, job id), compared lexicographically. */
  predicate Before(a: (nat, nat), b: (nat, nat)) {
    a.0 < b.0 || (a.0 == b.0 && a.1 < b.1)
  }

  ghost predicate Sorted(due: seq<(nat, nat)>) {
    forall i, j :: 0 <= i < j < |due| ==> Before(due[i], due[j])
  }

  function Insert(due: seq<(nat, nat)>, e: (nat, nat)): seq<(nat, nat)> {
    if due == [] || Before(e, due[0]) then [e] + due else [due[0]] + Insert(due[1..], e)
  }

  function Sort(due: seq<(nat, nat)>): seq<(nat, nat)> {
    if due == [] then [] else Insert(Sort(due[..|due| - 1]), due[|due| - 1])
  }

  function DueEntries<T>(jobs: seq<Job<T>>, now: nat): seq<(nat, nat)> {
    if jobs == [] then []
    else
      var r := DueEntries(jobs[..|jobs| - 1], now);
      var job := jobs[|jobs| - 1];
      if job.runAt <= now then r + [(job.runAt, job.id)] else r
  }

  // ---- runs with a log -------------------------------------------------------------------

  function Performed<T>(tl: Timeline<T>, op: ClockOp<T>): Timeline<T> {
    match op
    case Schedule(delay, callback) =>
      Timeline(Scheduled(tl.clock, delay, callback), tl.log + [Armed(tl.clock.nextJob, tl.clock.now + delay)])
    case CancelJob(id) =>
      Timeline(Cancelled(tl.clock, id), tl.log + [Dropped(id)])
  }

  function PerformedAll<T>(tl: Timeline<T>, ops: seq<ClockOp<T>>): Timeline<T> {
    if ops == [] then tl else Performed(PerformedAll(tl, ops[..|ops| - 1]), ops[|ops| - 1])
  }

  function SweepBegun<T>(tl: Timeline<T>, ms: nat): Timeline<T> {
    Timeline(tl.clock.(now := tl.clock.now + ms), tl.log + [SweepBegan(tl.clock.now + ms)])
  }

  /** Take the job out of the clock; unchanged when it is no longer there. */
  function Taken<T>(tl: Timeline<T>, id: nat): Timeline<T> {
    var k := FindJob(tl.clock.jobs, id);
    if k == |tl.clock.jobs| then tl
    else Timeline(tl.clock.(jobs := EraseAt(tl.clock.jobs, k)), tl.log + [Ran(id, tl.clock.jobs[k].runAt)])
  }

  function RanOne<T>(behave: Behaviour<T>, tl: Timeline<T>, id: nat): Timeline<T> {
    if FindJob(tl.clock.jobs, id) == |tl.clock.jobs| then tl
    else PerformedAll(Taken(tl, id), behave(id))
  }

  function Swept<T>(behave: Behaviour<T>, tl: Timeline<T>, due: seq<(nat, nat)>): Timeline<T> {
    if due == [] then tl
    else RanOne(behave, Swept(behave, tl, due[..|due| - 1]), due[|due| - 1].1)
  }

  function Advanced<T>(behave: Behaviour<T>, tl: Timeline<T>, ms: nat): Timeline<T> {
    var tl' := SweepBegun(tl, ms);
    Swept(behave, tl', Sort(DueEntries(tl'.clock.jobs, tl'.clock.now)))
  }

  datatype ClockCommand<T> = Do(op: ClockOp<T>) | Tick(ms: nat)

  function ClockStep<T>(behave: Behaviour<T>, tl: Timeline<T>, cmd: ClockCommand<T>): Timeline<T> {
    match cmd
    case Do(op) => Performed(tl, op)
    case Tick(ms) => Advanced(behave, tl, ms)
  }

  function ClockRun<T>(behave: Behaviour<T>, cmds: seq<ClockCommand<T>>): Timeline<T> {
    if cmds == [] then Timeline(ClockState(0, INVALID_JOB + 1, []), [])
    else ClockStep(behave, ClockRun(behave, cmds[..|cmds| - 1]), cmds[|cmds| - 1])
  }

  // ---- the clock itself ------------------------------------------------------------------

  class FakeClock<T> {
    var now: nat
    var nextJob: nat
    var jobs: seq<Job<T>>
    ghost var log: seq<Event>

    ghost function State(): ClockState<T>
      reads this
    {
      ClockState(now, nextJob, jobs)
    }

    ghost function Line(): Timeline<T>
      reads this
    {
      Timeline(State(), log)
    }

    constructor ()
      ensures Line() == Timeline(ClockState(0, INVALID_JOB + 1, []), [])
    {
      now, nextJob, jobs, log := 0, INVALID_JOB + 1, [], [];
    }

    method ScheduleAfter(delay: nat, callback: T) returns (id: nat)
      modifies this
      ensures id == old(nextJob)
      ensures Line() == Performed(old(Line()), Schedule(delay, callback))
    {
      id := nextJob;
      nextJob := nextJob + 1;
      jobs := jobs + [Job(id, now + delay, callback)];
      log := log + [Armed(id, now + delay)];
    }

    method Cancel(id: nat)
      modifies this
      ensures Line() == Performed(old(Line()), CancelJob(id))
    {
      var kept: seq<Job<T>> := [];
      for i := 0 to |jobs|
        invariant kept == RemoveJob(jobs[..i], id)
      {
        assert jobs[..i + 1][..i] == jobs[..i];
        if jobs[i].id != id { kept := kept + [jobs[i]]; }
      }
      assert jobs[..|jobs|] == jobs;
      jobs := kept;
      log := log + [Dropped(id)];
    }

    /** First half of `advance`: move the time and list what is due, in run order. */
    method BeginSweep(ms: nat) returns (due: seq<(nat, nat)>)
      modifies this
      ensures Line() == SweepBegun(old(Line()), ms)
      ensures due == Sort(DueEntries(jobs, now))
    {
      now := now + ms;
      log := log + [SweepBegan(now)];
      due := [];
      for i := 0 to |jobs|
        invariant due == DueEntries(jobs[..i], now)
      {
        assert jobs[..i + 1][..i] == jobs[..i];
        if jobs[i].runAt <= now { due := due + [(jobs[i].runAt, jobs[i].id)]; }
      }
      assert jobs[..|jobs|] == jobs;
      due := Sort(due);
    }

    /** Second half of `advance`, per entry: take the job out unless it was cancelled meanwhile. */
    method Take(id: nat) returns (taken: Option<Job<T>>)
      modifies this
      ensures Line() == Taken(old(Line()), id)
      ensures var k := FindJob(old(jobs), id);
              taken == if k == |old(jobs)| then None else Some(old(jobs)[k])
    {
      var k := FindJob(jobs, id);
      if k == |jobs| { return None; }
      taken := Some(jobs[k]);
      log := log + [Ran(id, jobs[k].runAt)];
      jobs := EraseAt(jobs, k);
    }

    method Perform(ops: seq<ClockOp<T>>)
      modifies this
      ensures Line() == PerformedAll(old(Line()), ops)
    {
      for i := 0 to |ops|
        invariant Line() == PerformedAll(old(Line()), ops[..i])
      {
        assert ops[..i + 1][..i] == ops[..i];
        match ops[i]
        case Schedule(delay, callback) => var _ := ScheduleAfter(delay, callback);
        case CancelJob(id) => Cancel(id);
      }
      assert ops[..|ops|] == ops;
    }

    method Advance(behave: Behaviour<T>, ms: nat)
      modifies this
      ensures Line() == Advanced(behave, old(Line()), ms)
    {
      var due := BeginSweep(ms);
      ghost var began := Line();
      for i := 0 to |due|
        invariant Line() == Swept(behave, began, due[..i])
      {
        assert due[..i + 1][..i] == due[..i];
        var job := Take(due[i].1);
        if job.Some? { Perform(behave(job.value.id)); }
      }
      assert due[..|due|] == due;
    }
  }
}
