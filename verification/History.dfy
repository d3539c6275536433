// src/domain/history_tracker.cpp: the debounced most-recently-used list, as the client of the
// clock. `Hist` is the tracker together with its clock and the trace of validity questions; the
// class `HistoryTracker` performs the operations in place and is proved equal to the functions.

module History {
  import opened Wrappers
  import opened Sequences
  import opened Domain
  import opened Ports
  import opened Clock

  const MAX_DEBOUNCE_MS: nat := 5000

  datatype Tracker = Tracker(
    order: seq<WindowRef>, pending: nat, pendingRef: Option<WindowRef>, locked: bool, debounceMs: nat)

  datatype Hist = Hist(tracker: Tracker, clock: ClockState<WindowRef>, trace: Trace)

  function ClampDebounce(ms: nat): nat { if ms > MAX_DEBOUNCE_MS then MAX_DEBOUNCE_MS else ms }

  function PendingCancelled(h: Hist): Hist {
    if h.tracker.pending == INVALID_JOB then h.(tracker := h.tracker.(pendingRef := None))
    else h.(tracker := h.tracker.(pendingRef := None, pending := INVALID_JOB),
            clock := Cancelled(h.clock, h.tracker.pending))
  }

  function FocusSeen(h: Hist, ref: WindowRef): Hist {
    if h.tracker.locked then h
    else
      var h := PendingCancelled(h);
      h.(tracker := h.tracker.(pendingRef := Some(ref), pending := h.clock.nextJob),
         clock := Scheduled(h.clock, h.tracker.debounceMs, ref))
  }

  function LockSet(h: Hist, locked: bool): Hist {
    var h := if locked && !h.tracker.locked then PendingCancelled(h) else h;
    h.(tracker := h.tracker.(locked := locked))
  }

  function Committed(env: Env, h: Hist, ref: WindowRef): Hist {
    var answer := env.isValid(|h.trace|, ref);
    var order := if answer then MoveToFront(h.tracker.order, ref) else h.tracker.order;
    h.(tracker := h.tracker.(pending := INVALID_JOB, pendingRef := None, order := order),
       trace := h.trace + [AskedValid(ref, answer)])
  }

  function Flushed(env: Env, h: Hist): Hist {
    if h.tracker.pending == INVALID_JOB || h.tracker.pendingRef.None? then h
    else Committed(env, PendingCancelled(h), h.tracker.pendingRef.value)
  }

  function DebounceSet(h: Hist, ms: nat): Hist {
    h.(tracker := h.tracker.(debounceMs := ClampDebounce(ms)))
  }

  function SeededOne(env: Env, h: Hist, ref: WindowRef): Hist {
    var answer := env.isValid(|h.trace|, ref);
    var order := if answer && ref !in h.tracker.order then h.tracker.order + [ref] else h.tracker.order;
    h.(tracker := h.tracker.(order := order), trace := h.trace + [AskedValid(ref, answer)])
  }

  function Seeded(env: Env, h: Hist, initial: seq<WindowRef>): Hist {
    if initial == [] then h.(tracker := h.tracker.(order := []))
    else SeededOne(env, Seeded(env, h, initial[..|initial| - 1]), initial[|initial| - 1])
  }

  /** One entry of a sweep: the tracker's callback commits the window it was scheduled for. */
  function JobRan(env: Env, h: Hist, id: nat): Hist {
    var k := FindJob(h.clock.jobs, id);
    if k == |h.clock.jobs| then h
    else Committed(env, h.(clock := h.clock.(jobs := EraseAt(h.clock.jobs, k))), h.clock.jobs[k].callback)
  }

  function JobsRan(env: Env, h: Hist, due: seq<(nat, nat)>): Hist {
    if due == [] then h else JobRan(env, JobsRan(env, h, due[..|due| - 1]), due[|due| - 1].1)
  }

  lemma {:induction false} JobsRanStep(env: Env, h: Hist, due: seq<(nat, nat)>, i: nat)
    requires i < |due|
    ensures JobsRan(env, h, due[..i + 1]) == JobRan(env, JobsRan(env, h, due[..i]), due[i].1)
  {
    assert due[..i + 1][..i] == due[..i];
  }

  function ClockAdvanced(env: Env, h: Hist, ms: nat): Hist {
    var h := h.(clock := h.clock.(now := h.clock.now + ms));
    JobsRan(env, h, Sort(DueEntries(h.clock.jobs, h.clock.now)))
  }

  class HistoryTracker {
    const scheduler: FakeClock<WindowRef>
    const compositor: Compositor
    var debounceMs: nat
    var locked: bool
    var pending: nat
    var pendingRef: Option<WindowRef>
    var order: seq<WindowRef>

    ghost function Abs(): Hist
      reads this, scheduler, compositor
    {
      Hist(Tracker(order, pending, pendingRef, locked, debounceMs), scheduler.State(), compositor.trace)
    }

    constructor (scheduler: FakeClock<WindowRef>, compositor: Compositor, debounceMs: nat)
      ensures this.scheduler == scheduler && this.compositor == compositor
      ensures Abs() == Hist(Tracker([], INVALID_JOB, None, false, ClampDebounce(debounceMs)),
                            scheduler.State(), compositor.trace)
    {
      this.scheduler, this.compositor := scheduler, compositor;
      this.debounceMs := ClampDebounce(debounceMs);
      locked, pending, pendingRef, order := false, INVALID_JOB, None, [];
    }

    method CancelPending()
      modifies this, scheduler
      ensures Abs() == PendingCancelled(old(Abs()))
    {
      pendingRef := None;
      if pending == INVALID_JOB { return; }
      scheduler.Cancel(pending);
      pending := INVALID_JOB;
    }

    method OnFocus(ref: WindowRef)
      modifies this, scheduler
      ensures Abs() == FocusSeen(old(Abs()), ref)
    {
      if locked { return; }
      CancelPending();
      pendingRef := Some(ref);
      pending := scheduler.ScheduleAfter(debounceMs, ref);
    }

    method SetSessionLocked(on: bool)
      modifies this, scheduler
      ensures Abs() == LockSet(old(Abs()), on)
    {
      if on && !locked { CancelPending(); }
      locked := on;
    }

    method Commit(ref: WindowRef)
      modifies this, compositor
      ensures Abs() == Committed(compositor.env, old(Abs()), ref)
    {
      pending, pendingRef := INVALID_JOB, None;
      var answer := compositor.IsValid(ref);
      if !answer { return; }
      order := Without(order, ref);
      order := [ref] + order;
    }

    method FlushPending()
      modifies this, scheduler, compositor
      ensures Abs() == Flushed(compositor.env, old(Abs()))
    {
      if pending == INVALID_JOB || pendingRef.None? { return; }
      var ref := pendingRef.value;
      CancelPending();
      Commit(ref);
    }

    method SetDebounceMs(ms: nat)
      modifies this
      ensures Abs() == DebounceSet(old(Abs()), ms)
    {
      debounceMs := ClampDebounce(ms);
    }

    method Seed(initial: seq<WindowRef>)
      modifies this, compositor
      ensures Abs() == Seeded(compositor.env, old(Abs()), initial)
    {
      order := [];
      for i := 0 to |initial|
        invariant scheduler.State() == old(scheduler.State())
        invariant Abs() == Seeded(compositor.env, old(Abs()), initial[..i])
      {
        assert initial[..i + 1][..i] == initial[..i];
        var answer := compositor.IsValid(initial[i]);
        if !answer { continue; }
        if initial[i] in order { continue; }
        order := order + [initial[i]];
      }
      assert initial[..|initial|] == initial;
    }

    method RunEntry(id: nat)
      modifies this, scheduler, compositor
      ensures Abs() == JobRan(compositor.env, old(Abs()), id)
    {
      var job := scheduler.Take(id);
      if job.Some? { Commit(job.value.callback); }
    }

    /** The clock's sweep, running the tracker's callbacks. */
    method AdvanceClock(ms: nat)
      modifies this, scheduler, compositor
      ensures Abs() == ClockAdvanced(compositor.env, old(Abs()), ms)
    {
      var due := scheduler.BeginSweep(ms);
      ghost var begun := Abs();
      for i := 0 to |due|
        invariant Abs() == JobsRan(compositor.env, begun, due[..i])
      {
        JobsRanStep(compositor.env, begun, due, i);
        RunEntry(due[i].1);
      }
      assert due[..|due|] == due;
    }
  }
}
