// The debounce refinement: what the tracker's order is after any run of events, said without the
// tracker. The reading below looks at the list of events only: which focus events were accepted,
// when each was due, what withdrew it, and so which of them reached their commit.

module Debounced {
  import opened Wrappers
  import opened Sequences
  import opened Domain
  import opened Ports
  import opened Clock
  import opened History

  datatype Event = Focus(ref: WindowRef) | Lock(on: bool) | Flush | Debounce(ms: nat) | Pass(ms: nat)

  function Step(env: Env, h: Hist, e: Event): Hist {
    match e
    case Focus(ref) => FocusSeen(h, ref)
    case Lock(on) => LockSet(h, on)
    case Flush => Flushed(env, h)
    case Debounce(ms) => DebounceSet(h, ms)
    case Pass(ms) => ClockAdvanced(env, h, ms)
  }

  function Run(env: Env, h: Hist, es: seq<Event>): Hist {
    if es == [] then h else Step(env, Run(env, h, es[..|es| - 1]), es[|es| - 1])
  }

  ghost predicate Fresh(h: Hist) {
    && h.tracker.pending == INVALID_JOB && h.tracker.pendingRef == None && !h.tracker.locked
    && h.clock.jobs == [] && h.clock.nextJob > INVALID_JOB
  }

  // ---- the reading of an event list ------------------------------------------------------

  function Elapsed(es: seq<Event>): nat {
    if es == [] then 0
    else Elapsed(es[..|es| - 1]) + if es[|es| - 1].Pass? then es[|es| - 1].ms else 0
  }

  predicate Locked(es: seq<Event>) {
    if es == [] then false
    else if es[|es| - 1].Lock? then es[|es| - 1].on
    else Locked(es[..|es| - 1])
  }

  function DebounceMs(es: seq<Event>, initial: nat): nat {
    if es == [] then initial
    else if es[|es| - 1].Debounce? then ClampDebounce(es[|es| - 1].ms)
    else DebounceMs(es[..|es| - 1], initial)
  }

  /** The focus event at `k` arrived while history was unlocked. */
  predicate Accepted(es: seq<Event>, k: nat) {
    k < |es| && es[k].Focus? && !Locked(es[..k])
  }

  function Due(es: seq<Event>, k: nat, initial: nat): nat
    requires k <= |es|
  {
    Elapsed(es[..k]) + DebounceMs(es[..k], initial)
  }

  /** Event `i` takes back what is pending: a later accepted focus, or lock-in. */
  predicate Withdraws(es: seq<Event>, i: nat)
    requires i < |es|
  {
    Accepted(es, i) || (es[i] == Lock(true) && !Locked(es[..i]))
  }

  /** Event `j` flushes, or brings the time to the due time of the focus at `k`. */
  predicate Fires(es: seq<Event>, k: nat, j: nat, initial: nat)
    requires k < |es| && j < |es|
  {
    es[j].Flush? || (es[j].Pass? && Elapsed(es[..j + 1]) >= Due(es, k, initial))
  }

  ghost predicate Undisturbed(es: seq<Event>, k: nat, j: nat)
    requires j <= |es|
  {
    forall i :: k < i < j ==> !Withdraws(es, i)
  }

  /** The focus at `k` was accepted and reached its due time, or was flushed, before any later
      accepted focus or lock-in. */
  ghost predicate Reached(es: seq<Event>, k: nat, initial: nat) {
    Accepted(es, k) && exists j :: k < j < |es| && Fires(es, k, j, initial) && Undisturbed(es, k, j)
  }

  /** The focus events that reached their commit, in order. */
  ghost function Attempts(es: seq<Event>, m: nat, initial: nat): seq<WindowRef>
    requires m <= |es|
  {
    if m == 0 then []
    else
      var r := Attempts(es, m - 1, initial);
      if Reached(es, m - 1, initial) then r + [es[m - 1].ref] else r
  }

  /** Fold of move-to-front over the windows that were valid when asked; the i-th attempt asks the
      i-th question. */
  function Promoted(env: Env, asked: nat, order: seq<WindowRef>, refs: seq<WindowRef>): seq<WindowRef> {
    if refs == [] then order
    else
      var o := Promoted(env, asked, order, refs[..|refs| - 1]);
      if env.isValid(asked + |refs| - 1, refs[|refs| - 1]) then MoveToFront(o, refs[|refs| - 1]) else o
  }

  // ---- proof -----------------------------------------------------------------------------

  /** Accepted, not committed and not withdrawn so far. */
  ghost predicate Open(es: seq<Event>, k: nat, initial: nat) {
    k < |es| && Accepted(es, k) && !Reached(es, k, initial) && Undisturbed(es, k, |es|)
  }

  function LastAccepted(es: seq<Event>): (k: int)
    ensures -1 <= k < |es|
    ensures k >= 0 ==> Accepted(es, k)
    ensures forall i: nat :: k < i < |es| ==> !Accepted(es, i)
  {
    if es == [] then -1
    else if Accepted(es, |es| - 1) then |es| - 1
    else
      var k := LastAccepted(es[..|es| - 1]);
      assert forall i :: 0 <= i < |es| - 1 ==> es[..|es| - 1][..i] == es[..i];
      assert forall i: nat :: i < |es| - 1 ==> (Accepted(es, i) <==> Accepted(es[..|es| - 1], i));
      k
  }

  lemma {:induction false} PrefixStable(es: seq<Event>, e: Event)
    ensures forall k :: 0 <= k <= |es| ==> (es + [e])[..k] == es[..k]
    ensures forall k :: 0 <= k < |es| ==> (Accepted(es + [e], k) <==> Accepted(es, k))
    ensures forall k :: 0 <= k < |es| ==> (Withdraws(es + [e], k) <==> Withdraws(es, k))
    ensures forall k, d :: 0 <= k < |es| ==> Due(es + [e], k, d) == Due(es, k, d)
    ensures forall k, j, d :: 0 <= k < |es| && 0 <= j < |es| ==> (Fires(es + [e], k, j, d) <==> Fires(es, k, j, d))
  {
    assert forall k :: 0 <= k <= |es| ==> (es + [e])[..k] == es[..k];
  }

  lemma {:induction false} ReachedSnoc(es: seq<Event>, e: Event, k: nat, initial: nat)
    requires k < |es|
    ensures Reached(es + [e], k, initial)
       <==> Reached(es, k, initial) || (Open(es, k, initial) && Fires(es + [e], k, |es|, initial))
  {
    var es' := es + [e];
    PrefixStable(es, e);
    assert forall j :: 0 <= j <= |es| ==> (Undisturbed(es', k, j) <==> Undisturbed(es, k, j));
    if Reached(es, k, initial) {
      var j :| k < j < |es| && Fires(es, k, j, initial) && Undisturbed(es, k, j);
      assert Fires(es', k, j, initial) && Undisturbed(es', k, j);
    }
    if Reached(es', k, initial) {
      var j :| k < j < |es'| && Fires(es', k, j, initial) && Undisturbed(es', k, j);
      if j < |es| {
        assert Fires(es, k, j, initial) && Undisturbed(es, k, j);
      } else {
        assert Undisturbed(es, k, |es|);
      }
    }
  }

  lemma {:induction false} OpenSnoc(es: seq<Event>, e: Event, k: nat, initial: nat)
    requires k < |es|
    ensures Open(es + [e], k, initial)
       <==> Open(es, k, initial) && !Withdraws(es + [e], |es|) && !Fires(es + [e], k, |es|, initial)
  {
    var es' := es + [e];
    PrefixStable(es, e);
    ReachedSnoc(es, e, k, initial);
    assert Undisturbed(es', k, |es'|) <==> Undisturbed(es, k, |es|) && !Withdraws(es', |es|);
  }

  lemma {:induction false} OpenIsLast(es: seq<Event>, k: nat, initial: nat)
    requires Open(es, k, initial)
    ensures k == LastAccepted(es)
  {
    if k < LastAccepted(es) { assert Withdraws(es, LastAccepted(es)); }
  }

  lemma {:induction false} AttemptsQuiet(es: seq<Event>, e: Event, m: nat, initial: nat)
    requires m <= |es|
    requires forall k :: 0 <= k < m ==> !(Open(es, k, initial) && Fires(es + [e], k, |es|, initial))
    ensures Attempts(es + [e], m, initial) == Attempts(es, m, initial)
  {
    if m > 0 {
      AttemptsQuiet(es, e, m - 1, initial);
      ReachedSnoc(es, e, m - 1, initial);
    }
  }

  lemma {:induction false} AttemptsFired(es: seq<Event>, e: Event, k: nat, m: nat, initial: nat)
    requires k < m <= |es|
    requires Open(es, k, initial) && Fires(es + [e], k, |es|, initial)
    ensures Attempts(es + [e], m, initial) == Attempts(es, m, initial) + [es[k].ref]
  {
    ReachedSnoc(es, e, m - 1, initial);
    if m == k + 1 {
      forall k' | 0 <= k' < k ensures !Open(es, k', initial) {
        if Open(es, k', initial) { OpenIsLast(es, k', initial); OpenIsLast(es, k, initial); }
      }
      AttemptsQuiet(es, e, k, initial);
    } else {
      AttemptsFired(es, e, k, m - 1, initial);
      assert !Open(es, m - 1, initial) && !Reached(es, m - 1, initial) by { OpenIsLast(es, k, initial); }
    }
  }

  ghost predicate InvReading(h0: Hist, es: seq<Event>, h: Hist) {
    && h.tracker.locked == Locked(es)
    && h.clock.now == h0.clock.now + Elapsed(es)
    && h.tracker.debounceMs == DebounceMs(es, h0.tracker.debounceMs)
    && h.clock.nextJob > INVALID_JOB
  }

  ghost predicate InvOrder(env: Env, h0: Hist, es: seq<Event>, h: Hist) {
    var attempts := Attempts(es, |es|, h0.tracker.debounceMs);
    && h.tracker.order == Promoted(env, |h0.trace|, h0.tracker.order, attempts)
    && |h.trace| == |h0.trace| + |attempts|
  }

  ghost predicate InvPending(h0: Hist, es: seq<Event>, h: Hist) {
    var d := h0.tracker.debounceMs;
    var k := LastAccepted(es);
    && (h.tracker.pending != INVALID_JOB <==> k >= 0 && Open(es, k, d))
    && (h.tracker.pending == INVALID_JOB ==> h.clock.jobs == [] && h.tracker.pendingRef == None)
    && (h.tracker.pending != INVALID_JOB ==>
          && h.clock.jobs == [Job(h.tracker.pending, h0.clock.now + Due(es, k, d), es[k].ref)]
          && h.tracker.pendingRef == Some(es[k].ref)
          && !h.tracker.locked)
  }

  ghost predicate Inv(env: Env, h0: Hist, es: seq<Event>, h: Hist) {
    InvReading(h0, es, h) && InvOrder(env, h0, es, h) && InvPending(h0, es, h)
  }

  lemma {:induction false} NotOpen(env: Env, h0: Hist, es: seq<Event>, h: Hist, k: nat)
    requires Inv(env, h0, es, h) && k < |es|
    requires h.tracker.pending == INVALID_JOB || k != LastAccepted(es)
    ensures !Open(es, k, h0.tracker.debounceMs)
  {
    if Open(es, k, h0.tracker.debounceMs) { OpenIsLast(es, k, h0.tracker.debounceMs); }
  }

  /** An event that fires nothing leaves the attempts as they were. */
  lemma {:induction false} QuietAttempts(env: Env, h0: Hist, es: seq<Event>, h: Hist, e: Event)
    requires Inv(env, h0, es, h)
    requires h.tracker.pending != INVALID_JOB ==> !Fires(es + [e], LastAccepted(es), |es|, h0.tracker.debounceMs)
    ensures Attempts(es + [e], |es| + 1, h0.tracker.debounceMs) == Attempts(es, |es|, h0.tracker.debounceMs)
  {
    var d := h0.tracker.debounceMs;
    forall k | 0 <= k < |es| ensures !(Open(es, k, d) && Fires(es + [e], k, |es|, d)) {
      if h.tracker.pending == INVALID_JOB || k != LastAccepted(es) { NotOpen(env, h0, es, h, k); }
    }
    AttemptsQuiet(es, e, |es|, d);
    assert !Reached(es + [e], |es|, d);
  }

  lemma {:induction false} LastAcceptedSnoc(es: seq<Event>, e: Event)
    ensures LastAccepted(es + [e]) == if e.Focus? && !Locked(es) then |es| else LastAccepted(es)
  {
    assert (es + [e])[..|es|] == es;
  }

  lemma {:induction false} ReadingSnoc(es: seq<Event>, e: Event, d: nat)
    ensures Elapsed(es + [e]) == Elapsed(es) + if e.Pass? then e.ms else 0
    ensures Locked(es + [e]) == if e.Lock? then e.on else Locked(es)
    ensures DebounceMs(es + [e], d) == if e.Debounce? then ClampDebounce(e.ms) else DebounceMs(es, d)
  {
    assert (es + [e])[..|es|] == es;
  }

  /** Step case: nothing fires and what is pending stays pending. */
  lemma {:induction false} StepIdle(env: Env, h0: Hist, es: seq<Event>, h: Hist, e: Event)
    requires Inv(env, h0, es, h)
    requires e.Debounce? || e == Lock(false) || (Locked(es) && (e.Focus? || e.Lock?))
          || (e.Flush? && h.tracker.pending == INVALID_JOB)
    ensures Inv(env, h0, es + [e], Step(env, h, e))
  {
    var d, k, es' := h0.tracker.debounceMs, LastAccepted(es), es + [e];
    PrefixStable(es, e);
    LastAcceptedSnoc(es, e);
    ReadingSnoc(es, e, d);
    QuietAttempts(env, h0, es, h, e);
    if k >= 0 { OpenSnoc(es, e, k, d); }
  }

  /** Step case: an accepted focus replaces what is pending. */
  lemma {:induction false} StepFocus(env: Env, h0: Hist, es: seq<Event>, h: Hist, ref: WindowRef)
    requires Inv(env, h0, es, h) && !Locked(es)
    ensures Inv(env, h0, es + [Focus(ref)], Step(env, h, Focus(ref)))
  {
    var e := Focus(ref);
    var d, es' := h0.tracker.debounceMs, es + [e];
    PrefixStable(es, e);
    LastAcceptedSnoc(es, e);
    ReadingSnoc(es, e, d);
    QuietAttempts(env, h0, es, h, e);
    SingleCancel(h);
    assert es'[..|es|] == es;
    assert Open(es', |es|, d);
  }

  /** Step case: lock-in withdraws what is pending. */
  lemma {:induction false} StepLock(env: Env, h0: Hist, es: seq<Event>, h: Hist)
    requires Inv(env, h0, es, h) && !Locked(es)
    ensures Inv(env, h0, es + [Lock(true)], Step(env, h, Lock(true)))
  {
    var e := Lock(true);
    var d, k := h0.tracker.debounceMs, LastAccepted(es);
    PrefixStable(es, e);
    LastAcceptedSnoc(es, e);
    ReadingSnoc(es, e, d);
    QuietAttempts(env, h0, es, h, e);
    SingleCancel(h);
    assert (es + [e])[..|es|] == es;
    if k >= 0 { OpenSnoc(es, e, k, d); }
  }

  lemma {:induction false} SingleCancel(h: Hist)
    requires h.tracker.pending != INVALID_JOB ==> |h.clock.jobs| == 1 && h.clock.jobs[0].id == h.tracker.pending
    requires h.tracker.pending == INVALID_JOB ==> h.clock.jobs == []
    ensures PendingCancelled(h).clock.jobs == []
  {
    if h.tracker.pending != INVALID_JOB {
      var front := h.clock.jobs[..|h.clock.jobs| - 1];
      assert front == [] && RemoveJob(front, h.tracker.pending) == [];
    }
  }

  /** A commit of the pending window, from whichever side it comes. */
  lemma {:induction false} StepFires(env: Env, h0: Hist, es: seq<Event>, h: Hist, e: Event, h': Hist)
    requires Inv(env, h0, es, h) && h.tracker.pending != INVALID_JOB
    requires e.Flush? || e.Pass?
    requires Fires(es + [e], LastAccepted(es), |es|, h0.tracker.debounceMs)
    requires h'.clock.jobs == [] && h'.clock.nextJob == h.clock.nextJob
    requires h'.clock.now == h.clock.now + if e.Pass? then e.ms else 0
    requires h'.tracker == Committed(env, h, h.tracker.pendingRef.value).tracker
    requires |h'.trace| == |h.trace| + 1
    ensures Inv(env, h0, es + [e], h')
  {
    ReadingSnoc(es, e, h0.tracker.debounceMs);
    FiredAttempts(es, e, h0.tracker.debounceMs);
    FiredOrder(env, h0, es, h, e, es[LastAccepted(es)].ref, h');
    FiredPending(h0, es, h, e, h');
  }

  lemma {:induction false} FiredOrder(env: Env, h0: Hist, es: seq<Event>, h: Hist, e: Event, ref: WindowRef, h': Hist)
    requires InvOrder(env, h0, es, h)
    requires Attempts(es + [e], |es| + 1, h0.tracker.debounceMs) == Attempts(es, |es|, h0.tracker.debounceMs) + [ref]
    requires h'.tracker == Committed(env, h, ref).tracker
    requires |h'.trace| == |h.trace| + 1
    ensures InvOrder(env, h0, es + [e], h')
  {
    PromotedSnoc(env, |h0.trace|, h0.tracker.order, Attempts(es, |es|, h0.tracker.debounceMs), ref);
    assert |es + [e]| == |es| + 1;
  }

  lemma {:induction false} FiredPending(h0: Hist, es: seq<Event>, h: Hist, e: Event, h': Hist)
    requires InvPending(h0, es, h) && h.tracker.pending != INVALID_JOB
    requires e.Flush? || e.Pass?
    requires Fires(es + [e], LastAccepted(es), |es|, h0.tracker.debounceMs)
    requires h'.clock.jobs == [] && h'.tracker.pending == INVALID_JOB && h'.tracker.pendingRef == None
    ensures InvPending(h0, es + [e], h')
  {
    LastAcceptedSnoc(es, e);
    OpenSnoc(es, e, LastAccepted(es), h0.tracker.debounceMs);
  }

  lemma {:induction false} FiredAttempts(es: seq<Event>, e: Event, d: nat)
    requires e.Flush? || e.Pass?
    requires var k := LastAccepted(es); k >= 0 && Open(es, k, d) && Fires(es + [e], k, |es|, d)
    ensures Attempts(es + [e], |es| + 1, d) == Attempts(es, |es|, d) + [es[LastAccepted(es)].ref]
  {
    PrefixStable(es, e);
    AttemptsFired(es, e, LastAccepted(es), |es|, d);
    assert !Reached(es + [e], |es|, d);
  }

  lemma {:induction false} PromotedSnoc(env: Env, asked: nat, order: seq<WindowRef>, refs: seq<WindowRef>,
                                        ref: WindowRef)
    ensures Promoted(env, asked, order, refs + [ref])
         == (var o := Promoted(env, asked, order, refs);
             if env.isValid(asked + |refs|, ref) then MoveToFront(o, ref) else o)
  {
    assert (refs + [ref])[..|refs|] == refs;
  }

  lemma {:induction false} StepPass(env: Env, h0: Hist, es: seq<Event>, h: Hist, ms: nat)
    requires Inv(env, h0, es, h)
    ensures Inv(env, h0, es + [Pass(ms)], Step(env, h, Pass(ms)))
  {
    var e := Pass(ms);
    var d, k, es' := h0.tracker.debounceMs, LastAccepted(es), es + [e];
    PrefixStable(es, e);
    ReadingSnoc(es, e, d);
    assert es'[..|es| + 1] == es';
    SingleSweep(env, h, ms);
    if h.tracker.pending != INVALID_JOB && Fires(es', k, |es|, d) {
      StepFires(env, h0, es, h, e, Step(env, h, e));
    } else {
      LastAcceptedSnoc(es, e);
      QuietAttempts(env, h0, es, h, e);
      if k >= 0 { OpenSnoc(es, e, k, d); }
    }
  }

  /** A sweep of a clock that holds at most the tracker's own job. */
  lemma {:induction false} SingleSweep(env: Env, h: Hist, ms: nat)
    requires |h.clock.jobs| <= 1
    ensures var h' := ClockAdvanced(env, h, ms);
            var c := h.clock.(now := h.clock.now + ms);
            if |h.clock.jobs| == 1 && h.clock.jobs[0].runAt <= h.clock.now + ms
            then h' == Committed(env, h.(clock := c.(jobs := [])), h.clock.jobs[0].callback)
            else h' == h.(clock := c)
  {
    var jobs, now := h.clock.jobs, h.clock.now + ms;
    if jobs != [] {
      var front := jobs[..|jobs| - 1];
      assert front == [];
      if jobs[0].runAt <= now { SingleDue(env, h.(clock := h.clock.(now := now))); }
    }
  }

  lemma {:induction false} SingleDue(env: Env, h: Hist)
    requires |h.clock.jobs| == 1 && h.clock.jobs[0].runAt <= h.clock.now
    ensures JobsRan(env, h, Sort(DueEntries(h.clock.jobs, h.clock.now)))
         == Committed(env, h.(clock := h.clock.(jobs := [])), h.clock.jobs[0].callback)
  {
    var jobs := h.clock.jobs;
    var entry := (jobs[0].runAt, jobs[0].id);
    var due := [entry];
    var front, none := jobs[..|jobs| - 1], due[..|due| - 1];
    assert front == [] && none == [];
    assert DueEntries(front, h.clock.now) == [];
    assert DueEntries(jobs, h.clock.now) == due;
    assert Sort(none) == [];
    assert Sort(due) == due;
    assert EraseAt(jobs, 0) == [];
    assert JobsRan(env, h, none) == h;
  }

  lemma {:induction false} StepFlush(env: Env, h0: Hist, es: seq<Event>, h: Hist)
    requires Inv(env, h0, es, h)
    ensures Inv(env, h0, es + [Flush], Step(env, h, Flush))
  {
    if h.tracker.pending == INVALID_JOB {
      StepIdle(env, h0, es, h, Flush);
    } else {
      SingleCancel(h);
      PrefixStable(es, Flush);
      StepFires(env, h0, es, h, Flush, Step(env, h, Flush));
    }
  }

  lemma {:induction false} RunInv(env: Env, h0: Hist, es: seq<Event>)
    requires Fresh(h0)
    ensures Inv(env, h0, es, Run(env, h0, es))
  {
    if es != [] {
      var front, e := es[..|es| - 1], es[|es| - 1];
      RunInv(env, h0, front);
      var h := Run(env, h0, front);
      assert es == front + [e];
      match e
      case Focus(ref) =>
        if Locked(front) { StepIdle(env, h0, front, h, e); } else { StepFocus(env, h0, front, h, ref); }
      case Lock(on) => if on && !Locked(front) { StepLock(env, h0, front, h); } else { StepIdle(env, h0, front, h, e); }
      case Flush => StepFlush(env, h0, front, h);
      case Debounce(ms) => StepIdle(env, h0, front, h, e);
      case Pass(ms) => StepPass(env, h0, front, h, ms);
    }
  }

  // ---- main results ----------------------------------------------------------------------

  /** For every run and every changing validity: the order is the fold of move-to-front over exactly
      the focus events that reached their commit and were valid when asked. */
  lemma {:induction false} DebounceRefinement(env: Env, h0: Hist, es: seq<Event>)
    requires Fresh(h0)
    ensures Run(env, h0, es).tracker.order
         == Promoted(env, |h0.trace|, h0.tracker.order, Attempts(es, |es|, h0.tracker.debounceMs))
  {
    RunInv(env, h0, es);
  }

  /** The clock holds a job exactly while a promotion is pending, and then only that one: for the
      last accepted focus, at its due time. */
  lemma {:induction false} OneJobIffPending(env: Env, h0: Hist, es: seq<Event>)
    requires Fresh(h0)
    ensures var h := Run(env, h0, es);
            && |h.clock.jobs| <= 1
            && (h.clock.jobs != [] <==> h.tracker.pending != INVALID_JOB)
            && (h.tracker.pending != INVALID_JOB <==> h.tracker.pendingRef.Some?)
            && (h.tracker.pending != INVALID_JOB ==>
                  var k := LastAccepted(es);
                  && k >= 0
                  && h.clock.jobs[0]
                       == Job(h.tracker.pending, h0.clock.now + Due(es, k, h0.tracker.debounceMs), es[k].ref))
  {
    RunInv(env, h0, es);
  }
}
