// What every run of the controller keeps, whatever the ports answer.

module SessionLaws {
  import opened Wrappers
  import opened Sequences
  import opened Domain
  import opened Ports
  import opened Clock
  import opened History
  import opened Session
  import Debounced

  /** The clock holds the tracker's one job exactly while a promotion is pending. */
  ghost predicate JobIffPending(h: Hist) {
    && h.clock.nextJob > INVALID_JOB
    && (h.tracker.pending == INVALID_JOB ==> h.clock.jobs == [] && h.tracker.pendingRef == None)
    && (h.tracker.pending != INVALID_JOB ==>
          && h.tracker.pendingRef.Some?
          && |h.clock.jobs| == 1
          && h.clock.jobs[0].id == h.tracker.pending
          && h.clock.jobs[0].callback == h.tracker.pendingRef.value)
  }

  /** Active, snapshot present and history locked go together; then nothing is pending. */
  ghost predicate Inv(s: Sys) {
    && Coherent(s.ctl)
    && JobIffPending(s.hist)
    && s.ctl.active == s.hist.tracker.locked
    && (s.ctl.active ==> s.hist.tracker.pending == INVALID_JOB)
  }

  /** `b` is a later moment of the session that is open in `a`. */
  ghost predicate SameSession(a: Sys, b: Sys)
    requires a.ctl.active && Coherent(a.ctl) && Coherent(b.ctl)
  {
    && b.ctl.active
    && b.ctl.sessionId == a.ctl.sessionId
    && b.hist.tracker.order == a.hist.tracker.order
    && Subsequence(b.ctl.snapshot.value.windows, a.ctl.snapshot.value.windows)
    && b.ctl.snapshot.value.scope == a.ctl.snapshot.value.scope
    && b.ctl.frozen == a.ctl.frozen
    && b.ctl.origin == a.ctl.origin
  }

  // ---- tracker operations keep JobIffPending ---------------------------------------------

  lemma {:induction false} CancelClears(h: Hist)
    requires JobIffPending(h)
    ensures var h' := PendingCancelled(h);
            && JobIffPending(h') && h'.tracker.pending == INVALID_JOB && h'.clock.jobs == []
            && h'.clock.nextJob == h.clock.nextJob && h'.clock.now == h.clock.now
  {
    if h.tracker.pending != INVALID_JOB {
      var front := h.clock.jobs[..|h.clock.jobs| - 1];
      assert front == [] && RemoveJob(front, h.tracker.pending) == [];
    }
  }

  lemma {:induction false} FocusSeenKeeps(h: Hist, ref: WindowRef)
    requires JobIffPending(h)
    ensures JobIffPending(FocusSeen(h, ref))
    ensures !h.tracker.locked ==>
              FocusSeen(h, ref).tracker.pendingRef == Some(ref) && FocusSeen(h, ref).tracker.pending != INVALID_JOB
  {
    if !h.tracker.locked { CancelClears(h); }
  }

  lemma {:induction false} FlushedKeeps(env: Env, h: Hist)
    requires JobIffPending(h)
    ensures JobIffPending(Flushed(env, h)) && Flushed(env, h).tracker.pending == INVALID_JOB
  {
    if h.tracker.pending != INVALID_JOB { CancelClears(h); }
  }

  lemma {:induction false} LockSetKeeps(h: Hist, locked: bool)
    requires JobIffPending(h)
    ensures JobIffPending(LockSet(h, locked))
    ensures locked && !h.tracker.locked ==> LockSet(h, locked).tracker.pending == INVALID_JOB
  {
    if locked && !h.tracker.locked { CancelClears(h); }
  }

  /** A sweep of a clock that holds at most the tracker's own job. */
  lemma {:induction false} AdvancedIs(env: Env, h: Hist, ms: nat)
    requires JobIffPending(h)
    ensures ClockAdvanced(env, h, ms) ==
            var c := h.clock.(now := h.clock.now + ms);
            if h.tracker.pending != INVALID_JOB && h.clock.jobs[0].runAt <= h.clock.now + ms
            then Committed(env, h.(clock := c.(jobs := [])), h.tracker.pendingRef.value)
            else h.(clock := c)
  {
    Debounced.SingleSweep(env, h, ms);
  }

  lemma {:induction false} AdvancedKeeps(env: Env, h: Hist, ms: nat)
    requires JobIffPending(h)
    ensures JobIffPending(ClockAdvanced(env, h, ms))
    ensures h.tracker.pending == INVALID_JOB ==>
              ClockAdvanced(env, h, ms) == h.(clock := h.clock.(now := h.clock.now + ms))
    ensures ClockAdvanced(env, h, ms).tracker.locked == h.tracker.locked
  {
    AdvancedIs(env, h, ms);
  }

  lemma {:induction false} AllHeardKeeps(s: Sys, refs: seq<WindowRef>)
    requires Inv(s)
    ensures Inv(AllHeard(s, refs))
  {
    if refs != [] {
      var s' := AllHeard(s, refs[..|refs| - 1]);
      AllHeardKeeps(s, refs[..|refs| - 1]);
      if !s'.ctl.active { FocusSeenKeeps(s'.hist, refs[|refs| - 1]); }
    }
  }

  // ---- pruning ---------------------------------------------------------------------------

  lemma {:induction false} SurvivorsAre(env: Env, asked: nat, refs: seq<WindowRef>)
    ensures Subsequence(Survivors(env, asked, refs), refs)
  {
    if refs != [] { SurvivorsAre(env, asked, refs[..|refs| - 1]); }
  }

  /** Pruning leaves history alone and only deletes windows. */
  lemma {:induction false} PrunedIs(env: Env, s: Sys)
    requires s.ctl.snapshot.Some?
    ensures var s' := Pruned(env, s);
            && s'.hist == s.hist.(trace := s'.hist.trace)
            && s'.ctl == s.ctl.(snapshot := s'.ctl.snapshot, index := s'.ctl.index)
            && s'.ctl.snapshot.Some?
            && s'.ctl.snapshot.value.scope == s.ctl.snapshot.value.scope
            && Subsequence(s'.ctl.snapshot.value.windows, s.ctl.snapshot.value.windows)
            && (s'.ctl.snapshot.value.windows != [] ==> s'.ctl.index < |s'.ctl.snapshot.value.windows|)
  {
    SurvivorsAre(env, |s.hist.trace|, s.ctl.snapshot.value.windows);
  }

  /** While Active, resolving and focusing changes the snapshot, the index and the trace only. */
  lemma {:induction false} ResolvedIs(env: Env, s: Sys)
    requires s.ctl.snapshot.Some? && s.ctl.active
    ensures var s' := Resolved(env, s).sys;
            && s'.hist == s.hist.(trace := s'.hist.trace)
            && s'.ctl == s.ctl.(snapshot := s'.ctl.snapshot, index := s'.ctl.index)
            && s'.ctl.snapshot.value.scope == s.ctl.snapshot.value.scope
            && Subsequence(s'.ctl.snapshot.value.windows, s.ctl.snapshot.value.windows)
  {
    var s1 := Pruned(env, s);
    PrunedIs(env, s);
    if s1.ctl.snapshot.value.windows != [] {
      var ref := s1.ctl.snapshot.value.windows[s1.ctl.index];
      var s2 := Logged(s1, AskedValid(ref, env.isValid(|s1.hist.trace|, ref)));
      PrunedIs(env, s2);
      SubsequenceTransitive(Pruned(env, s2).ctl.snapshot.value.windows, s1.ctl.snapshot.value.windows,
                            s.ctl.snapshot.value.windows);
    }
  }

  // ---- steps -----------------------------------------------------------------------------

  lemma {:induction false} EndedKeeps(s: Sys, reason: EndReason)
    requires JobIffPending(s.hist)
    ensures Inv(Ended(s, reason)) && !Ended(s, reason).ctl.active
  {
    LockSetKeeps(s.hist, false);
  }

  lemma {:induction false} CompletedKeeps(s: Sys)
    requires JobIffPending(s.hist) && s.ctl.snapshot.Some? && s.ctl.index < |s.ctl.snapshot.value.windows|
    ensures Inv(ApplyCompleted(s).sys) && !ApplyCompleted(s).sys.ctl.active
  {
    EndedKeeps(s, AppliedEnd);
    FocusSeenKeeps(Ended(s, AppliedEnd).hist, s.ctl.snapshot.value.windows[s.ctl.index]);
  }

  lemma {:induction false} ApplyKeeps(env: Env, s: Sys)
    requires Inv(s) && s.ctl.active
    ensures var s' := ApplyDone(env, s).sys;
            Inv(s') && !s'.ctl.active && s'.ctl.sessionId == s.ctl.sessionId
  {
    var first := Resolved(env, s);
    ResolvedIs(env, s);
    match first.result
    case None => EndedKeeps(first.sys, NoWindows);
    case Some(Applied) => CompletedKeeps(first.sys);
    case Some(Failed) => EndedKeeps(first.sys, FocusFailed);
    case Some(InvalidTarget) =>
      var second := Resolved(env, first.sys);
      ResolvedIs(env, first.sys);
      match second.result
      case None => EndedKeeps(second.sys, NoWindows);
      case Some(Applied) => CompletedKeeps(second.sys);
      case Some(Failed) => EndedKeeps(second.sys, FocusFailed);
      case Some(InvalidTarget) => EndedKeeps(second.sys, InvalidSelection);
  }

  lemma {:induction false} CancelKeeps(env: Env, s: Sys)
    requires Inv(s) && s.ctl.active
    ensures var s' := CancelDone(env, s).sys;
            Inv(s') && !s'.ctl.active && s'.ctl.sessionId == s.ctl.sessionId
  {
    var s1 := Ended(s, UserCancel);
    EndedKeeps(s, UserCancel);
    if s.ctl.frozen.restoreFocusOnCancel && s.ctl.origin.Some? {
      var origin := s.ctl.origin.value;
      var s2 := Logged(s1, AskedValid(origin, env.isValid(|s1.hist.trace|, origin)));
      var asked := |s2.hist.trace|;
      AllHeardKeeps(Logged(s2, Focused(origin, env.focus(asked, origin))), env.reentry(asked, origin));
    }
  }

  lemma {:induction false} BegunKeeps(env: Env, s: Sys, scope: Scope)
    requires Inv(s) && !s.ctl.active
    ensures var s' := SessionBegun(env, s, scope).sys;
            && Inv(s')
            && s'.ctl.sessionId == s.ctl.sessionId + (if s'.ctl.active then 1 else 0)
            && (s'.ctl.active ==> s'.ctl.frozen == s.ctl.policy)
  {
    FlushedKeeps(env, s.hist);
    LockSetKeeps(Flushed(env, s.hist), true);
  }

  lemma {:induction false} LostKeeps(env: Env, s: Sys, ref: WindowRef)
    requires Inv(s) && s.ctl.active
    ensures var s' := WindowLost(env, s, ref);
            && Inv(s') && s'.ctl.sessionId == s.ctl.sessionId
            && (s'.ctl.active ==> SameSession(s, s'))
  {
    var s1 := Pruned(env, s);
    PrunedIs(env, s);
    SubsequenceReflexive(s.ctl.snapshot.value.windows);
    if s1.ctl.snapshot.value.windows == [] { EndedKeeps(s1, NoWindows); }
  }

  /** Every command keeps the invariant; a command in a session either ends it or leaves it the
      same session; a new session gets the next id. */
  lemma {:induction false} StepKeeps(env: Env, s: Sys, cmd: Command)
    requires Inv(s)
    ensures var s' := Step(env, s, cmd).sys;
            && Inv(s')
            && (s.ctl.active ==> s'.ctl.sessionId == s.ctl.sessionId)
            && (s.ctl.active && s'.ctl.active ==> SameSession(s, s'))
            && (!s.ctl.active ==> s'.ctl.sessionId == s.ctl.sessionId + if s'.ctl.active then 1 else 0)
  {
    if s.ctl.active {
      SubsequenceReflexive(s.ctl.snapshot.value.windows);
      ActiveStepKeeps(env, s, cmd);
    } else {
      match cmd
      case Cycle(dir, scope) => BegunKeeps(env, s, if scope.Some? then scope.value else s.ctl.policy.defaultScope);
      case FocusEvent(ref) => FocusSeenKeeps(s.hist, ref);
      case Pass(ms) => AdvancedKeeps(env, s.hist, ms);
      case _ =>
    }
  }

  lemma {:induction false} ActiveStepKeeps(env: Env, s: Sys, cmd: Command)
    requires Inv(s) && s.ctl.active
    requires Subsequence(s.ctl.snapshot.value.windows, s.ctl.snapshot.value.windows)
    ensures var s' := Step(env, s, cmd).sys;
            Inv(s') && s'.ctl.sessionId == s.ctl.sessionId && (s'.ctl.active ==> SameSession(s, s'))
  {
    match cmd
    case Apply => ApplyKeeps(env, s);
    case Cancel => CancelKeeps(env, s);
    case Shutdown => EndedKeeps(s, PluginShutdown);
    case WindowInvalid(ref) => LostKeeps(env, s, ref);
    case Pass(ms) => AdvancedKeeps(env, s.hist, ms);
    case _ =>
  }

  // ---- main results ----------------------------------------------------------------------

  /** Seeding keeps the first occurrence of every window that was valid when its own entry was asked
      about, in the given order, and forgets the order of before. */
  lemma {:induction false} SeedKeepsFirstValid(env: Env, h: Hist, initial: seq<WindowRef>)
    ensures var r := Seeded(env, h, initial);
            && r.tracker.order == FirstOccurrences(Survivors(env, |h.trace|, initial))
            && |r.trace| == |h.trace| + |initial|
  {
    if initial != [] {
      var front, last := initial[..|initial| - 1], initial[|initial| - 1];
      SeedKeepsFirstValid(env, h, front);
      FirstOccurrencesSnoc(Survivors(env, |h.trace|, front), last);
      assert env.isValid(|Seeded(env, h, front).trace|, last) == env.isValid(|h.trace| + |initial| - 1, last);
    }
  }

  lemma {:induction false} RunInv(env: Env, s: Sys, cmds: seq<Command>)
    requires Inv(s)
    ensures Inv(Run(env, s, cmds))
  {
    if cmds != [] {
      RunInv(env, s, cmds[..|cmds| - 1]);
      StepKeeps(env, Run(env, s, cmds[..|cmds| - 1]), cmds[|cmds| - 1]);
    }
  }

  /** After any commands, with any answers: Active, snapshot present and tracker locked coincide;
      while Active the snapshot is non-empty, the index is inside and nothing is pending. */
  lemma {:induction false} WholeRunInvariant(env: Env, policy: SessionPolicy, debounceMs: nat, cmds: seq<Command>)
    ensures var s := Run(env, Initial(policy, debounceMs), cmds);
            && (s.ctl.active <==> s.ctl.snapshot.Some?)
            && (s.ctl.active <==> s.hist.tracker.locked)
            && (s.ctl.active ==>
                  && s.ctl.snapshot.value.windows != []
                  && s.ctl.index < |s.ctl.snapshot.value.windows|
                  && s.hist.tracker.pending == INVALID_JOB && s.hist.tracker.pendingRef == None
                  && s.hist.clock.jobs == [])
  {
    RunInv(env, Initial(policy, debounceMs), cmds);
  }

  /** From any moment of a session to any later moment of it, whatever happens in between: the
      order has not moved, the snapshot has only lost windows and kept its scope, and the frozen
      policy and the origin are those of the start. */
  lemma {:induction false} SessionIsFrozen(env: Env, s: Sys, cmds: seq<Command>)
    requires Inv(s) && s.ctl.active
    ensures var r := Run(env, s, cmds);
            && r.ctl.sessionId >= s.ctl.sessionId
            && (r.ctl.active && r.ctl.sessionId == s.ctl.sessionId ==> SameSession(s, r))
  {
    if cmds == [] {
      SubsequenceReflexive(s.ctl.snapshot.value.windows);
    } else {
      var front := cmds[..|cmds| - 1];
      var mid := Run(env, s, front);
      SessionIsFrozen(env, s, front);
      RunInv(env, s, front);
      StepKeeps(env, mid, cmds[|cmds| - 1]);
      var r := Step(env, mid, cmds[|cmds| - 1]).sys;
      if r.ctl.active && r.ctl.sessionId == s.ctl.sessionId {
        SubsequenceTransitive(r.ctl.snapshot.value.windows, mid.ctl.snapshot.value.windows,
                              s.ctl.snapshot.value.windows);
      }
    }
  }

  // ---- no window twice -------------------------------------------------------------------

  /** Neither the order nor the open session's snapshot has a window twice. */
  ghost predicate NoDuplicates(s: Sys) {
    && Distinct(s.hist.tracker.order)
    && (s.ctl.active && s.ctl.snapshot.Some? ==> Distinct(s.ctl.snapshot.value.windows))
  }

  ghost predicate DistinctCandidates(env: Env) {
    forall n, scope, order :: Distinct(env.candidates(n, scope, order))
  }

  lemma {:induction false} CommittedDistinct(env: Env, h: Hist, ref: WindowRef)
    requires Distinct(h.tracker.order)
    ensures Distinct(Committed(env, h, ref).tracker.order)
  {
    MoveToFrontDistinct(h.tracker.order, ref);
  }

  lemma {:induction false} FlushedDistinct(env: Env, h: Hist)
    requires Distinct(h.tracker.order)
    ensures Distinct(Flushed(env, h).tracker.order)
  {
    if h.tracker.pendingRef.Some? { CommittedDistinct(env, PendingCancelled(h), h.tracker.pendingRef.value); }
  }

  lemma {:induction false} PassDistinct(env: Env, h: Hist, ms: nat)
    requires JobIffPending(h) && Distinct(h.tracker.order)
    ensures Distinct(ClockAdvanced(env, h, ms).tracker.order)
  {
    AdvancedIs(env, h, ms);
    if h.tracker.pending != INVALID_JOB {
      CommittedDistinct(env, h.(clock := h.clock.(now := h.clock.now + ms, jobs := [])), h.tracker.pendingRef.value);
    }
  }

  lemma {:induction false} HeardOrder(s: Sys, refs: seq<WindowRef>)
    ensures AllHeard(s, refs).hist.tracker.order == s.hist.tracker.order
  {
    if refs != [] { HeardOrder(s, refs[..|refs| - 1]); }
  }

  lemma {:induction false} CancelOrder(env: Env, s: Sys)
    ensures CancelDone(env, s).sys.hist.tracker.order == s.hist.tracker.order
  {
    var s1 := Ended(s, UserCancel);
    if s.ctl.origin.Some? {
      var origin := s.ctl.origin.value;
      var s2 := Logged(s1, AskedValid(origin, env.isValid(|s1.hist.trace|, origin)));
      var asked := |s2.hist.trace|;
      HeardOrder(Logged(s2, Focused(origin, env.focus(asked, origin))), env.reentry(asked, origin));
    }
  }

  lemma {:induction false} ApplyOrder(env: Env, s: Sys)
    requires Inv(s) && s.ctl.active
    ensures ApplyDone(env, s).sys.hist.tracker.order == s.hist.tracker.order
  {
    var first := Resolved(env, s);
    ResolvedIs(env, s);
    if first.result == Some(InvalidTarget) {
      ResolvedIs(env, first.sys);
      SecondOrder(Resolved(env, first.sys));
    }
  }

  lemma {:induction false} SecondOrder(second: Attempt)
    requires second.result.Some? ==>
               second.sys.ctl.snapshot.Some? && second.sys.ctl.index < |second.sys.ctl.snapshot.value.windows|
    ensures SecondDone(second).sys.hist.tracker.order == second.sys.hist.tracker.order
  {
  }

  /** A command given in a session does not move the order, even when it ends the session. */
  lemma {:induction false} ActiveOrder(env: Env, s: Sys, cmd: Command)
    requires Inv(s) && s.ctl.active
    ensures Step(env, s, cmd).sys.hist.tracker.order == s.hist.tracker.order
  {
    match cmd
    case Apply => ApplyOrder(env, s);
    case Cancel => CancelOrder(env, s);
    case Pass(ms) => AdvancedKeeps(env, s.hist, ms);
    case _ =>
  }

  lemma {:induction false} StepNoDuplicates(env: Env, s: Sys, cmd: Command)
    requires Inv(s) && NoDuplicates(s) && DistinctCandidates(env)
    ensures NoDuplicates(Step(env, s, cmd).sys)
  {
    StepKeeps(env, s, cmd);
    if s.ctl.active {
      ActiveOrder(env, s, cmd);
      var s' := Step(env, s, cmd).sys;
      if s'.ctl.active { SubsequenceMembers(s'.ctl.snapshot.value.windows, s.ctl.snapshot.value.windows); }
    } else {
      match cmd
      case Cycle(_, _) => FlushedDistinct(env, s.hist);
      case Pass(ms) => PassDistinct(env, s.hist, ms);
      case _ =>
    }
  }

  /** If every candidate list is free of duplicates, so are the order and every session's snapshot,
      after any commands. */
  lemma {:induction false} NoWindowTwice(env: Env, policy: SessionPolicy, debounceMs: nat, cmds: seq<Command>)
    requires DistinctCandidates(env)
    ensures NoDuplicates(Run(env, Initial(policy, debounceMs), cmds))
  {
    if cmds != [] {
      var front := cmds[..|cmds| - 1];
      NoWindowTwice(env, policy, debounceMs, front);
      RunInv(env, Initial(policy, debounceMs), front);
      StepNoDuplicates(env, Run(env, Initial(policy, debounceMs), front), cmds[|cmds| - 1]);
    }
  }
}
