// The language of port calls. A reader that knows nothing of the controller scans a trace and
// says whether every call was allowed where it stands; every run of the controller is accepted.

module Grammar {
  import opened Wrappers
  import opened Sequences
  import opened Domain
  import opened Ports
  import opened History
  import opened Session
  import opened SessionLaws

  /** `focused`: a focus call of the open session has succeeded. */
  datatype Phase = Shut | Open(started: Snapshot, focused: bool)

  /** `origin`: the latest answer about the focused window. */
  datatype Reading = Reading(lawful: bool, starts: nat, phase: Phase, origin: Option<WindowRef>)

  /** The two calls before a focus outside a session: the cancelled end, then "the origin is valid". */
  predicate Restoring(before: Trace, ref: WindowRef) {
    && |before| >= 2
    && before[|before| - 1] == AskedValid(ref, true)
    && before[|before| - 2] == UiEnd(UiCancelled)
  }

  /** The two calls before a start: the candidates of the scope were asked for and are what is told,
      then the focused window. */
  predicate Opening(before: Trace, snapshot: Snapshot) {
    && |before| >= 2
    && before[|before| - 1].AskedFocused?
    && before[|before| - 2] == AskedCandidates(snapshot.scope, snapshot.windows)
  }

  /** start change* end, repeated; a start tells the list just asked for; indices in range; an end is
      Applied iff a focus succeeded; no focus after a successful one; inside a session only its own
      windows are focused, outside only the window that had focus when the last session started. */
  predicate Allowed(before: Trace, phase: Phase, origin: Option<WindowRef>, call: Call) {
    match call
    case UiStart(snapshot, index) => phase.Shut? && index < |snapshot.windows| && Opening(before, snapshot)
    case UiChange(index) => phase.Open? && index < |phase.started.windows|
    case UiEnd(reason) => phase.Open? && (reason == UiApplied <==> phase.focused)
    case Focused(ref, result) =>
      if phase.Open? then !phase.focused && ref in phase.started.windows
      else Restoring(before, ref) && origin == Some(ref)
    case _ => true
  }

  function After(phase: Phase, call: Call): Phase {
    match call
    case UiStart(snapshot, _) => Open(snapshot, false)
    case UiEnd(_) => Shut
    case Focused(_, result) => if phase.Open? then phase.(focused := result == Applied) else phase
    case _ => phase
  }

  function Read(t: Trace): Reading {
    if t == [] then Reading(true, 0, Shut, None)
    else
      var before, call := t[..|t| - 1], t[|t| - 1];
      var r := Read(before);
      Reading(r.lawful && Allowed(before, r.phase, r.origin, call),
              r.starts + if call.UiStart? then 1 else 0,
              After(r.phase, call),
              if call.AskedFocused? then call.focused else r.origin)
  }

  ghost predicate Questions(t: Trace) {
    forall i :: 0 <= i < |t| ==> t[i].AskedValid?
  }

  ghost predicate InvTrace(s: Sys) {
    var r := Read(s.hist.trace);
    && r.lawful
    && r.starts == s.ctl.sessionId
    && (if s.ctl.active then
          && r.phase.Open? && !r.phase.focused && s.ctl.snapshot.Some? && r.origin == s.ctl.origin
          && Subsequence(s.ctl.snapshot.value.windows, r.phase.started.windows)
          && s.ctl.snapshot.value.scope == r.phase.started.scope
        else r.phase.Shut?)
  }

  // ---- reading longer traces -------------------------------------------------------------

  lemma {:induction false} ReadSnoc(t: Trace, call: Call)
    ensures var r := Read(t);
            Read(t + [call]) == Reading(r.lawful && Allowed(t, r.phase, r.origin, call),
                                        r.starts + if call.UiStart? then 1 else 0, After(r.phase, call),
                                        if call.AskedFocused? then call.focused else r.origin)
  {
    assert (t + [call])[..|t|] == t;
  }

  lemma {:induction false} ReadQuestions(t: Trace, qs: Trace)
    requires Questions(qs)
    ensures Read(t + qs) == Read(t)
  {
    if qs == [] {
      assert t + qs == t;
    } else {
      var front := qs[..|qs| - 1];
      assert t + qs == t + front + [qs[|qs| - 1]];
      ReadQuestions(t, front);
      ReadSnoc(t + front, qs[|qs| - 1]);
    }
  }

  lemma {:induction false} AnswersAreQuestions(env: Env, asked: nat, refs: seq<WindowRef>)
    ensures Questions(Answers(env, asked, refs))
  {
    if refs != [] { AnswersAreQuestions(env, asked, refs[..|refs| - 1]); }
  }

  lemma {:induction false} ReadPruned(env: Env, s: Sys)
    ensures Read(Pruned(env, s).hist.trace) == Read(s.hist.trace)
  {
    if s.ctl.snapshot.Some? {
      AnswersAreQuestions(env, |s.hist.trace|, s.ctl.snapshot.value.windows);
      ReadQuestions(s.hist.trace, Answers(env, |s.hist.trace|, s.ctl.snapshot.value.windows));
    }
  }

  /** What resolving adds: questions, and then at most one focus, of the selected survivor. */
  lemma {:induction false} ReadResolved(env: Env, s: Sys) returns (asked: Trace)
    requires s.ctl.active && s.ctl.snapshot.Some?
    ensures var a := Resolved(env, s);
            && Read(asked) == Read(s.hist.trace)
            && (a.result.None? ==> a.sys.hist.trace == asked)
            && (a.result.Some? ==>
                  a.sys.hist.trace
                    == asked + [Focused(a.sys.ctl.snapshot.value.windows[a.sys.ctl.index], a.result.value)])
  {
    var s1 := Pruned(env, s);
    ReadPruned(env, s);
    if s1.ctl.snapshot.value.windows == [] { return s1.hist.trace; }
    var ref := s1.ctl.snapshot.value.windows[s1.ctl.index];
    var answer := env.isValid(|s1.hist.trace|, ref);
    var s2 := Logged(s1, AskedValid(ref, answer));
    ReadSnoc(s1.hist.trace, AskedValid(ref, answer));
    ReadPruned(env, s2);
    return (if answer then s2 else Pruned(env, s2)).hist.trace;
  }

  // ---- steps -----------------------------------------------------------------------------

  /** Mid-apply: the session is still open, and `focused` says whether a focus succeeded. */
  ghost predicate MidApply(s: Sys, focused: bool) {
    var r := Read(s.hist.trace);
    && s.ctl.active && s.ctl.snapshot.Some?
    && r.lawful && r.starts == s.ctl.sessionId && r.phase.Open? && r.phase.focused == focused
    && r.origin == s.ctl.origin
    && Subsequence(s.ctl.snapshot.value.windows, r.phase.started.windows)
  }

  lemma {:induction false} ResolvedMid(env: Env, s: Sys)
    requires MidApply(s, false)
    ensures var a := Resolved(env, s); MidApply(a.sys, a.result == Some(Applied))
  {
    var a := Resolved(env, s);
    var asked := ReadResolved(env, s);
    ResolvedIs(env, s);
    var started := Read(s.hist.trace).phase.started;
    var kept := a.sys.ctl.snapshot.value.windows;
    SubsequenceTransitive(kept, s.ctl.snapshot.value.windows, started.windows);
    if a.result.Some? {
      SubsequenceMembers(kept, started.windows);
      ReadSnoc(asked, Focused(kept[a.sys.ctl.index], a.result.value));
    }
  }

  lemma {:induction false} EndedTrace(s: Sys, reason: EndReason)
    requires MidApply(s, reason == AppliedEnd)
    ensures InvTrace(Ended(s, reason))
  {
    ReadSnoc(s.hist.trace, UiEnd(if reason == AppliedEnd then UiApplied else UiCancelled));
  }

  lemma {:induction false} ApplyTrace(env: Env, s: Sys)
    requires MidApply(s, false) && Coherent(s.ctl)
    ensures InvTrace(ApplyDone(env, s).sys)
  {
    var first := Resolved(env, s);
    ResolvedMid(env, s);
    match first.result
    case None => EndedTrace(first.sys, NoWindows);
    case Some(Applied) => EndedTrace(first.sys, AppliedEnd);
    case Some(Failed) => EndedTrace(first.sys, FocusFailed);
    case Some(InvalidTarget) =>
      ResolvedMid(env, first.sys);
      SecondTrace(Resolved(env, first.sys));
  }

  lemma {:induction false} SecondTrace(second: Attempt)
    requires second.result.Some? ==>
               second.sys.ctl.snapshot.Some? && second.sys.ctl.index < |second.sys.ctl.snapshot.value.windows|
    requires MidApply(second.sys, second.result == Some(Applied))
    ensures InvTrace(SecondDone(second).sys)
  {
    match second.result
    case None => EndedTrace(second.sys, NoWindows);
    case Some(Applied) => EndedTrace(second.sys, AppliedEnd);
    case Some(Failed) => EndedTrace(second.sys, FocusFailed);
    case Some(InvalidTarget) => EndedTrace(second.sys, InvalidSelection);
  }

  lemma {:induction false} CancelTrace(env: Env, s: Sys)
    requires MidApply(s, false)
    ensures InvTrace(CancelDone(env, s).sys)
  {
    var s1 := Ended(s, UserCancel);
    EndedTrace(s, UserCancel);
    if s.ctl.frozen.restoreFocusOnCancel && s.ctl.origin.Some? {
      var origin := s.ctl.origin.value;
      var answer := env.isValid(|s1.hist.trace|, origin);
      var t := s1.hist.trace + [AskedValid(origin, answer)];
      ReadSnoc(s1.hist.trace, AskedValid(origin, answer));
      if answer { ReadSnoc(t, Focused(origin, env.focus(|t|, origin))); }
    }
  }

  lemma {:induction false} FlushedTrace(env: Env, h: Hist)
    ensures Read(Flushed(env, h).trace) == Read(h.trace)
  {
    if h.tracker.pendingRef.Some? {
      var ref := h.tracker.pendingRef.value;
      ReadSnoc(h.trace, AskedValid(ref, env.isValid(|h.trace|, ref)));
    }
  }

  /** The three calls that open a session. */
  lemma {:induction false} StartRead(t: Trace, snapshot: Snapshot, focused: Option<WindowRef>, index: nat)
    requires Read(t).phase.Shut? && index < |snapshot.windows|
    ensures var r := Read(t);
            Read(t + [AskedCandidates(snapshot.scope, snapshot.windows)] + [AskedFocused(focused)]
                   + [UiStart(snapshot, index)])
              == Reading(r.lawful, r.starts + 1, Open(snapshot, false), focused)
  {
    var t1 := t + [AskedCandidates(snapshot.scope, snapshot.windows)];
    var t2 := t1 + [AskedFocused(focused)];
    ReadSnoc(t, AskedCandidates(snapshot.scope, snapshot.windows));
    ReadSnoc(t1, AskedFocused(focused));
    ReadSnoc(t2, UiStart(snapshot, index));
  }

  lemma {:induction false} BegunTrace(env: Env, s: Sys, scope: Scope)
    requires InvTrace(s) && !s.ctl.active
    ensures var s' := SessionBegun(env, s, scope).sys;
            && InvTrace(s')
            && (s'.ctl.active ==> Some(Read(s'.hist.trace).phase.started) == s'.ctl.snapshot)
  {
    FlushedTrace(env, s.hist);
    var h := Flushed(env, s.hist);
    var candidates := env.candidates(|h.trace|, scope, h.tracker.order);
    var t := h.trace + [AskedCandidates(scope, candidates)];
    if candidates == [] {
      ReadSnoc(h.trace, AskedCandidates(scope, candidates));
    } else {
      StartRead(h.trace, Snapshot(candidates, scope), env.focused(|t|),
                Selection.InitialIndex(s.ctl.policy.startOffset, |candidates|));
      SubsequenceReflexive(candidates);
    }
  }

  lemma {:induction false} LostTrace(env: Env, s: Sys, ref: WindowRef)
    requires InvTrace(s) && s.ctl.active
    ensures InvTrace(WindowLost(env, s, ref))
  {
    var s1 := Pruned(env, s);
    ReadPruned(env, s);
    PrunedIs(env, s);
    SubsequenceTransitive(s1.ctl.snapshot.value.windows, s.ctl.snapshot.value.windows,
                          Read(s.hist.trace).phase.started.windows);
    if s1.ctl.snapshot.value.windows == [] { EndedTrace(s1, NoWindows); }
  }

  lemma {:induction false} PassTrace(env: Env, h: Hist, ms: nat)
    requires JobIffPending(h)
    ensures Read(ClockAdvanced(env, h, ms).trace) == Read(h.trace)
  {
    AdvancedIs(env, h, ms);
    if h.tracker.pendingRef.Some? {
      var ref := h.tracker.pendingRef.value;
      ReadSnoc(h.trace, AskedValid(ref, env.isValid(|h.trace|, ref)));
    }
  }

  lemma {:induction false} ChangeTrace(s: Sys, index: nat)
    requires InvTrace(s) && s.ctl.active && index < |s.ctl.snapshot.value.windows|
    ensures InvTrace(Logged(s.(ctl := s.ctl.(index := index)), UiChange(index)))
  {
    SubsequenceMembers(s.ctl.snapshot.value.windows, Read(s.hist.trace).phase.started.windows);
    ReadSnoc(s.hist.trace, UiChange(index));
  }

  lemma {:induction false} StepTrace(env: Env, s: Sys, cmd: Command)
    requires Inv(s) && InvTrace(s)
    ensures InvTrace(Step(env, s, cmd).sys)
  {
    match cmd
    case Cycle(dir, scope) =>
      if s.ctl.active {
        ChangeTrace(s, Selection.AdvanceIndex(s.ctl.index, dir, s.ctl.frozen.wrap, |s.ctl.snapshot.value.windows|));
      } else {
        BegunTrace(env, s, if scope.Some? then scope.value else s.ctl.policy.defaultScope);
      }
    case Select(i) => if s.ctl.active && i < |s.ctl.snapshot.value.windows| { ChangeTrace(s, i); }
    case Apply => if s.ctl.active { ApplyTrace(env, s); }
    case Cancel => if s.ctl.active { CancelTrace(env, s); }
    case Shutdown => if s.ctl.active { EndedTrace(s, PluginShutdown); }
    case WindowInvalid(ref) => if s.ctl.active { LostTrace(env, s, ref); }
    case Pass(ms) => PassTrace(env, s.hist, ms); AdvancedKeeps(env, s.hist, ms);
    case _ =>
  }

  // ---- main results ----------------------------------------------------------------------

  lemma {:induction false} RunTrace(env: Env, policy: SessionPolicy, debounceMs: nat, cmds: seq<Command>)
    ensures var s := Run(env, Initial(policy, debounceMs), cmds); Inv(s) && InvTrace(s)
  {
    RunInv(env, Initial(policy, debounceMs), cmds);
    if cmds != [] {
      var front := cmds[..|cmds| - 1];
      RunTrace(env, policy, debounceMs, front);
      StepTrace(env, Run(env, Initial(policy, debounceMs), front), cmds[|cmds| - 1]);
    }
  }

  /** Every run is accepted by the reader, with one start per session id. While Active the open
      session has had no successful focus yet and the snapshot is an in-order part of the list
      told at its start, with the same scope, and the origin is the window that had focus then; while
      Idle no session is open. */
  lemma {:induction false} TraceGrammar(env: Env, policy: SessionPolicy, debounceMs: nat, cmds: seq<Command>)
    ensures var s := Run(env, Initial(policy, debounceMs), cmds);
            var r := Read(s.hist.trace);
            && r.lawful
            && r.starts == s.ctl.sessionId
            && (s.ctl.active <==> r.phase.Open?)
            && (s.ctl.active ==>
                  && !r.phase.focused
                  && r.origin == s.ctl.origin
                  && Subsequence(s.ctl.snapshot.value.windows, r.phase.started.windows)
                  && s.ctl.snapshot.value.scope == r.phase.started.scope)
  {
    RunTrace(env, policy, debounceMs, cmds);
  }

  ghost predicate FocusFree(t: Trace, t': Trace) {
    t <= t' && forall i :: |t| <= i < |t'| ==> !t'[i].Focused?
  }

  /** Which commands may focus: an apply of an open session, or its cancel, and that only after the
      end, when the frozen policy restores and the origin was just found valid. Everything else is
      virtual: it makes no focus call. */
  lemma {:induction false} FocusOnlyInApplyOrRestore(env: Env, s: Sys, cmd: Command)
    requires Inv(s)
    ensures var t, t' := s.hist.trace, Step(env, s, cmd).sys.hist.trace;
            || (cmd.Apply? && s.ctl.active)
            || FocusFree(t, t')
            || (&& cmd.Cancel? && s.ctl.active && s.ctl.frozen.restoreFocusOnCancel && s.ctl.origin.Some?
                && |t'| == |t| + 3 && t <= t'
                && t'[|t|] == UiEnd(UiCancelled)
                && t'[|t| + 1] == AskedValid(s.ctl.origin.value, true)
                && t'[|t| + 2].Focused? && t'[|t| + 2].ref == s.ctl.origin.value)
  {
    match cmd
    case Cycle(dir, scope) => CycleFocusFree(env, s, dir, scope);
    case WindowInvalid(ref) => LossFocusFree(env, s, ref);
    case Pass(ms) => AdvancedIs(env, s.hist, ms);
    case _ =>
  }

  lemma {:induction false} CycleFocusFree(env: Env, s: Sys, dir: Direction, scope: Option<Scope>)
    requires Coherent(s.ctl)
    ensures FocusFree(s.hist.trace, CycleDone(env, s, dir, scope).sys.hist.trace)
  {
  }

  lemma {:induction false} LossFocusFree(env: Env, s: Sys, ref: WindowRef)
    ensures FocusFree(s.hist.trace, WindowLost(env, s, ref).hist.trace)
  {
    if s.ctl.snapshot.Some? { AnswersAreQuestions(env, |s.hist.trace|, s.ctl.snapshot.value.windows); }
  }

  // ---- changes and the current snapshot --------------------------------------------------

  ghost predicate ChangeFree(t: Trace, t': Trace) {
    t <= t' && forall i :: |t| <= i < |t'| ==> !t'[i].UiChange?
  }

  lemma {:induction false} PrunedChangeFree(env: Env, s: Sys)
    ensures ChangeFree(s.hist.trace, Pruned(env, s).hist.trace)
  {
    if s.ctl.snapshot.Some? { AnswersAreQuestions(env, |s.hist.trace|, s.ctl.snapshot.value.windows); }
  }

  lemma {:induction false} ClampedChangeFree(env: Env, s: Sys)
    requires s.ctl.snapshot.Some?
    ensures ChangeFree(s.hist.trace, ClampedFocus(env, s).sys.hist.trace)
  {
  }

  lemma {:induction false} ResolvedChangeFree(env: Env, s: Sys)
    requires s.ctl.snapshot.Some?
    ensures ChangeFree(s.hist.trace, Resolved(env, s).sys.hist.trace)
  {
    PrunedChangeFree(env, s);
    var s1 := Pruned(env, s);
    if s1.ctl.snapshot.value.windows != [] {
      var ref := s1.ctl.snapshot.value.windows[s1.ctl.index];
      var answer := env.isValid(|s1.hist.trace|, ref);
      var s2 := Logged(s1, AskedValid(ref, answer));
      PrunedChangeFree(env, s2);
      ClampedChangeFree(env, if answer then s2 else Pruned(env, s2));
    }
  }

  lemma {:induction false} SecondChangeFree(second: Attempt)
    requires second.result.Some? ==>
               second.sys.ctl.snapshot.Some? && second.sys.ctl.index < |second.sys.ctl.snapshot.value.windows|
    ensures ChangeFree(second.sys.hist.trace, SecondDone(second).sys.hist.trace)
  {
  }

  lemma {:induction false} ApplyChangeFree(env: Env, s: Sys)
    requires s.ctl.active && Coherent(s.ctl)
    ensures ChangeFree(s.hist.trace, ApplyDone(env, s).sys.hist.trace)
  {
    var first := Resolved(env, s);
    ResolvedChangeFree(env, s);
    match first.result
    case None => EndedChangeFree(first.sys, NoWindows);
    case Some(Applied) => EndedChangeFree(first.sys, AppliedEnd);
    case Some(Failed) => EndedChangeFree(first.sys, FocusFailed);
    case Some(InvalidTarget) =>
      ResolvedChangeFree(env, first.sys);
      SecondChangeFree(Resolved(env, first.sys));
  }

  lemma {:induction false} EndedChangeFree(s: Sys, reason: EndReason)
    ensures ChangeFree(s.hist.trace, Ended(s, reason).hist.trace)
  {
  }

  /** The UI is told of a change only by a cycle or a select in a session, about the index just set,
      which is in range for the snapshot as it is then, after all prunes. */
  lemma {:induction false} ChangesAreCurrent(env: Env, s: Sys, cmd: Command)
    requires Inv(s)
    ensures var s' := Step(env, s, cmd).sys;
            var t, t' := s.hist.trace, s'.hist.trace;
            || ChangeFree(t, t')
            || (&& (cmd.Cycle? || cmd.Select?) && s.ctl.active && s'.ctl.snapshot == s.ctl.snapshot
                && t' == t + [UiChange(s'.ctl.index)] && s'.ctl.index < |s.ctl.snapshot.value.windows|)
  {
    match cmd
    case Apply => if s.ctl.active { ApplyChangeFree(env, s); }
    case WindowInvalid(ref) => PrunedChangeFree(env, s);
    case Pass(ms) => AdvancedIs(env, s.hist, ms);
    case _ =>
  }
}
