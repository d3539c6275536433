// src/domain/session_controller.cpp and src/domain/snapshot.cpp: the Idle/Active machine. `Sys` is
// the controller together with the tracker, the clock and the trace of port calls; the class
// `SessionController` performs the commands in place and is proved equal to the functions.

module Session {
  import opened Wrappers
  import opened Domain
  import opened Selection
  import opened Ports
  import opened Clock
  import opened History

  datatype Ctl = Ctl(
    policy: SessionPolicy,          // live policy, for new sessions
    frozen: SessionPolicy,          // copied at session start
    active: bool,
    snapshot: Option<Snapshot>,
    index: nat,
    origin: Option<WindowRef>,
    sessionId: nat,
    lastEnd: Option<EndReason>)

  datatype Sys = Sys(hist: Hist, ctl: Ctl)

  const OK := CommandResult(true, "")

  /** What holds between commands: Active means a non-empty snapshot with the index inside. */
  predicate Coherent(c: Ctl) {
    && c.active == c.snapshot.Some?
    && (c.active ==> c.index < |c.snapshot.value.windows|)
  }

  function Logged(s: Sys, call: Call): Sys {
    s.(hist := s.hist.(trace := s.hist.trace + [call]))
  }

  // ---- pruning ---------------------------------------------------------------------------

  function Answers(env: Env, asked: nat, refs: seq<WindowRef>): (t: Trace)
    ensures |t| == |refs|
  {
    if refs == [] then []
    else
      var last := refs[|refs| - 1];
      Answers(env, asked, refs[..|refs| - 1]) + [AskedValid(last, env.isValid(asked + |refs| - 1, last))]
  }

  /** The refs whose own question was answered "valid", in order. */
  function Survivors(env: Env, asked: nat, refs: seq<WindowRef>): seq<WindowRef> {
    if refs == [] then []
    else
      var r := Survivors(env, asked, refs[..|refs| - 1]);
      var last := refs[|refs| - 1];
      if env.isValid(asked + |refs| - 1, last) then r + [last] else r
  }

  function Pruned(env: Env, s: Sys): Sys {
    if s.ctl.snapshot.None? then s
    else
      var snap := s.ctl.snapshot.value;
      var kept := Survivors(env, |s.hist.trace|, snap.windows);
      var index := if kept == [] then 0 else if s.ctl.index >= |kept| then |kept| - 1 else s.ctl.index;
      Sys(s.hist.(trace := s.hist.trace + Answers(env, |s.hist.trace|, snap.windows)),
          s.ctl.(snapshot := Some(Snapshot(kept, snap.scope)), index := index))
  }

  // ---- focus -----------------------------------------------------------------------------

  function FocusHeard(s: Sys, ref: WindowRef): Sys {
    if s.ctl.active then s else s.(hist := FocusSeen(s.hist, ref))
  }

  function AllHeard(s: Sys, refs: seq<WindowRef>): (r: Sys)
    ensures r.ctl == s.ctl
    ensures s.ctl.active ==> r == s
    ensures r.hist.trace == s.hist.trace
  {
    if refs == [] then s else FocusHeard(AllHeard(s, refs[..|refs| - 1]), refs[|refs| - 1])
  }

  /** A focus call, with the focus events that the compositor delivers from inside it. */
  function FocusIssued(env: Env, s: Sys, ref: WindowRef): Sys {
    var asked := |s.hist.trace|;
    AllHeard(Logged(s, Focused(ref, env.focus(asked, ref))), env.reentry(asked, ref))
  }

  datatype Attempt = Attempt(sys: Sys, result: Option<FocusResult>)

  /** Focus the selected window, after clamping the index to the windows that are left. */
  function ClampedFocus(env: Env, s: Sys): (a: Attempt)
    requires s.ctl.snapshot.Some?
    ensures a.sys.ctl.snapshot == s.ctl.snapshot
    ensures a.result.Some? ==> a.sys.ctl.index < |s.ctl.snapshot.value.windows|
    ensures a.result.None? ==> s.ctl.snapshot.value.windows == []
    ensures a.sys.ctl.active == s.ctl.active && a.sys.ctl.frozen == s.ctl.frozen
  {
    var windows := s.ctl.snapshot.value.windows;
    if windows == [] then Attempt(s, None)
    else
      var index := Min(s.ctl.index, |windows| - 1);
      var s' := s.(ctl := s.ctl.(index := index));
      Attempt(FocusIssued(env, s', windows[index]), Some(env.focus(|s'.hist.trace|, windows[index])))
  }

  function Resolved(env: Env, s: Sys): (a: Attempt)
    requires s.ctl.snapshot.Some?
    ensures a.sys.ctl.snapshot.Some?
    ensures a.result.Some? ==> a.sys.ctl.index < |a.sys.ctl.snapshot.value.windows|
    ensures a.result.None? ==> a.sys.ctl.snapshot.value.windows == []
    ensures a.sys.ctl.active == s.ctl.active && a.sys.ctl.frozen == s.ctl.frozen
  {
    var s1 := Pruned(env, s);
    if s1.ctl.snapshot.value.windows == [] then Attempt(s1, None)
    else
      var ref := s1.ctl.snapshot.value.windows[s1.ctl.index];
      var answer := env.isValid(|s1.hist.trace|, ref);
      var s2 := Logged(s1, AskedValid(ref, answer));
      ClampedFocus(env, if answer then s2 else Pruned(env, s2))
  }

  // ---- commands --------------------------------------------------------------------------

  datatype Outcome = Outcome(sys: Sys, result: CommandResult)

  function Ended(s: Sys, reason: EndReason): Sys {
    var ctl := s.ctl.(active := false, snapshot := None, index := 0, origin := None, lastEnd := Some(reason));
    Logged(Sys(LockSet(s.hist, false), ctl), UiEnd(if reason == AppliedEnd then UiApplied else UiCancelled))
  }

  function EndOutcome(s: Sys, reason: EndReason, error: string): Outcome {
    Outcome(Ended(s, reason), CommandResult(reason == AppliedEnd, error))
  }

  function ApplyCompleted(s: Sys): Outcome
    requires s.ctl.snapshot.Some? && s.ctl.index < |s.ctl.snapshot.value.windows|
  {
    var applied := s.ctl.snapshot.value.windows[s.ctl.index];
    var o := EndOutcome(s, AppliedEnd, "");
    o.(sys := o.sys.(hist := FocusSeen(o.sys.hist, applied)))
  }

  /** The end of an apply after its one bounded re-attempt. */
  function SecondDone(second: Attempt): (o: Outcome)
    requires second.result.Some? ==>
               second.sys.ctl.snapshot.Some? && second.sys.ctl.index < |second.sys.ctl.snapshot.value.windows|
    ensures !o.sys.ctl.active && Coherent(o.sys.ctl)
  {
    match second.result
    case None => EndOutcome(second.sys, NoWindows, "no windows")
    case Some(Applied) => ApplyCompleted(second.sys)
    case Some(Failed) => EndOutcome(second.sys, FocusFailed, "focus failed")
    case Some(InvalidTarget) => EndOutcome(second.sys, InvalidSelection, "selection invalid")
  }

  function ApplyDone(env: Env, s: Sys): (o: Outcome)
    requires Coherent(s.ctl)
    ensures Coherent(o.sys.ctl)
  {
    if !s.ctl.active then Outcome(s, OK)
    else
      var first := Resolved(env, s);
      match first.result
      case None => EndOutcome(first.sys, NoWindows, "no windows")
      case Some(Applied) => ApplyCompleted(first.sys)
      case Some(Failed) => EndOutcome(first.sys, FocusFailed, "focus failed")
      case Some(InvalidTarget) =>
        SecondDone(Resolved(env, first.sys))
  }

  function CancelDone(env: Env, s: Sys): (o: Outcome)
    ensures Coherent(s.ctl) ==> Coherent(o.sys.ctl)
  {
    if !s.ctl.active then Outcome(s, OK)
    else
      var s1 := Ended(s, UserCancel);
      if !s.ctl.frozen.restoreFocusOnCancel || s.ctl.origin.None? then Outcome(s1, OK)
      else
        var origin := s.ctl.origin.value;
        var answer := env.isValid(|s1.hist.trace|, origin);
        var s2 := Logged(s1, AskedValid(origin, answer));
        Outcome(if answer then FocusIssued(env, s2, origin) else s2, OK)
  }

  function SessionBegun(env: Env, s: Sys, scope: Scope): (o: Outcome)
    ensures Coherent(s.ctl) ==> Coherent(o.sys.ctl)
  {
    var s1 := s.(hist := Flushed(env, s.hist));
    var candidates := env.candidates(|s1.hist.trace|, scope, s1.hist.tracker.order);
    var s2 := Logged(s1, AskedCandidates(scope, candidates));
    if candidates == [] then Outcome(s2, CommandResult(false, "no windows"))
    else
      var snapshot := Snapshot(candidates, scope);
      var index := InitialIndex(s2.ctl.policy.startOffset, |candidates|);
      var focused := env.focused(|s2.hist.trace|);
      var s3 := Logged(s2, AskedFocused(focused));
      var ctl := s3.ctl.(active := true, snapshot := Some(snapshot), index := index, origin := focused,
                         sessionId := s3.ctl.sessionId + 1, frozen := s3.ctl.policy);
      Outcome(Logged(Sys(LockSet(s3.hist, true), ctl), UiStart(snapshot, index)), OK)
  }

  function CycleDone(env: Env, s: Sys, dir: Direction, scope: Option<Scope>): (o: Outcome)
    requires Coherent(s.ctl)
    ensures Coherent(o.sys.ctl)
  {
    if !s.ctl.active then
      SessionBegun(env, s, if scope.Some? then scope.value else s.ctl.policy.defaultScope)
    else
      var index := AdvanceIndex(s.ctl.index, dir, s.ctl.frozen.wrap, |s.ctl.snapshot.value.windows|);
      Outcome(Logged(s.(ctl := s.ctl.(index := index)), UiChange(index)), OK)
  }

  function SelectDone(s: Sys, i: nat): (o: Outcome)
    ensures Coherent(s.ctl) ==> Coherent(o.sys.ctl)
  {
    if !s.ctl.active || s.ctl.snapshot.None? || i >= |s.ctl.snapshot.value.windows| then Outcome(s, OK)
    else Outcome(Logged(s.(ctl := s.ctl.(index := i)), UiChange(i)), OK)
  }

  function ShutdownDone(s: Sys): Sys {
    if !s.ctl.active then s else Ended(s, PluginShutdown)
  }

  function WindowLost(env: Env, s: Sys, ref: WindowRef): (r: Sys)
    ensures Coherent(s.ctl) ==> Coherent(r.ctl)
  {
    if !s.ctl.active || s.ctl.snapshot.None? || ref !in s.ctl.snapshot.value.windows then s
    else
      var s1 := Pruned(env, s);
      if s1.ctl.snapshot.value.windows == [] then Ended(s1, NoWindows) else s1
  }

  function PolicySet(s: Sys, policy: SessionPolicy): Sys {
    s.(ctl := s.ctl.(policy := policy))
  }

  datatype Command =
    | Cycle(dir: Direction, scope: Option<Scope>)
    | Select(i: nat)
    | Apply
    | Cancel
    | Shutdown
    | FocusEvent(ref: WindowRef)
    | WindowInvalid(ref: WindowRef)
    | SetPolicy(policy: SessionPolicy)
    | SetDebounce(ms: nat)
    | Pass(ms: nat)

  function Step(env: Env, s: Sys, cmd: Command): (o: Outcome)
    requires Coherent(s.ctl)
    ensures Coherent(o.sys.ctl)
  {
    match cmd
    case Cycle(dir, scope) => CycleDone(env, s, dir, scope)
    case Select(i) => SelectDone(s, i)
    case Apply => ApplyDone(env, s)
    case Cancel => CancelDone(env, s)
    case Shutdown => Outcome(ShutdownDone(s), OK)
    case FocusEvent(ref) => Outcome(FocusHeard(s, ref), OK)
    case WindowInvalid(ref) => Outcome(WindowLost(env, s, ref), OK)
    case SetPolicy(policy) => Outcome(PolicySet(s, policy), OK)
    case SetDebounce(ms) => Outcome(s.(hist := DebounceSet(s.hist, ms)), OK)
    case Pass(ms) => Outcome(s.(hist := ClockAdvanced(env, s.hist, ms)), OK)
  }

  function Initial(policy: SessionPolicy, debounceMs: nat): Sys {
    Sys(Hist(Tracker([], INVALID_JOB, None, false, ClampDebounce(debounceMs)),
             ClockState(0, INVALID_JOB + 1, []), []),
        Ctl(policy, policy, false, None, 0, None, 0, None))
  }

  function Run(env: Env, s: Sys, cmds: seq<Command>): (r: Sys)
    requires Coherent(s.ctl)
    ensures Coherent(r.ctl)
  {
    if cmds == [] then s else Step(env, Run(env, s, cmds[..|cmds| - 1]), cmds[|cmds| - 1]).sys
  }

  // ---- the controller itself -------------------------------------------------------------

  class SessionController {
    const tracker: HistoryTracker
    const compositor: Compositor
    var policy: SessionPolicy
    var snapshotPolicy: SessionPolicy
    var active: bool
    var snapshot: Option<Snapshot>
    var index: nat
    var sessionOrigin: Option<WindowRef>
    var sessionId: nat
    var lastEndReason: Option<EndReason>

    ghost function State(): Ctl
      reads this
    {
      Ctl(policy, snapshotPolicy, active, snapshot, index, sessionOrigin, sessionId, lastEndReason)
    }

    ghost function Abs(): Sys
      reads this, tracker, tracker.scheduler, tracker.compositor
    {
      Sys(tracker.Abs(), State())
    }

    ghost predicate Wired() {
      tracker.compositor == compositor
    }

    constructor (tracker: HistoryTracker, compositor: Compositor, policy: SessionPolicy)
      requires tracker.compositor == compositor
      ensures Wired() && this.tracker == tracker && this.compositor == compositor
      ensures Abs() == Sys(tracker.Abs(), Ctl(policy, policy, false, None, 0, None, 0, None))
    {
      this.tracker, this.compositor := tracker, compositor;
      this.policy, snapshotPolicy := policy, policy;
      active, snapshot, index, sessionOrigin, sessionId, lastEndReason := false, None, 0, None, 0, None;
    }

    method Cycle(dir: Direction, scopeOverride: Option<Scope>) returns (result: CommandResult)
      requires Wired() && Coherent(State())
      modifies this, tracker, tracker.scheduler, compositor
      ensures Outcome(Abs(), result) == CycleDone(compositor.env, old(Abs()), dir, scopeOverride)
    {
      if !active {
        result := BeginSession(if scopeOverride.Some? then scopeOverride.value else policy.defaultScope);
        return;
      }
      index := AdvanceIndex(index, dir, snapshotPolicy.wrap, |snapshot.value.windows|);
      compositor.Ui(UiChange(index));
      return OK;
    }

    method SelectIndex(i: nat) returns (result: CommandResult)
      requires Wired()
      modifies this, compositor
      ensures Outcome(Abs(), result) == SelectDone(old(Abs()), i)
    {
      if !active || snapshot.None? || |snapshot.value.windows| == 0 || i >= |snapshot.value.windows| {
        return OK;
      }
      index := i;
      compositor.Ui(UiChange(index));
      return OK;
    }

    method BeginSession(scope: Scope) returns (result: CommandResult)
      requires Wired()
      modifies this, tracker, tracker.scheduler, compositor
      ensures Outcome(Abs(), result) == SessionBegun(compositor.env, old(Abs()), scope)
    {
      tracker.FlushPending();
      var candidates := compositor.Candidates(scope, tracker.order);
      if candidates == [] { return CommandResult(false, "no windows"); }
      snapshot := Some(Snapshot(candidates, scope));
      index := InitialIndex(policy.startOffset, |candidates|);
      sessionOrigin := compositor.FocusedWindow();
      sessionId := sessionId + 1;
      snapshotPolicy := policy;
      tracker.SetSessionLocked(true);
      active := true;
      compositor.Ui(UiStart(snapshot.value, index));
      return OK;
    }

    method Apply() returns (result: CommandResult)
      requires Wired() && Coherent(State())
      modifies this, tracker, tracker.scheduler, compositor
      ensures Outcome(Abs(), result) == ApplyDone(compositor.env, old(Abs()))
    {
      if !active { return OK; }
      var first := ResolveAndFocus();
      if first.None? { result := EndSession(NoWindows, "no windows"); return; }
      if first.value == Applied { result := CompleteApply(); return; }
      if first.value == Failed { result := EndSession(FocusFailed, "focus failed"); return; }
      var second := ResolveAndFocus();
      if second.None? { result := EndSession(NoWindows, "no windows"); return; }
      match second.value
      case Applied => result := CompleteApply();
      case Failed => result := EndSession(FocusFailed, "focus failed");
      case InvalidTarget => result := EndSession(InvalidSelection, "selection invalid");
    }

    method CompleteApply() returns (result: CommandResult)
      requires Wired() && snapshot.Some? && index < |snapshot.value.windows|
      modifies this, tracker, tracker.scheduler, compositor
      ensures Outcome(Abs(), result) == ApplyCompleted(old(Abs()))
    {
      var applied := snapshot.value.windows[index];
      result := EndSession(AppliedEnd, "");
      tracker.OnFocus(applied);
    }

    method ResolveAndFocus() returns (result: Option<FocusResult>)
      requires Wired() && snapshot.Some?
      modifies this, tracker, tracker.scheduler, compositor
      ensures Attempt(Abs(), result) == Resolved(compositor.env, old(Abs()))
    {
      PruneActive();
      if |snapshot.value.windows| == 0 { return None; }
      var valid := compositor.IsValid(snapshot.value.windows[index]);
      if !valid {
        PruneActive();
        if |snapshot.value.windows| == 0 { return None; }
      }
      index := Min(index, |snapshot.value.windows| - 1);
      var r := Focus(snapshot.value.windows[index]);
      return Some(r);
    }

    /** The gateway's focus call, with the focus events that re-enter the controller from it. */
    method Focus(ref: WindowRef) returns (result: FocusResult)
      requires Wired()
      modifies tracker, tracker.scheduler, compositor
      ensures result == compositor.env.focus(|old(compositor.trace)|, ref)
      ensures Abs() == FocusIssued(compositor.env, old(Abs()), ref)
    {
      var events;
      result, events := compositor.Focus(ref);
      ghost var issued := Abs();
      for i := 0 to |events|
        invariant Abs() == AllHeard(issued, events[..i])
      {
        assert events[..i + 1][..i] == events[..i];
        OnFocus(events[i]);
      }
      assert events[..|events|] == events;
    }

    method Cancel() returns (result: CommandResult)
      requires Wired()
      modifies this, tracker, tracker.scheduler, compositor
      ensures Outcome(Abs(), result) == CancelDone(compositor.env, old(Abs()))
    {
      if !active { return OK; }
      var origin, restore := sessionOrigin, snapshotPolicy.restoreFocusOnCancel;
      var _ := EndSession(UserCancel, "");
      if restore && origin.Some? {
        var valid := compositor.IsValid(origin.value);
        if valid { var _ := Focus(origin.value); }
      }
      return OK;
    }

    method PluginShutdown()
      requires Wired()
      modifies this, tracker, tracker.scheduler, compositor
      ensures Abs() == ShutdownDone(old(Abs()))
    {
      if !active { return; }
      var _ := EndSession(EndReason.PluginShutdown, "");
    }

    method EndSession(reason: EndReason, error: string) returns (result: CommandResult)
      requires Wired()
      modifies this, tracker, tracker.scheduler, compositor
      ensures Outcome(Abs(), result) == EndOutcome(old(Abs()), reason, error)
    {
      active, snapshot, index, sessionOrigin := false, None, 0, None;
      lastEndReason := Some(reason);
      tracker.SetSessionLocked(false);
      compositor.Ui(UiEnd(if reason == AppliedEnd then UiApplied else UiCancelled));
      return CommandResult(reason == AppliedEnd, error);
    }

    /** `pruned`: the stable-order prune of a snapshot, asking for every window once. */
    method PrunedSnapshot(snap: Snapshot) returns (next: Option<Snapshot>)
      requires Wired()
      modifies compositor
      ensures var kept := Survivors(compositor.env, |old(compositor.trace)|, snap.windows);
              next == if kept == [] then None else Some(Snapshot(kept, snap.scope))
      ensures compositor.trace
           == old(compositor.trace) + Answers(compositor.env, |old(compositor.trace)|, snap.windows)
    {
      var survivors := [];
      for i := 0 to |snap.windows|
        invariant survivors == Survivors(compositor.env, |old(compositor.trace)|, snap.windows[..i])
        invariant compositor.trace
               == old(compositor.trace) + Answers(compositor.env, |old(compositor.trace)|, snap.windows[..i])
      {
        assert snap.windows[..i + 1][..i] == snap.windows[..i];
        var valid := compositor.IsValid(snap.windows[i]);
        if valid { survivors := survivors + [snap.windows[i]]; }
      }
      assert snap.windows[..|snap.windows|] == snap.windows;
      if survivors == [] { return None; }
      return Some(Snapshot(survivors, snap.scope));
    }

    method PruneActive()
      requires Wired()
      modifies this, compositor
      ensures Abs() == Pruned(compositor.env, old(Abs()))
    {
      if snapshot.None? { return; }
      var scope := snapshot.value.scope;
      var next := PrunedSnapshot(snapshot.value);
      snapshot := if next.Some? then next else Some(Snapshot([], scope));
      if |snapshot.value.windows| == 0 {
        index := 0;
      } else if index >= |snapshot.value.windows| {
        index := |snapshot.value.windows| - 1;
      }
    }

    method OnFocus(ref: WindowRef)
      modifies tracker, tracker.scheduler
      ensures Abs() == FocusHeard(old(Abs()), ref)
    {
      if active { return; }
      tracker.OnFocus(ref);
    }

    method OnWindowInvalid(ref: WindowRef)
      requires Wired()
      modifies this, tracker, tracker.scheduler, compositor
      ensures Abs() == WindowLost(compositor.env, old(Abs()), ref)
    {
      if !active || snapshot.None? { return; }
      if ref !in snapshot.value.windows { return; }
      PruneActive();
      if |snapshot.value.windows| == 0 { var _ := EndSession(NoWindows, "no windows"); }
    }

    method SetPolicy(policy: SessionPolicy)
      modifies this
      ensures Abs() == PolicySet(old(Abs()), policy)
    {
      this.policy := policy;
    }
  }
}
