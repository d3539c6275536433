// The controller over the real registry, window source and focus gateway
// (src/plugin/hypr/hypr_window_source.cpp, hypr_focus_gateway.cpp): windows open, close, die and are
// pruned between commands, and within a command the ports answer from the registry as it is then.

module Switcher {
  import opened Wrappers
  import opened Sequences
  import opened Domain
  import opened Selection
  import opened Ports
  import opened Session
  import opened SessionLaws
  import opened ApplyLaws
  import opened Registry
  import opened Candidates
  import I = Identity

  /** `named`: which window each ref of the open session meant when the session began. */
  datatype Joint = Joint(sys: Sys, world: I.World, named: set<I.Issue>)

  /** A command comes with the ports' answers and the compositor's focus history, newest first. */
  datatype Event = Happens(e: I.Event) | Do(cmd: Command, env: Env, newestFirst: seq<Window>)

  // ---- the world during a command --------------------------------------------------------

  /** Every candidate of the history is registered on sight. */
  function Seen(world: I.World, newestFirst: seq<Window>): I.World {
    if newestFirst == [] then world
    else
      var before, w := Seen(world, newestFirst[..|newestFirst| - 1]), newestFirst[|newestFirst| - 1];
      if IsCandidate(before.desk, Some(w)) then I.Step(before, I.See(w)) else before
  }

  /** A cycle while idle builds a candidate list; no other command touches the registry. */
  function WorldOf(j: Joint, cmd: Command, newestFirst: seq<Window>): I.World {
    if cmd.Cycle? && !j.sys.ctl.active then Seen(j.world, newestFirst) else j.world
  }

  predicate Resolves(world: I.World, ref: WindowRef) { Resolve(world.reg, world.desk, ref).Some? }

  /** The ports answer from the registry: validity and focus by resolving, candidates by the list that
      `Candidates.HyprlandWindowSource.Candidates` builds. */
  ghost predicate Honest(j: Joint, cmd: Command, env: Env, newestFirst: seq<Window>)
    requires Coherent(j.sys.ctl)
  {
    var world := WorldOf(j, cmd, newestFirst);
    && (forall n, ref :: env.isValid(n, ref) == Resolves(world, ref))
    && (forall n, ref :: env.focus(n, ref) == if Resolves(world, ref) then Applied else InvalidTarget)
    && (forall n, scope, order :: exists focus ::
          IsCandidateList(world.reg, world.desk, scope, focus, order, env.candidates(n, scope, order)))
  }

  /** Which windows the listed refs mean now. */
  function Meant(world: I.World, refs: seq<WindowRef>): set<I.Issue> {
    set ref | ref in refs && Resolves(world, ref) :: I.Issue(ref, Resolve(world.reg, world.desk, ref).value)
  }

  function StepJoint(j: Joint, event: Event): (r: Joint)
    requires Coherent(j.sys.ctl)
    ensures Coherent(r.sys.ctl)
  {
    match event
    case Happens(e) => j.(world := I.Step(j.world, e))
    case Do(cmd, env, newestFirst) =>
      var world, sys := WorldOf(j, cmd, newestFirst), Step(env, j.sys, cmd).sys;
      var begun := !j.sys.ctl.active && sys.ctl.active;
      var named := if begun then Meant(world, sys.ctl.snapshot.value.windows) else j.named;
      Joint(sys, world, named)
  }

  function RunJoint(j: Joint, events: seq<Event>): (r: Joint)
    requires Coherent(j.sys.ctl)
    ensures Coherent(r.sys.ctl)
  {
    if events == [] then j else StepJoint(RunJoint(j, events[..|events| - 1]), events[|events| - 1])
  }

  function Begin(policy: SessionPolicy, debounceMs: nat): Joint {
    Joint(Initial(policy, debounceMs), I.START, {})
  }

  /** Every command of the run meets honest ports. */
  ghost predicate HonestRun(j: Joint, events: seq<Event>)
    requires Coherent(j.sys.ctl)
  {
    forall n :: 0 <= n < |events| && events[n].Do? ==>
      Honest(RunJoint(j, events[..n]), events[n].cmd, events[n].env, events[n].newestFirst)
  }

  // ---- the world -------------------------------------------------------------------------

  /** The ref of every entry is on record as handed out for the entry's window. */
  ghost predicate Recorded(world: I.World) {
    forall a :: a in world.reg.byAddress && world.reg.byAddress[a].window.Some? ==>
      I.Issue(world.reg.byAddress[a].ref, world.reg.byAddress[a].window.value) in world.issued
  }

  ghost predicate WorldInv(world: I.World) { I.Inv(world) && Recorded(world) }

  lemma {:induction false} SeeRecorded(world: I.World, w: Window)
    requires WorldInv(world)
    ensures Recorded(I.Step(world, I.See(w)))
  {
  }

  lemma {:induction false} WorldStep(world: I.World, e: I.Event)
    requires WorldInv(world)
    ensures WorldInv(I.Step(world, e))
  {
    I.StepKeeps(world, e);
    match e
    case See(w) => SeeRecorded(world, w);
    case _ =>
  }

  lemma {:induction false} SeenKeeps(world: I.World, newestFirst: seq<Window>)
    requires WorldInv(world)
    ensures WorldInv(Seen(world, newestFirst)) && Seen(world, newestFirst).desk == world.desk
  {
    if newestFirst != [] {
      SeenKeeps(world, newestFirst[..|newestFirst| - 1]);
      WorldStep(Seen(world, newestFirst[..|newestFirst| - 1]), I.See(newestFirst[|newestFirst| - 1]));
    }
  }

  /** The registry after the history was seen is the one that building the candidate list leaves. */
  lemma {:induction false} SeenIsSighted(world: I.World, newestFirst: seq<Window>)
    requires WorldInv(world)
    ensures Seen(world, newestFirst).reg == Sighted(world.reg, world.desk, newestFirst)
  {
    if newestFirst != [] {
      SeenIsSighted(world, newestFirst[..|newestFirst| - 1]);
      SeenKeeps(world, newestFirst[..|newestFirst| - 1]);
    }
  }

  /** A ref on record resolves to the window it was handed out for, or to nothing. */
  lemma {:induction false} ResolvesToIssued(world: I.World, i: I.Issue)
    requires I.Inv(world) && i in world.issued && Resolves(world, i.ref)
    ensures Resolve(world.reg, world.desk, i.ref) == Some(i.window)
  {
  }

  // ---- the run ---------------------------------------------------------------------------

  /** Every window of the open session is named, each once. */
  ghost predicate Named(j: Joint) {
    j.sys.ctl.active && j.sys.ctl.snapshot.Some? ==>
      && Distinct(j.sys.ctl.snapshot.value.windows)
      && forall ref :: ref in j.sys.ctl.snapshot.value.windows ==> exists i :: i in j.named && i.ref == ref
  }

  ghost predicate JointInv(j: Joint) {
    SessionLaws.Inv(j.sys) && WorldInv(j.world) && Named(j)
  }

  lemma {:induction false} ListedResolves(world: I.World, scope: Scope, focus: ScopeRule.FocusContext,
                                          order: seq<WindowRef>, listed: seq<WindowRef>, ref: WindowRef)
    requires IsCandidateList(world.reg, world.desk, scope, focus, order, listed) && ref in listed
    ensures Resolves(world, ref)
  {
    assert Listed(world.reg, world.desk, scope, focus, ref);
  }

  lemma {:induction false} BegunNamed(j: Joint, env: Env, newestFirst: seq<Window>, cmd: Command)
    requires JointInv(j) && !j.sys.ctl.active && cmd.Cycle? && Honest(j, cmd, env, newestFirst)
    ensures Named(StepJoint(j, Do(cmd, env, newestFirst)))
  {
    var world := Seen(j.world, newestFirst);
    var scope := if cmd.scope.Some? then cmd.scope.value else j.sys.ctl.policy.defaultScope;
    var h := History.Flushed(env, j.sys.hist);
    var listed := env.candidates(|h.trace|, scope, h.tracker.order);
    var focus :| IsCandidateList(world.reg, world.desk, scope, focus, h.tracker.order, listed);
    if listed != [] {
      forall ref | ref in listed ensures exists i :: i in Meant(world, listed) && i.ref == ref {
        ListedResolves(world, scope, focus, h.tracker.order, listed, ref);
        assert I.Issue(ref, Resolve(world.reg, world.desk, ref).value) in Meant(world, listed);
      }
    }
  }

  lemma {:induction false} JointStepKeeps(j: Joint, event: Event)
    requires JointInv(j) && (event.Do? ==> Honest(j, event.cmd, event.env, event.newestFirst))
    ensures JointInv(StepJoint(j, event))
  {
    match event
    case Happens(e) => WorldStep(j.world, e);
    case Do(cmd, env, newestFirst) =>
      StepKeeps(env, j.sys, cmd);
      SeenKeeps(j.world, newestFirst);
      var s' := Step(env, j.sys, cmd).sys;
      if s'.ctl.active && j.sys.ctl.active {
        SubsequenceMembers(s'.ctl.snapshot.value.windows, j.sys.ctl.snapshot.value.windows);
      } else if s'.ctl.active {
        IdleStays(env, j.sys, cmd);
        BegunNamed(j, env, newestFirst, cmd);
      }
  }

  /** Only a cycle opens a session. */
  lemma {:induction false} IdleStays(env: Env, s: Sys, cmd: Command)
    requires Coherent(s.ctl) && !s.ctl.active && Step(env, s, cmd).sys.ctl.active
    ensures cmd.Cycle?
  {
  }

  lemma {:induction false} JointRunKeeps(policy: SessionPolicy, debounceMs: nat, events: seq<Event>)
    requires HonestRun(Begin(policy, debounceMs), events)
    ensures JointInv(RunJoint(Begin(policy, debounceMs), events))
  {
    if events != [] {
      var front, last := events[..|events| - 1], events[|events| - 1];
      assert forall n :: 0 <= n <= |front| ==> front[..n] == events[..n];
      JointRunKeeps(policy, debounceMs, front);
      assert events[..|front|] == front;
      JointStepKeeps(RunJoint(Begin(policy, debounceMs), front), last);
    }
  }

  // ---- main results ----------------------------------------------------------------------

  function Alive(world: I.World, refs: seq<WindowRef>): seq<WindowRef> {
    if refs == [] then []
    else
      var r := Alive(world, refs[..|refs| - 1]);
      if Resolves(world, refs[|refs| - 1]) then r + [refs[|refs| - 1]] else r
  }

  lemma {:induction false} AliveIsFilter(world: I.World, valid: WindowRef -> bool, refs: seq<WindowRef>)
    requires forall ref :: valid(ref) == Resolves(world, ref)
    ensures Alive(world, refs) == Filter(valid, refs)
    ensures forall ref :: ref in Alive(world, refs) ==> ref in refs && Resolves(world, ref)
  {
    if refs != [] { AliveIsFilter(world, valid, refs[..|refs| - 1]); }
  }

  lemma {:induction false} ApplyFocusesOne(j: Joint, env: Env, newestFirst: seq<Window>) returns (added: Trace)
    requires JointInv(j) && j.sys.ctl.active && Honest(j, Apply, env, newestFirst)
    ensures ApplyLawful(j.sys, ApplyDone(env, j.sys), added)
    ensures var alive := Alive(j.world, j.sys.ctl.snapshot.value.windows);
            && Focuses(added)
                 == (if alive == [] then [] else [Focused(alive[Min(j.sys.ctl.index, |alive| - 1)], Applied)])
            && forall ref :: ref in alive ==> ref in j.sys.ctl.snapshot.value.windows && Resolves(j.world, ref)
  {
    HonestTarget(j, env, newestFirst);
    added := ApplyOnce(env, j.sys);
  }

  /** What one resolve with honest ports does. */
  lemma {:induction false} HonestTarget(j: Joint, env: Env, newestFirst: seq<Window>)
    requires JointInv(j) && j.sys.ctl.active && Honest(j, Apply, env, newestFirst)
    ensures var a, alive := Resolved(env, j.sys), Alive(j.world, j.sys.ctl.snapshot.value.windows);
            && a.result != Some(InvalidTarget)
            && FirstCall(a)
                 == (if alive == [] then [] else [Focused(alive[Min(j.sys.ctl.index, |alive| - 1)], Applied)])
            && forall ref :: ref in alive ==> ref in j.sys.ctl.snapshot.value.windows && Resolves(j.world, ref)
  {
    HonestResolve(j.world, env, j.sys);
  }

  lemma {:induction false} HonestResolve(world: I.World, env: Env, s: Sys)
    requires s.ctl.active && s.ctl.snapshot.Some?
    requires forall n, ref :: env.isValid(n, ref) == Resolves(world, ref)
    requires forall n, ref :: env.focus(n, ref) == if Resolves(world, ref) then Applied else InvalidTarget
    ensures var a, alive := Resolved(env, s), Alive(world, s.ctl.snapshot.value.windows);
            && a.result != Some(InvalidTarget)
            && FirstCall(a) == (if alive == [] then [] else [Focused(alive[Min(s.ctl.index, |alive| - 1)], Applied)])
            && forall ref :: ref in alive ==> ref in s.ctl.snapshot.value.windows && Resolves(world, ref)
  {
    var valid := (ref: WindowRef) => Resolves(world, ref);
    var a, alive := Resolved(env, s), Alive(world, s.ctl.snapshot.value.windows);
    AliveIsFilter(world, valid, s.ctl.snapshot.value.windows);
    SteadyResolved(env, valid, s);
    ResolvedResult(env, s);
    HonestFirst(world, env, a, alive, s.ctl.index);
  }

  lemma {:induction false} HonestFirst(world: I.World, env: Env, a: Attempt, alive: seq<WindowRef>, index: nat)
    requires a.sys.ctl.snapshot.Some? && a.sys.ctl.snapshot.value.windows == alive && (a.result.None? <==> alive == [])
    requires forall n, ref :: env.focus(n, ref) == if Resolves(world, ref) then Applied else InvalidTarget
    requires forall ref :: ref in alive ==> Resolves(world, ref)
    requires alive != [] ==> a.sys.ctl.index == Min(index, |alive| - 1)
    requires a.result.Some? && a.sys.ctl.index < |alive| ==>
               exists n :: a.result.value == env.focus(n, alive[a.sys.ctl.index])
    ensures a.result != Some(InvalidTarget)
    ensures FirstCall(a) == if alive == [] then [] else [Focused(alive[Min(index, |alive| - 1)], Applied)]
  {
    if alive != [] { assert alive[a.sys.ctl.index] in alive; }
  }

  /** What a resolve returns is what the gateway answered about its target. */
  lemma {:induction false} ResolvedResult(env: Env, s: Sys)
    requires s.ctl.snapshot.Some?
    ensures var a := Resolved(env, s);
            a.result.Some? ==>
              exists n :: a.result.value == env.focus(n, a.sys.ctl.snapshot.value.windows[a.sys.ctl.index])
  {
    var s1 := Pruned(env, s);
    if s1.ctl.snapshot.value.windows != [] {
      var ref := s1.ctl.snapshot.value.windows[s1.ctl.index];
      var s2 := Logged(s1, AskedValid(ref, env.isValid(|s1.hist.trace|, ref)));
      var s3 := if env.isValid(|s1.hist.trace|, ref) then s2 else Pruned(env, s2);
      ClampedResult(env, s3);
    }
  }

  lemma {:induction false} ClampedResult(env: Env, s: Sys)
    requires s.ctl.snapshot.Some?
    ensures var a := ClampedFocus(env, s);
            a.result.Some? ==>
              a.result.value == env.focus(|s.hist.trace|, a.sys.ctl.snapshot.value.windows[a.sys.ctl.index])
  {
  }

  /** The selected slot of the windows that are still there is focused, and it resolves to the window
      it meant when the session began, unless that window's entry was erased since. */
  ghost predicate FocusesWhatWasShown(j: Joint, added: Trace)
    requires j.sys.ctl.snapshot.Some?
  {
    var alive := Alive(j.world, j.sys.ctl.snapshot.value.windows);
    if alive == [] then Focuses(added) == []
    else
      var ref := alive[Min(j.sys.ctl.index, |alive| - 1)];
      && Focuses(added) == [Focused(ref, Applied)]
      && exists i :: i in j.named && i.ref == ref
                     && (i in j.world.issued ==> Resolve(j.world.reg, j.world.desk, ref) == Some(i.window))
  }

  lemma {:induction false} ApplyMeets(j: Joint, env: Env, newestFirst: seq<Window>) returns (added: Trace)
    requires JointInv(j) && j.sys.ctl.active && Honest(j, Apply, env, newestFirst)
    ensures ApplyLawful(j.sys, ApplyDone(env, j.sys), added) && FocusesWhatWasShown(j, added)
  {
    added := ApplyFocusesOne(j, env, newestFirst);
    var alive := Alive(j.world, j.sys.ctl.snapshot.value.windows);
    if alive != [] {
      var ref := alive[Min(j.sys.ctl.index, |alive| - 1)];
      assert ref in alive;
      var i := MeansTheSame(j, ref);
    }
  }

  lemma {:induction false} MeansTheSame(j: Joint, ref: WindowRef) returns (i: I.Issue)
    requires JointInv(j) && j.sys.ctl.active && ref in j.sys.ctl.snapshot.value.windows && Resolves(j.world, ref)
    ensures i in j.named && i.ref == ref
    ensures i in j.world.issued ==> Resolve(j.world.reg, j.world.desk, ref) == Some(i.window)
  {
    i :| i in j.named && i.ref == ref;
    if i in j.world.issued { ResolvesToIssued(j.world, i); }
  }

  /** After any run of window events and commands with honest ports, an apply of an open session
      focuses exactly one window if any of the session's windows is still there, and none otherwise:
      the selected slot of those that are. The focused ref resolves to the very window that it meant
      when the session began, unless that window's entry was erased since. */
  lemma {:induction false} ApplyFocusesWhatWasShown(policy: SessionPolicy, debounceMs: nat, events: seq<Event>,
                                                    env: Env, newestFirst: seq<Window>) returns (added: Trace)
    requires HonestRun(Begin(policy, debounceMs), events)
    requires var j := RunJoint(Begin(policy, debounceMs), events);
             j.sys.ctl.active && Honest(j, Apply, env, newestFirst)
    ensures var j := RunJoint(Begin(policy, debounceMs), events);
            && j.sys.ctl.snapshot.Some?
            && ApplyLawful(j.sys, ApplyDone(env, j.sys), added)
            && FocusesWhatWasShown(j, added)
  {
    JointRunKeeps(policy, debounceMs, events);
    added := ApplyMeets(RunJoint(Begin(policy, debounceMs), events), env, newestFirst);
  }
}
