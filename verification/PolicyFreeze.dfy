// Policy non-interference: what `set_policy` does while a session is open cannot be observed
// before that session ends.

module PolicyFreeze {
  import opened Domain
  import opened Ports
  import opened Session

  /** Equal in everything but the live policy: same trace of port calls, same history, same clock. */
  ghost predicate Alike(a: Sys, b: Sys) {
    && a.hist == b.hist
    && a.ctl.frozen == b.ctl.frozen && a.ctl.active == b.ctl.active
    && a.ctl.snapshot == b.ctl.snapshot && a.ctl.index == b.ctl.index && a.ctl.origin == b.ctl.origin
    && a.ctl.sessionId == b.ctl.sessionId && a.ctl.lastEnd == b.ctl.lastEnd
  }

  function WithoutPolicy(cmds: seq<Command>): seq<Command> {
    if cmds == [] then []
    else
      var r := WithoutPolicy(cmds[..|cmds| - 1]);
      if cmds[|cmds| - 1].SetPolicy? then r else r + [cmds[|cmds| - 1]]
  }

  /** What the commands other than `SetPolicy` returned. */
  function Results(env: Env, s: Sys, cmds: seq<Command>): seq<CommandResult>
    requires Coherent(s.ctl)
  {
    if cmds == [] then []
    else
      var front, last := cmds[..|cmds| - 1], cmds[|cmds| - 1];
      var r := Results(env, s, front);
      if last.SetPolicy? then r else r + [Step(env, Run(env, s, front), last).result]
  }

  /** The session is still open when each of the commands arrives. */
  ghost predicate ArriveActive(env: Env, s: Sys, cmds: seq<Command>)
    requires Coherent(s.ctl)
  {
    cmds == [] || (ArriveActive(env, s, cmds[..|cmds| - 1]) && Run(env, s, cmds[..|cmds| - 1]).ctl.active)
  }

  lemma {:induction false} PrunedAlike(env: Env, a: Sys, b: Sys)
    requires Alike(a, b)
    ensures Alike(Pruned(env, a), Pruned(env, b))
  {
  }

  lemma {:induction false} ClampedAlike(env: Env, a: Sys, b: Sys)
    requires Alike(a, b) && a.ctl.active && a.ctl.snapshot.Some?
    ensures Alike(ClampedFocus(env, a).sys, ClampedFocus(env, b).sys)
    ensures ClampedFocus(env, a).result == ClampedFocus(env, b).result
  {
  }

  lemma {:induction false} ResolvedAlike(env: Env, a: Sys, b: Sys)
    requires Alike(a, b) && a.ctl.active && a.ctl.snapshot.Some?
    ensures Alike(Resolved(env, a).sys, Resolved(env, b).sys)
    ensures Resolved(env, a).result == Resolved(env, b).result
    ensures Resolved(env, a).sys.ctl.active && Resolved(env, a).sys.ctl.snapshot.Some?
  {
    PrunedAlike(env, a, b);
    var a1, b1 := Pruned(env, a), Pruned(env, b);
    if a1.ctl.snapshot.value.windows != [] {
      var ref := a1.ctl.snapshot.value.windows[a1.ctl.index];
      var answer := env.isValid(|a1.hist.trace|, ref);
      var a2, b2 := Logged(a1, AskedValid(ref, answer)), Logged(b1, AskedValid(ref, answer));
      PrunedAlike(env, a2, b2);
      ClampedAlike(env, if answer then a2 else Pruned(env, a2), if answer then b2 else Pruned(env, b2));
    }
  }

  lemma {:induction false} HeardAlike(a: Sys, b: Sys, refs: seq<WindowRef>)
    requires Alike(a, b)
    ensures Alike(AllHeard(a, refs), AllHeard(b, refs))
  {
    if refs != [] { HeardAlike(a, b, refs[..|refs| - 1]); }
  }

  lemma {:induction false} CancelAlike(env: Env, a: Sys, b: Sys)
    requires Alike(a, b) && a.ctl.active
    ensures Alike(CancelDone(env, a).sys, CancelDone(env, b).sys)
  {
    var a1, b1 := Ended(a, UserCancel), Ended(b, UserCancel);
    if a.ctl.frozen.restoreFocusOnCancel && a.ctl.origin.Some? {
      var origin := a.ctl.origin.value;
      var ask := AskedValid(origin, env.isValid(|a1.hist.trace|, origin));
      var asked := |a1.hist.trace| + 1;
      var focus := Focused(origin, env.focus(asked, origin));
      HeardAlike(Logged(Logged(a1, ask), focus), Logged(Logged(b1, ask), focus), env.reentry(asked, origin));
    }
  }

  lemma {:induction false} ApplyAlike(env: Env, a: Sys, b: Sys)
    requires Alike(a, b) && a.ctl.active && Coherent(a.ctl)
    ensures Alike(ApplyDone(env, a).sys, ApplyDone(env, b).sys)
    ensures ApplyDone(env, a).result == ApplyDone(env, b).result
  {
    ResolvedAlike(env, a, b);
    var first, first' := Resolved(env, a), Resolved(env, b);
    match first.result
    case None => EndAlike(first.sys, first'.sys, NoWindows);
    case Some(Applied) => CompletedAlike(first.sys, first'.sys);
    case Some(Failed) => EndAlike(first.sys, first'.sys, FocusFailed);
    case Some(InvalidTarget) =>
      ResolvedAlike(env, first.sys, first'.sys);
      SecondAlike(Resolved(env, first.sys), Resolved(env, first'.sys));
  }

  lemma {:induction false} EndAlike(a: Sys, b: Sys, reason: EndReason)
    requires Alike(a, b)
    ensures Alike(Ended(a, reason), Ended(b, reason))
  {
  }

  lemma {:induction false} CompletedAlike(a: Sys, b: Sys)
    requires Alike(a, b) && a.ctl.snapshot.Some? && a.ctl.index < |a.ctl.snapshot.value.windows|
    ensures Alike(ApplyCompleted(a).sys, ApplyCompleted(b).sys) && ApplyCompleted(a).result == ApplyCompleted(b).result
  {
    EndAlike(a, b, AppliedEnd);
  }

  lemma {:induction false} SecondAlike(a: Attempt, b: Attempt)
    requires Alike(a.sys, b.sys) && a.result == b.result
    requires a.result.Some? ==> a.sys.ctl.snapshot.Some? && a.sys.ctl.index < |a.sys.ctl.snapshot.value.windows|
    ensures Alike(SecondDone(a).sys, SecondDone(b).sys) && SecondDone(a).result == SecondDone(b).result
  {
  }

  lemma {:induction false} StepAlike(env: Env, a: Sys, b: Sys, cmd: Command)
    requires Alike(a, b) && a.ctl.active && Coherent(a.ctl) && Coherent(b.ctl) && !cmd.SetPolicy?
    ensures Alike(Step(env, a, cmd).sys, Step(env, b, cmd).sys)
    ensures Step(env, a, cmd).result == Step(env, b, cmd).result
  {
    match cmd
    case Apply => ApplyAlike(env, a, b);
    case Cancel => CancelAlike(env, a, b);
    case _ =>
  }

  lemma {:induction false} RunSnoc(env: Env, s: Sys, cmds: seq<Command>, cmd: Command)
    requires Coherent(s.ctl)
    ensures Run(env, s, cmds + [cmd]) == Step(env, Run(env, s, cmds), cmd).sys
    ensures Results(env, s, cmds + [cmd])
         == if cmd.SetPolicy? then Results(env, s, cmds)
            else Results(env, s, cmds) + [Step(env, Run(env, s, cmds), cmd).result]
  {
    assert (cmds + [cmd])[..|cmds|] == cmds;
  }

  /** A run of a session looks as if its `SetPolicy` commands had not been given. */
  lemma {:induction false} PolicyInvisible(env: Env, s: Sys, cmds: seq<Command>)
    requires Coherent(s.ctl) && ArriveActive(env, s, cmds)
    ensures Alike(Run(env, s, cmds), Run(env, s, WithoutPolicy(cmds)))
    ensures Results(env, s, cmds) == Results(env, s, WithoutPolicy(cmds))
  {
    if cmds != [] {
      var front, last := cmds[..|cmds| - 1], cmds[|cmds| - 1];
      PolicyInvisible(env, s, front);
      if !last.SetPolicy? {
        var kept := WithoutPolicy(front);
        StepAlike(env, Run(env, s, front), Run(env, s, kept), last);
        RunSnoc(env, s, kept, last);
      }
    }
  }

  /** Two runs of an open session that differ only in the `SetPolicy` commands given while it is
      open return the same results and make the same port calls (questions, focus and UI calls),
      up to and including the command that ends the session. */
  lemma {:induction false} PolicyNonInterference(env: Env, s: Sys, cmds1: seq<Command>, cmds2: seq<Command>)
    requires Coherent(s.ctl) && ArriveActive(env, s, cmds1) && ArriveActive(env, s, cmds2)
    requires WithoutPolicy(cmds1) == WithoutPolicy(cmds2)
    ensures Run(env, s, cmds1).hist.trace == Run(env, s, cmds2).hist.trace
    ensures Results(env, s, cmds1) == Results(env, s, cmds2)
    ensures Alike(Run(env, s, cmds1), Run(env, s, cmds2))
  {
    PolicyInvisible(env, s, cmds1);
    PolicyInvisible(env, s, cmds2);
  }
}
