// Apply against an adversary: validity may change at every question, focus may answer anything
// and may re-enter the controller with focus events.

module ApplyLaws {
  import opened Wrappers
  import opened Sequences
  import opened Domain
  import opened Selection
  import opened Ports
  import opened Session
  import opened SessionLaws
  import opened Grammar

  /** The focus calls of a trace, in order. */
  function Focuses(t: Trace): Trace {
    if t == [] then []
    else if t[|t| - 1].Focused? then Focuses(t[..|t| - 1]) + [t[|t| - 1]]
    else Focuses(t[..|t| - 1])
  }

  /** The calls to the UI, in order. */
  function UiCalls(t: Trace): Trace {
    if t == [] then []
    else if t[|t| - 1].UiStart? || t[|t| - 1].UiChange? || t[|t| - 1].UiEnd? then UiCalls(t[..|t| - 1]) + [t[|t| - 1]]
    else UiCalls(t[..|t| - 1])
  }

  /** The latest answer about `ref`, if it was ever asked. */
  function LatestAnswer(t: Trace, ref: WindowRef): Option<bool> {
    if t == [] then None
    else if t[|t| - 1].AskedValid? && t[|t| - 1].ref == ref then Some(t[|t| - 1].answer)
    else LatestAnswer(t[..|t| - 1], ref)
  }

  /** Every focus call from position `from` on is for a window of `windows` that was said to be valid
      when it was last asked about. */
  ghost predicate FocusesCheckedWindows(t: Trace, from: nat, windows: seq<WindowRef>) {
    forall i :: from <= i < |t| && t[i].Focused? ==> t[i].ref in windows && LatestAnswer(t[..i], t[i].ref) == Some(true)
  }

  /** What an apply's focus calls mean for the end of the session. */
  function Verdict(focuses: Trace): EndReason
    requires forall i :: 0 <= i < |focuses| ==> focuses[i].Focused?
  {
    if focuses == [] then NoWindows
    else match focuses[|focuses| - 1].result
      case Applied => AppliedEnd
      case Failed => FocusFailed
      case InvalidTarget => if |focuses| == 1 then NoWindows else InvalidSelection
  }

  // ---- traces ----------------------------------------------------------------------------

  lemma {:induction false} CallsAppend(t: Trace, u: Trace)
    ensures Focuses(t + u) == Focuses(t) + Focuses(u)
    ensures UiCalls(t + u) == UiCalls(t) + UiCalls(u)
    decreases |u|
  {
    if u == [] {
      assert t + u == t;
    } else {
      var front := u[..|u| - 1];
      assert (t + u)[..|t + u| - 1] == t + front;
      CallsAppend(t, front);
    }
  }

  lemma {:induction false} QuestionsAreQuiet(qs: Trace)
    requires Questions(qs)
    ensures Focuses(qs) == [] && UiCalls(qs) == []
  {
    if qs != [] { QuestionsAreQuiet(qs[..|qs| - 1]); }
  }

  lemma {:induction false} LatestSkips(t: Trace, u: Trace, ref: WindowRef)
    requires forall i :: 0 <= i < |u| ==> u[i].AskedValid? && u[i].ref != ref
    ensures LatestAnswer(t + u, ref) == LatestAnswer(t, ref)
    decreases |u|
  {
    if u == [] {
      assert t + u == t;
    } else {
      assert (t + u)[..|t + u| - 1] == t + u[..|u| - 1];
      LatestSkips(t, u[..|u| - 1], ref);
    }
  }

  /** After a prune of distinct windows, the latest answer about each survivor is "valid". */
  lemma {:induction false} SurvivorLatest(env: Env, t: Trace, refs: seq<WindowRef>, ref: WindowRef)
    requires Distinct(refs) && ref in Survivors(env, |t|, refs)
    ensures LatestAnswer(t + Answers(env, |t|, refs), ref) == Some(true)
  {
    var front, last := refs[..|refs| - 1], refs[|refs| - 1];
    var asked := Answers(env, |t|, front);
    var ask := AskedValid(last, env.isValid(|t| + |refs| - 1, last));
    assert t + Answers(env, |t|, refs) == t + asked + [ask];
    assert (t + asked + [ask])[..|t + asked|] == t + asked;
    if ref != last {
      SurvivorLatest(env, t, front, ref);
    } else {
      SurvivorsAre(env, |t|, front);
      SubsequenceMembers(Survivors(env, |t|, front), front);
      assert last !in front;
    }
  }

  // ---- one resolve-and-focus -------------------------------------------------------------

  /** The trace of one resolve: questions, then at most one focus. */
  ghost predicate OneFocus(s: Sys, a: Attempt, asked: Trace) {
    var t, t' := s.hist.trace, a.sys.hist.trace;
    && Questions(asked)
    && (a.result.None? ==> t' == t + asked)
    && (a.result.Some? ==>
          && a.sys.ctl.snapshot.Some? && a.sys.ctl.index < |a.sys.ctl.snapshot.value.windows|
          && var ref := a.sys.ctl.snapshot.value.windows[a.sys.ctl.index];
             t' == t + asked + [Focused(ref, a.result.value)] && LatestAnswer(t + asked, ref) == Some(true))
  }

  lemma {:induction false} PruneAsks(env: Env, s: Sys, ref: WindowRef)
    requires s.ctl.snapshot.Some? && Distinct(s.ctl.snapshot.value.windows)
    ensures var s' := Pruned(env, s);
            ref in s'.ctl.snapshot.value.windows ==> LatestAnswer(s'.hist.trace, ref) == Some(true)
  {
    if ref in Pruned(env, s).ctl.snapshot.value.windows {
      SurvivorLatest(env, s.hist.trace, s.ctl.snapshot.value.windows, ref);
    }
  }

  lemma {:induction false} ResolvedOnce(env: Env, s: Sys) returns (asked: Trace)
    requires s.ctl.active && s.ctl.snapshot.Some? && Distinct(s.ctl.snapshot.value.windows)
    ensures OneFocus(s, Resolved(env, s), asked)
  {
    var t, windows := s.hist.trace, s.ctl.snapshot.value.windows;
    var s1 := Pruned(env, s);
    asked := Answers(env, |t|, windows);
    AnswersAreQuestions(env, |t|, windows);
    PrunedIs(env, s);
    if s1.ctl.snapshot.value.windows != [] {
      var ref := s1.ctl.snapshot.value.windows[s1.ctl.index];
      var answer := env.isValid(|s1.hist.trace|, ref);
      var s2 := Logged(s1, AskedValid(ref, answer));
      asked := asked + [AskedValid(ref, answer)];
      assert s2.hist.trace == t + asked;
      if answer {
        assert (t + asked)[..|t + asked| - 1] == s1.hist.trace;
      } else {
        asked := ResolvedAgain(env, s, s1, s2, asked);
      }
    }
  }

  lemma {:induction false} ResolvedAgain(env: Env, s: Sys, s1: Sys, s2: Sys, asked1: Trace) returns (asked: Trace)
    requires s.ctl.active && s.ctl.snapshot.Some? && Distinct(s.ctl.snapshot.value.windows)
    requires s1 == Pruned(env, s) && s1.ctl.snapshot.value.windows != [] && Questions(asked1)
    requires var ref := s1.ctl.snapshot.value.windows[s1.ctl.index];
             s2 == Logged(s1, AskedValid(ref, false)) && !env.isValid(|s1.hist.trace|, ref)
    requires s2.hist.trace == s.hist.trace + asked1
    ensures OneFocus(s, Resolved(env, s), asked)
  {
    var t := s.hist.trace;
    PrunedIs(env, s);
    SubsequenceMembers(s1.ctl.snapshot.value.windows, s.ctl.snapshot.value.windows);
    var s3 := Pruned(env, s2);
    PrunedIs(env, s2);
    var more := Answers(env, |s2.hist.trace|, s2.ctl.snapshot.value.windows);
    AnswersAreQuestions(env, |s2.hist.trace|, s2.ctl.snapshot.value.windows);
    asked := asked1 + more;
    assert t + asked == s2.hist.trace + more;
    if s3.ctl.snapshot.value.windows != [] {
      PruneAsks(env, s2, s3.ctl.snapshot.value.windows[s3.ctl.index]);
    }
  }

  // ---- main results ----------------------------------------------------------------------

  /** What an apply of an open session adds to the trace, whatever the ports answer. */
  ghost predicate ApplyLawful(s: Sys, o: Outcome, added: Trace)
    requires s.ctl.snapshot.Some?
  {
    var focuses := Focuses(added);
    && o.sys.hist.trace == s.hist.trace + added
    && !o.sys.ctl.active
    && |focuses| <= 2
    && (forall i :: 0 <= i < |focuses| ==> focuses[i].Focused?)
    && (|focuses| == 2 ==> focuses[0].result == InvalidTarget)
    && o.sys.ctl.lastEnd == Some(Verdict(focuses))
    && (o.result.ok <==> Verdict(focuses) == AppliedEnd)
    && UiCalls(added) == [UiEnd(if Verdict(focuses) == AppliedEnd then UiApplied else UiCancelled)]
    && FocusesCheckedWindows(o.sys.hist.trace, |s.hist.trace|, s.ctl.snapshot.value.windows)
  }

  lemma {:induction false} ChecksOne(t: Trace, asked: Trace, ref: WindowRef, result: FocusResult,
                                     windows: seq<WindowRef>)
    requires Questions(asked) && ref in windows && LatestAnswer(t + asked, ref) == Some(true)
    ensures FocusesCheckedWindows(t + asked + [Focused(ref, result)], |t|, windows)
  {
    var t' := t + asked + [Focused(ref, result)];
    forall i | |t| <= i < |t'| && t'[i].Focused?
      ensures t'[i].ref in windows && LatestAnswer(t'[..i], t'[i].ref) == Some(true)
    {
      assert i == |t + asked| by {
        assert forall j :: |t| <= j < |t + asked| ==> t'[j] == asked[j - |t|];
      }
      assert t'[..|t + asked|] == t + asked;
    }
  }

  lemma {:induction false} ChecksAppend(t: Trace, u: Trace, from: nat, windows: seq<WindowRef>)
    requires FocusesCheckedWindows(t, from, windows) && FocusesCheckedWindows(t + u, |t|, windows)
    ensures FocusesCheckedWindows(t + u, from, windows)
  {
    forall i | from <= i < |t| && (t + u)[i].Focused?
      ensures (t + u)[i].ref in windows && LatestAnswer((t + u)[..i], (t + u)[i].ref) == Some(true)
    {
      assert (t + u)[..i] == t[..i];
    }
  }

  lemma {:induction false} ChecksQuiet(t: Trace, u: Trace, windows: seq<WindowRef>)
    requires forall i :: 0 <= i < |u| ==> !u[i].Focused?
    ensures FocusesCheckedWindows(t + u, |t|, windows)
  {
    forall i | |t| <= i < |t + u| ensures !(t + u)[i].Focused? { assert (t + u)[i] == u[i - |t|]; }
  }

  /** The calls added by one resolve. */
  lemma {:induction false} ResolveAdds(env: Env, s: Sys) returns (added: Trace)
    requires s.ctl.active && s.ctl.snapshot.Some? && Distinct(s.ctl.snapshot.value.windows)
    ensures var a := Resolved(env, s);
            && a.sys.hist.trace == s.hist.trace + added
            && UiCalls(added) == []
            && Focuses(added) == (if a.result.None? then [] else
                 [Focused(a.sys.ctl.snapshot.value.windows[a.sys.ctl.index], a.result.value)])
            && FocusesCheckedWindows(a.sys.hist.trace, |s.hist.trace|, s.ctl.snapshot.value.windows)
            && Distinct(a.sys.ctl.snapshot.value.windows)
            && forall ref :: ref in a.sys.ctl.snapshot.value.windows ==> ref in s.ctl.snapshot.value.windows
  {
    var a := Resolved(env, s);
    var asked := ResolvedOnce(env, s);
    ResolvedIs(env, s);
    SubsequenceMembers(a.sys.ctl.snapshot.value.windows, s.ctl.snapshot.value.windows);
    QuestionsAreQuiet(asked);
    if a.result.None? {
      ChecksQuiet(s.hist.trace, asked, s.ctl.snapshot.value.windows);
      return asked;
    }
    var ref := a.sys.ctl.snapshot.value.windows[a.sys.ctl.index];
    ChecksOne(s.hist.trace, asked, ref, a.result.value, s.ctl.snapshot.value.windows);
    added := asked + [Focused(ref, a.result.value)];
    assert added[..|added| - 1] == asked;
    assert s.hist.trace + added == s.hist.trace + asked + [Focused(ref, a.result.value)];
  }

  /** The one UI call that ends an apply. */
  lemma {:induction false} FinishAdds(s: Sys, mid: Sys, o: Outcome, added: Trace, reason: EndReason)
    requires s.ctl.snapshot.Some?
    requires mid.hist.trace == s.hist.trace + added && UiCalls(added) == []
    requires var f := Focuses(added);
             && |f| <= 2 && (forall i :: 0 <= i < |f| ==> f[i].Focused?)
             && (|f| == 2 ==> f[0].result == InvalidTarget)
             && reason == Verdict(f)
    requires FocusesCheckedWindows(mid.hist.trace, |s.hist.trace|, s.ctl.snapshot.value.windows)
    requires !o.sys.ctl.active && o.sys.ctl.lastEnd == Some(reason) && o.result.ok == (reason == AppliedEnd)
    requires o.sys.hist.trace == mid.hist.trace + [UiEnd(if reason == AppliedEnd then UiApplied else UiCancelled)]
    ensures ApplyLawful(s, o, added + [UiEnd(if reason == AppliedEnd then UiApplied else UiCancelled)])
  {
    var end := [UiEnd(if reason == AppliedEnd then UiApplied else UiCancelled)];
    CallsAppend(added, end);
    var none := end[..0];
    assert Focuses(none) == [] && UiCalls(none) == [];
    assert Focuses(end) == [] && UiCalls(end) == end;
    assert Focuses(added + end) == Focuses(added);
    ChecksQuiet(mid.hist.trace, end, s.ctl.snapshot.value.windows);
    ChecksAppend(mid.hist.trace, end, |s.hist.trace|, s.ctl.snapshot.value.windows);
    assert s.hist.trace + (added + end) == mid.hist.trace + end;
  }

  function FirstCall(a: Attempt): Trace
    requires a.result.Some? ==> a.sys.ctl.snapshot.Some? && a.sys.ctl.index < |a.sys.ctl.snapshot.value.windows|
  {
    if a.result.None? then [] else [Focused(a.sys.ctl.snapshot.value.windows[a.sys.ctl.index], a.result.value)]
  }

  lemma {:induction false} ApplyOnce(env: Env, s: Sys) returns (added: Trace)
    requires Inv(s) && s.ctl.active && Distinct(s.ctl.snapshot.value.windows)
    requires Resolved(env, s).result != Some(InvalidTarget)
    ensures ApplyLawful(s, ApplyDone(env, s), added) && Focuses(added) == FirstCall(Resolved(env, s))
  {
    var first, o := Resolved(env, s), ApplyDone(env, s);
    added := ResolveAdds(env, s);
    var reason := Verdict(FirstCall(first));
    FinishAdds(s, first.sys, o, added, reason);
    added := added + [UiEnd(if reason == AppliedEnd then UiApplied else UiCancelled)];
    EndIsQuiet(added);
  }

  lemma {:induction false} EndIsQuiet(t: Trace)
    requires t != [] && t[|t| - 1].UiEnd?
    ensures Focuses(t) == Focuses(t[..|t| - 1])
  {
  }

  lemma {:induction false} TwoChecks(t: Trace, once: Trace, more: Trace, windows: seq<WindowRef>, kept: seq<WindowRef>)
    requires FocusesCheckedWindows(t + once, |t|, windows)
    requires FocusesCheckedWindows(t + once + more, |t + once|, kept)
    requires forall ref :: ref in kept ==> ref in windows
    ensures FocusesCheckedWindows(t + (once + more), |t|, windows)
    ensures t + (once + more) == t + once + more
    ensures Focuses(once + more) == Focuses(once) + Focuses(more)
    ensures UiCalls(once + more) == UiCalls(once) + UiCalls(more)
  {
    ChecksAppend(t + once, more, |t|, windows);
    CallsAppend(once, more);
    assert t + (once + more) == t + once + more;
  }

  /** The calls added by two resolves in a row. */
  lemma {:induction false} ResolveTwiceAdds(env: Env, s: Sys) returns (added: Trace)
    requires s.ctl.active && s.ctl.snapshot.Some? && Distinct(s.ctl.snapshot.value.windows)
    ensures var first := Resolved(env, s);
            var second := Resolved(env, first.sys);
            && second.sys.hist.trace == s.hist.trace + added
            && UiCalls(added) == []
            && Focuses(added) == FirstCall(first) + FirstCall(second)
            && FocusesCheckedWindows(second.sys.hist.trace, |s.hist.trace|, s.ctl.snapshot.value.windows)
  {
    var first := Resolved(env, s);
    var once := ResolveAdds(env, s);
    var more := ResolveAdds(env, first.sys);
    TwoChecks(s.hist.trace, once, more, s.ctl.snapshot.value.windows, first.sys.ctl.snapshot.value.windows);
    added := once + more;
  }

  lemma {:induction false} ApplyTwice(env: Env, s: Sys) returns (added: Trace)
    requires Inv(s) && s.ctl.active && Distinct(s.ctl.snapshot.value.windows)
    requires Resolved(env, s).result == Some(InvalidTarget)
    ensures ApplyLawful(s, ApplyDone(env, s), added)
    ensures Focuses(added) == FirstCall(Resolved(env, s)) + FirstCall(Resolved(env, Resolved(env, s).sys))
  {
    var first := Resolved(env, s);
    var calls := ResolveTwiceAdds(env, s);
    added := SecondFinishes(s, first, Resolved(env, first.sys), calls);
  }

  lemma {:induction false} SecondFinishes(s: Sys, first: Attempt, second: Attempt, calls: Trace) returns (added: Trace)
    requires s.ctl.snapshot.Some? && second.sys.ctl.snapshot.Some?
    requires first.result == Some(InvalidTarget)
          && first.sys.ctl.snapshot.Some? && first.sys.ctl.index < |first.sys.ctl.snapshot.value.windows|
    requires second.result.Some? ==> second.sys.ctl.index < |second.sys.ctl.snapshot.value.windows|
    requires second.sys.hist.trace == s.hist.trace + calls && UiCalls(calls) == []
    requires Focuses(calls) == FirstCall(first) + FirstCall(second)
    requires FocusesCheckedWindows(second.sys.hist.trace, |s.hist.trace|, s.ctl.snapshot.value.windows)
    ensures ApplyLawful(s, SecondDone(second), added) && Focuses(added) == Focuses(calls)
  {
    var reason := Verdict(Focuses(calls));
    FinishAdds(s, second.sys, SecondDone(second), calls, reason);
    added := calls + [UiEnd(if reason == AppliedEnd then UiApplied else UiCancelled)];
    EndIsQuiet(added);
  }

  /** At most two focus calls, the second only after InvalidTarget; at most one succeeds; the session
      is over with exactly one UI end, whose reason the focus calls determine; every focused window
      is one of the session's, and the latest answer about it was "valid". The windows of a session
      are distinct because every candidate list is (`Candidates.IsCandidateList`). */
  lemma {:induction false} ApplyAgainstAdversary(env: Env, s: Sys) returns (added: Trace)
    requires Inv(s) && s.ctl.active && Distinct(s.ctl.snapshot.value.windows)
    ensures ApplyLawful(s, ApplyDone(env, s), added)
    ensures FirstCall(Resolved(env, s)) <= Focuses(added)
    ensures Resolved(env, s).result.None? ==> Focuses(added) == []
  {
    if Resolved(env, s).result == Some(InvalidTarget) {
      added := ApplyTwice(env, s);
    } else {
      added := ApplyOnce(env, s);
    }
  }

  /** The same for an apply after any commands, given that candidate lists have no window twice
      (`Candidates.HyprlandWindowSource.Candidates` guarantees it). */
  lemma {:induction false} ApplyAfterAnyRun(env: Env, policy: SessionPolicy, debounceMs: nat, cmds: seq<Command>)
    returns (added: Trace)
    requires DistinctCandidates(env) && Run(env, Initial(policy, debounceMs), cmds).ctl.active
    ensures var s := Run(env, Initial(policy, debounceMs), cmds);
            s.ctl.snapshot.Some? && ApplyLawful(s, ApplyDone(env, s), added)
  {
    RunInv(env, Initial(policy, debounceMs), cmds);
    NoWindowTwice(env, policy, debounceMs, cmds);
    added := ApplyAgainstAdversary(env, Run(env, Initial(policy, debounceMs), cmds));
  }

  // ---- unchanging validity ---------------------------------------------------------------

  ghost predicate Steady(env: Env, valid: WindowRef -> bool) {
    forall n, ref :: env.isValid(n, ref) == valid(ref)
  }

  function Filter(valid: WindowRef -> bool, refs: seq<WindowRef>): seq<WindowRef> {
    if refs == [] then []
    else
      var r := Filter(valid, refs[..|refs| - 1]);
      if valid(refs[|refs| - 1]) then r + [refs[|refs| - 1]] else r
  }

  lemma {:induction false} SteadySurvivors(env: Env, valid: WindowRef -> bool, asked: nat, refs: seq<WindowRef>)
    requires Steady(env, valid)
    ensures Survivors(env, asked, refs) == Filter(valid, refs)
    ensures forall ref :: ref in Filter(valid, refs) ==> valid(ref)
  {
    if refs != [] { SteadySurvivors(env, valid, asked, refs[..|refs| - 1]); }
  }

  lemma {:induction false} SteadyResolved(env: Env, valid: WindowRef -> bool, s: Sys)
    requires Steady(env, valid) && s.ctl.active && s.ctl.snapshot.Some?
    ensures var a := Resolved(env, s);
            var alive := Filter(valid, s.ctl.snapshot.value.windows);
            && a.sys.ctl.snapshot.value.windows == alive
            && (a.result.None? <==> alive == [])
            && (alive != [] ==> a.sys.ctl.index == Min(s.ctl.index, |alive| - 1))
  {
    SteadySurvivors(env, valid, |s.hist.trace|, s.ctl.snapshot.value.windows);
  }

  /** When validity does not change, apply's target is the selected slot of the valid windows,
      clamped to the last one: Filter(valid, S)[min(i, len - 1)]. */
  lemma {:induction false} SteadyTarget(env: Env, valid: WindowRef -> bool, s: Sys) returns (added: Trace)
    requires Inv(s) && s.ctl.active && Distinct(s.ctl.snapshot.value.windows) && Steady(env, valid)
    ensures ApplyLawful(s, ApplyDone(env, s), added)
    ensures var alive := Filter(valid, s.ctl.snapshot.value.windows);
            if alive == [] then Focuses(added) == []
            else Focuses(added) != [] && Focuses(added)[0].ref == alive[Min(s.ctl.index, |alive| - 1)]
  {
    added := ApplyAgainstAdversary(env, s);
    SteadyResolved(env, valid, s);
  }
}
