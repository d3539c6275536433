// Which window an apply focuses when validity may change at every question.

module ApplyTargets {
  import opened Wrappers
  import opened Sequences
  import opened Domain
  import opened Selection
  import opened Ports
  import opened Session
  import opened SessionLaws
  import opened ApplyLaws

  /** The windows whose latest answer is "valid", in order. */
  function ValidNow(t: Trace, refs: seq<WindowRef>): seq<WindowRef> {
    if refs == [] then []
    else
      var r := ValidNow(t, refs[..|refs| - 1]);
      var last := refs[|refs| - 1];
      if LatestAnswer(t, last) == Some(true) then r + [last] else r
  }

  /** Every focus call from position `from` on is for the place `i` of the windows valid by then, or
      for the last of them if they are fewer. */
  ghost predicate TargetsSlot(t: Trace, from: nat, refs: seq<WindowRef>, i: nat) {
    forall k :: from <= k < |t| && t[k].Focused? ==>
      var valid := ValidNow(t[..k], refs);
      valid != [] && t[k].ref == valid[Min(i, |valid| - 1)]
  }

  /** The error text that goes with an end. */
  function ErrorText(reason: EndReason): string {
    match reason
    case NoWindows => "no windows"
    case FocusFailed => "focus failed"
    case InvalidSelection => "selection invalid"
    case _ => ""
  }

  /** An ordered part of a duplicate-free list is found by asking every element. */
  lemma {:induction false} ValidNowIs(t: Trace, refs: seq<WindowRef>, kept: seq<WindowRef>)
    requires Subsequence(kept, refs) && Distinct(refs)
    requires forall ref :: ref in refs ==> (ref in kept <==> LatestAnswer(t, ref) == Some(true))
    ensures ValidNow(t, refs) == kept
    decreases |refs|
  {
    SubsequenceMembers(kept, refs);
    if refs != [] {
      var front, last := refs[..|refs| - 1], refs[|refs| - 1];
      assert last in refs && last !in front;
      assert forall ref :: ref in front ==> ref in refs;
      if Subsequence(kept, front) {
        SubsequenceMembers(kept, front);
        ValidNowIs(t, front, kept);
      } else {
        var kept' := kept[..|kept| - 1];
        SubsequenceMembers(kept', front);
        assert kept == kept' + [last];
        ValidNowIs(t, front, kept');
      }
    }
  }

  /** After a prune of distinct windows, the latest answer about each tells whether it survived. */
  lemma {:induction false} PrunedLatest(env: Env, t: Trace, refs: seq<WindowRef>, ref: WindowRef)
    requires Distinct(refs) && ref in refs
    ensures LatestAnswer(t + Answers(env, |t|, refs), ref) == Some(ref in Survivors(env, |t|, refs))
  {
    var front, last := refs[..|refs| - 1], refs[|refs| - 1];
    var asked := Answers(env, |t|, front);
    var ask := AskedValid(last, env.isValid(|t| + |refs| - 1, last));
    assert t + Answers(env, |t|, refs) == t + asked + [ask];
    assert (t + asked + [ask])[..|t + asked|] == t + asked;
    assert refs == front + [last];
    SurvivorsAre(env, |t|, front);
    SubsequenceMembers(Survivors(env, |t|, front), front);
    if ref != last {
      PrunedLatest(env, t, front, ref);
    } else {
      assert last !in front;
    }
  }

  lemma {:induction false} AnswersAsk(env: Env, asked: nat, refs: seq<WindowRef>)
    ensures var qs := Answers(env, asked, refs);
            forall k :: 0 <= k < |qs| ==> qs[k].AskedValid? && qs[k].ref == refs[k]
  {
    if refs != [] {
      var front, qs := refs[..|refs| - 1], Answers(env, asked, refs);
      AnswersAsk(env, asked, front);
      forall k | 0 <= k < |qs| ensures qs[k].AskedValid? && qs[k].ref == refs[k] {
        if k < |front| { assert qs[k] == Answers(env, asked, front)[k] && front[k] == refs[k]; }
      }
    }
  }

  /** Mid-apply: what is left of `refs` are the windows not said to be invalid, and the index is the
      place `i`, as far as the clamps of shorter lists can tell. */
  ghost predicate Pending(s: Sys, refs: seq<WindowRef>, i: nat) {
    && s.ctl.snapshot.Some? && s.ctl.active
    && Subsequence(s.ctl.snapshot.value.windows, refs)
    && (forall ref :: ref in refs && ref !in s.ctl.snapshot.value.windows ==>
          LatestAnswer(s.hist.trace, ref) == Some(false))
    && forall n :: 0 <= n < |s.ctl.snapshot.value.windows| ==> Min(s.ctl.index, n) == Min(i, n)
  }

  /** Right after a prune: those left are exactly the valid ones, and the index is clamped. */
  ghost predicate Fresh(s: Sys, refs: seq<WindowRef>, i: nat) {
    && Pending(s, refs, i)
    && ValidNow(s.hist.trace, refs) == s.ctl.snapshot.value.windows
    && (s.ctl.snapshot.value.windows != [] ==> s.ctl.index == Min(i, |s.ctl.snapshot.value.windows| - 1))
  }

  lemma {:induction false} PrunedFresh(env: Env, s: Sys, refs: seq<WindowRef>, i: nat)
    requires Pending(s, refs, i) && Distinct(refs)
    ensures Fresh(Pruned(env, s), refs, i)
  {
    var t, windows := s.hist.trace, s.ctl.snapshot.value.windows;
    var s1 := Pruned(env, s);
    var kept := s1.ctl.snapshot.value.windows;
    PrunedIs(env, s);
    SubsequenceMembers(windows, refs);
    SubsequenceMembers(kept, windows);
    SubsequenceTransitive(kept, windows, refs);
    AnswersAsk(env, |t|, windows);
    forall ref | ref in refs ensures LatestAnswer(s1.hist.trace, ref) == Some(ref in kept) {
      if ref in windows {
        PrunedLatest(env, t, windows, ref);
      } else {
        LatestSkips(t, Answers(env, |t|, windows), ref);
      }
    }
    ValidNowIs(s1.hist.trace, refs, kept);
  }

  lemma {:induction false} LatestSnoc(t: Trace, call: Call, ref: WindowRef)
    ensures LatestAnswer(t + [call], ref)
         == if call.AskedValid? && call.ref == ref then Some(call.answer) else LatestAnswer(t, ref)
  {
    assert (t + [call])[..|t|] == t;
  }

  /** The second question about the selected window. */
  lemma {:induction false} RecheckKeeps(s: Sys, refs: seq<WindowRef>, i: nat, answer: bool)
    requires Fresh(s, refs, i) && Distinct(refs) && s.ctl.snapshot.value.windows != []
    ensures s.ctl.index < |s.ctl.snapshot.value.windows|
    ensures var s' := Logged(s, AskedValid(s.ctl.snapshot.value.windows[s.ctl.index], answer));
            Pending(s', refs, i) && (answer ==> Fresh(s', refs, i))
  {
    var windows := s.ctl.snapshot.value.windows;
    var selected := windows[s.ctl.index];
    var call := AskedValid(selected, answer);
    forall ref | ref in refs
      ensures ref != selected ==> LatestAnswer(s.hist.trace + [call], ref) == LatestAnswer(s.hist.trace, ref)
      ensures ref == selected ==> LatestAnswer(s.hist.trace + [call], ref) == Some(answer)
    {
      LatestSnoc(s.hist.trace, call, ref);
    }
    SubsequenceMembers(windows, refs);
    if answer {
      forall ref | ref in refs ensures ref in windows <==> LatestAnswer(s.hist.trace + [call], ref) == Some(true) {
        ValidNowMember(s.hist.trace, refs, ref);
      }
      ValidNowIs(s.hist.trace + [call], refs, windows);
    }
  }

  lemma {:induction false} ValidNowMember(t: Trace, refs: seq<WindowRef>, ref: WindowRef)
    requires ref in refs
    ensures ref in ValidNow(t, refs) <==> LatestAnswer(t, ref) == Some(true)
  {
    var front := refs[..|refs| - 1];
    if ref in front {
      ValidNowMember(t, front, ref);
    } else {
      ValidNowPart(t, front);
    }
  }

  lemma {:induction false} ValidNowPart(t: Trace, refs: seq<WindowRef>)
    ensures forall ref :: ref in ValidNow(t, refs) ==> ref in refs
  {
    if refs != [] { ValidNowPart(t, refs[..|refs| - 1]); }
  }

  /** A focus call answers no question. */
  lemma {:induction false} FocusKeeps(s: Sys, refs: seq<WindowRef>, i: nat, ref: WindowRef, result: FocusResult)
    requires Pending(s, refs, i)
    ensures Pending(Logged(s, Focused(ref, result)), refs, i)
  {
    var t, call := s.hist.trace, Focused(ref, result);
    forall r | r in refs ensures LatestAnswer(t + [call], r) == LatestAnswer(t, r) { LatestSnoc(t, call, r); }
  }

  /** One resolve: the moment `s'` of its focus call, if it makes one, is right after a prune. */
  lemma {:induction false} ResolvedAt(env: Env, s: Sys, refs: seq<WindowRef>, i: nat) returns (s': Sys)
    requires Pending(s, refs, i) && Distinct(refs)
    ensures Fresh(s', refs, i)
    ensures var a := Resolved(env, s);
            if s'.ctl.snapshot.value.windows == [] then a == Attempt(s', None)
            else
              var ref := s'.ctl.snapshot.value.windows[s'.ctl.index];
              var result := env.focus(|s'.hist.trace|, ref);
              a == Attempt(Logged(s', Focused(ref, result)), Some(result))
  {
    var s1 := Pruned(env, s);
    PrunedFresh(env, s, refs, i);
    if s1.ctl.snapshot.value.windows == [] { return s1; }
    var ref := s1.ctl.snapshot.value.windows[s1.ctl.index];
    var answer := env.isValid(|s1.hist.trace|, ref);
    var s2 := Logged(s1, AskedValid(ref, answer));
    RecheckKeeps(s1, refs, i, answer);
    if answer {
      ClampIsFocus(env, s2, refs, i);
      return s2;
    }
    var s3 := Pruned(env, s2);
    PrunedFresh(env, s2, refs, i);
    ClampIsFocus(env, s3, refs, i);
    return s3;
  }

  lemma {:induction false} ClampIsFocus(env: Env, s: Sys, refs: seq<WindowRef>, i: nat)
    requires Fresh(s, refs, i)
    ensures var a := ClampedFocus(env, s);
            if s.ctl.snapshot.value.windows == [] then a == Attempt(s, None)
            else
              var ref := s.ctl.snapshot.value.windows[s.ctl.index];
              var result := env.focus(|s.hist.trace|, ref);
              a == Attempt(Logged(s, Focused(ref, result)), Some(result))
  {
    if s.ctl.snapshot.value.windows != [] { assert s.(ctl := s.ctl.(index := s.ctl.index)) == s; }
  }

  // ---- the focus calls of a trace --------------------------------------------------------

  lemma {:induction false} SlotQuiet(t: Trace, u: Trace, from: nat, refs: seq<WindowRef>, i: nat)
    requires from <= |t| && TargetsSlot(t, from, refs, i) && forall k :: 0 <= k < |u| ==> !u[k].Focused?
    ensures TargetsSlot(t + u, from, refs, i)
  {
    assert forall k :: |t| <= k < |t + u| ==> (t + u)[k] == u[k - |t|];
    forall k | from <= k < |t + u| && (t + u)[k].Focused?
      ensures var valid := ValidNow((t + u)[..k], refs); valid != [] && (t + u)[k].ref == valid[Min(i, |valid| - 1)]
    {
      assert (t + u)[..k] == t[..k];
    }
  }

  lemma {:induction false} SlotFocus(t: Trace, from: nat, refs: seq<WindowRef>, i: nat, result: FocusResult)
    requires TargetsSlot(t, from, refs, i) && ValidNow(t, refs) != []
    ensures var valid := ValidNow(t, refs);
            TargetsSlot(t + [Focused(valid[Min(i, |valid| - 1)], result)], from, refs, i)
  {
    var valid := ValidNow(t, refs);
    var t' := t + [Focused(valid[Min(i, |valid| - 1)], result)];
    assert t'[..|t|] == t;
    forall k | from <= k < |t| && t'[k].Focused?
      ensures var valid := ValidNow(t'[..k], refs); valid != [] && t'[k].ref == valid[Min(i, |valid| - 1)]
    {
      assert t'[..k] == t[..k];
    }
  }

  lemma {:induction false} ResolvedSlot(env: Env, s: Sys, refs: seq<WindowRef>, i: nat, from: nat)
    requires Pending(s, refs, i) && Distinct(refs) && from <= |s.hist.trace|
    requires TargetsSlot(s.hist.trace, from, refs, i) && Distinct(s.ctl.snapshot.value.windows)
    ensures var a := Resolved(env, s);
            && Pending(a.sys, refs, i) && Distinct(a.sys.ctl.snapshot.value.windows)
            && from <= |a.sys.hist.trace| && TargetsSlot(a.sys.hist.trace, from, refs, i)
            && (a.result.None? ==> a.sys.ctl.snapshot.value.windows == [])
  {
    var a := Resolved(env, s);
    var s' := ResolvedAt(env, s, refs, i);
    var asked := ResolvedOnce(env, s);
    SlotQuiet(s.hist.trace, asked, from, refs, i);
    SubsequenceMembers(s'.ctl.snapshot.value.windows, refs);
    if a.result.Some? {
      var ref := s'.ctl.snapshot.value.windows[s'.ctl.index];
      assert s'.hist.trace == a.sys.hist.trace[..|a.sys.hist.trace| - 1] == s.hist.trace + asked;
      SlotFocus(s'.hist.trace, from, refs, i, a.result.value);
      FocusKeeps(s', refs, i, ref, a.result.value);
    }
  }

  // ---- main result -----------------------------------------------------------------------

  ghost predicate EndsRight(o: Outcome, s: Sys) {
    && o.sys.ctl.lastEnd.Some?
    && o.result == CommandResult(o.sys.ctl.lastEnd == Some(AppliedEnd), ErrorText(o.sys.ctl.lastEnd.value))
    && (o.sys.ctl.lastEnd == Some(NoWindows) && s.ctl.snapshot.Some? ==>
          forall ref :: ref in s.ctl.snapshot.value.windows ==> LatestAnswer(o.sys.hist.trace, ref) == Some(false))
  }

  lemma {:induction false} EndSlot(s: Sys, mid: Sys, reason: EndReason)
    requires s.ctl.snapshot.Some? && reason in {NoWindows, FocusFailed, InvalidSelection}
    requires Pending(mid, s.ctl.snapshot.value.windows, s.ctl.index) && |s.hist.trace| <= |mid.hist.trace|
    requires TargetsSlot(mid.hist.trace, |s.hist.trace|, s.ctl.snapshot.value.windows, s.ctl.index)
    requires reason == NoWindows ==> mid.ctl.snapshot.value.windows == []
    ensures var o := EndOutcome(mid, reason, ErrorText(reason));
            && TargetsSlot(o.sys.hist.trace, |s.hist.trace|, s.ctl.snapshot.value.windows, s.ctl.index)
            && EndsRight(o, s)
  {
    SlotQuiet(mid.hist.trace, [UiEnd(UiCancelled)], |s.hist.trace|, s.ctl.snapshot.value.windows, s.ctl.index);
    forall ref | ref in s.ctl.snapshot.value.windows
      ensures LatestAnswer(mid.hist.trace + [UiEnd(UiCancelled)], ref) == LatestAnswer(mid.hist.trace, ref)
    {
      LatestSnoc(mid.hist.trace, UiEnd(UiCancelled), ref);
    }
  }

  lemma {:induction false} CompleteSlot(s: Sys, mid: Sys)
    requires s.ctl.snapshot.Some? && mid.ctl.snapshot.Some? && mid.ctl.index < |mid.ctl.snapshot.value.windows|
    requires |s.hist.trace| <= |mid.hist.trace|
    requires TargetsSlot(mid.hist.trace, |s.hist.trace|, s.ctl.snapshot.value.windows, s.ctl.index)
    ensures var o := ApplyCompleted(mid);
            && TargetsSlot(o.sys.hist.trace, |s.hist.trace|, s.ctl.snapshot.value.windows, s.ctl.index)
            && EndsRight(o, s)
  {
    SlotQuiet(mid.hist.trace, [UiEnd(UiApplied)], |s.hist.trace|, s.ctl.snapshot.value.windows, s.ctl.index);
  }

  lemma {:induction false} AttemptSlot(s: Sys, a: Attempt, o: Outcome)
    requires s.ctl.snapshot.Some? && a.sys.ctl.snapshot.Some?
    requires a.result.Some? ==> a.sys.ctl.index < |a.sys.ctl.snapshot.value.windows|
    requires Pending(a.sys, s.ctl.snapshot.value.windows, s.ctl.index) && |s.hist.trace| <= |a.sys.hist.trace|
    requires TargetsSlot(a.sys.hist.trace, |s.hist.trace|, s.ctl.snapshot.value.windows, s.ctl.index)
    requires a.result.None? ==> a.sys.ctl.snapshot.value.windows == []
    requires o == SecondDone(a)
    ensures TargetsSlot(o.sys.hist.trace, |s.hist.trace|, s.ctl.snapshot.value.windows, s.ctl.index)
    ensures EndsRight(o, s)
  {
    match a.result
    case None => EndSlot(s, a.sys, NoWindows);
    case Some(Applied) => CompleteSlot(s, a.sys);
    case Some(Failed) => EndSlot(s, a.sys, FocusFailed);
    case Some(InvalidTarget) => EndSlot(s, a.sys, InvalidSelection);
  }

  /** Whatever the ports answer, an apply focuses the selected place among the windows that are valid
      at that moment, by the latest answer about each, or the last of them when they are fewer. It
      ends with "no windows" only when the latest answer about every window is "invalid", and the
      result carries the text of the end. */
  lemma {:induction false} ApplyTargetsSlot(env: Env, s: Sys)
    requires Inv(s) && s.ctl.active && Distinct(s.ctl.snapshot.value.windows)
    ensures var o := Step(env, s, Apply);
            && TargetsSlot(o.sys.hist.trace, |s.hist.trace|, s.ctl.snapshot.value.windows, s.ctl.index)
            && EndsRight(o, s)
  {
    var windows, i, from := s.ctl.snapshot.value.windows, s.ctl.index, |s.hist.trace|;
    var first := Resolved(env, s);
    SubsequenceReflexive(windows);
    ResolvedSlot(env, s, windows, i, from);
    if first.result == Some(InvalidTarget) {
      ResolvedSlot(env, first.sys, windows, i, from);
      AttemptSlot(s, Resolved(env, first.sys), ApplyDone(env, s));
    } else {
      AttemptSlot(s, first, ApplyDone(env, s));
    }
  }
}
