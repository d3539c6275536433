// What each command does, told by the calls it makes and by the questions' own answers. Nothing
// here names the functions that the controller is built from.

module CommandLaws {
  import opened Wrappers
  import opened Sequences
  import opened Domain
  import opened Selection
  import opened Ports
  import opened Clock
  import opened History
  import opened Session
  import opened SessionLaws

  // ---- opening a session -----------------------------------------------------------------

  /** The question with which a pending promotion is settled before the candidates are asked for. */
  function Settling(env: Env, h: Hist): Trace {
    if h.tracker.pendingRef.None? then []
    else [AskedValid(h.tracker.pendingRef.value, env.isValid(|h.trace|, h.tracker.pendingRef.value))]
  }

  /** The order that the candidates are asked for with: a pending window found valid leads it. */
  function SettledOrder(env: Env, h: Hist): seq<WindowRef> {
    if h.tracker.pendingRef.Some? && env.isValid(|h.trace|, h.tracker.pendingRef.value)
    then MoveToFront(h.tracker.order, h.tracker.pendingRef.value)
    else h.tracker.order
  }

  /** A cycle without a session asks once for the candidates, of the scope named with the command or
      else of the live default. A session starts exactly if there are any; its start tells that
      list, that scope, and the first or the second place, as the live policy says. */
  lemma {:induction false} CycleOpens(env: Env, s: Sys, dir: Direction, scope: Option<Scope>)
    requires Inv(s) && !s.ctl.active
    ensures var wanted := if scope.Some? then scope.value else s.ctl.policy.defaultScope;
            var t := s.hist.trace + Settling(env, s.hist);
            var order := SettledOrder(env, s.hist);
            var listed := env.candidates(|t|, wanted, order);
            var focused := env.focused(|t| + 1);
            var start := if s.ctl.policy.startOffset == Second && |listed| > 1 then 1 else 0;
            var o := Step(env, s, Cycle(dir, scope));
            var c := o.sys.ctl;
            && o.sys.hist.trace == t + [AskedCandidates(wanted, listed)]
                 + (if listed == [] then [] else [AskedFocused(focused), UiStart(Snapshot(listed, wanted), start)])
            && o.result == (if listed == [] then CommandResult(false, "no windows") else CommandResult(true, ""))
            && o.sys.hist.tracker.order == order && o.sys.hist.tracker.pendingRef == None
            && (listed == [] ==> c == s.ctl)
            && (listed != [] ==>
                  && c.active && c.snapshot == Some(Snapshot(listed, wanted)) && c.index == start
                  && c.origin == focused && c.sessionId == s.ctl.sessionId + 1
                  && c.frozen == s.ctl.policy && c.policy == s.ctl.policy && c.lastEnd == s.ctl.lastEnd)
  {
    var h := Flushed(env, s.hist);
    SettledIs(env, s.hist);
    BegunCalls(env, s, h, if scope.Some? then scope.value else s.ctl.policy.defaultScope);
  }

  lemma {:induction false} SettledIs(env: Env, h: Hist)
    requires JobIffPending(h)
    ensures var h' := Flushed(env, h);
            && h'.trace == h.trace + Settling(env, h)
            && h'.tracker == h.tracker.(order := SettledOrder(env, h), pending := INVALID_JOB, pendingRef := None)
  {
    if h.tracker.pending != INVALID_JOB { CancelClears(h); }
  }

  lemma {:induction false} BegunCalls(env: Env, s: Sys, h: Hist, wanted: Scope)
    requires h == Flushed(env, s.hist) && h.tracker.pending == INVALID_JOB && h.tracker.pendingRef == None
    ensures var listed := env.candidates(|h.trace|, wanted, h.tracker.order);
            var focused := env.focused(|h.trace| + 1);
            var start := if s.ctl.policy.startOffset == Second && |listed| > 1 then 1 else 0;
            var o := SessionBegun(env, s, wanted);
            var c := o.sys.ctl;
            && o.sys.hist.trace == h.trace + [AskedCandidates(wanted, listed)]
                 + (if listed == [] then [] else [AskedFocused(focused), UiStart(Snapshot(listed, wanted), start)])
            && o.result == (if listed == [] then CommandResult(false, "no windows") else CommandResult(true, ""))
            && o.sys.hist.tracker.order == h.tracker.order && o.sys.hist.tracker.pendingRef == None
            && (listed == [] ==> c == s.ctl)
            && (listed != [] ==>
                  && c.active && c.snapshot == Some(Snapshot(listed, wanted)) && c.index == start
                  && c.origin == focused && c.sessionId == s.ctl.sessionId + 1
                  && c.frozen == s.ctl.policy && c.policy == s.ctl.policy && c.lastEnd == s.ctl.lastEnd)
  {
  }

  // ---- moving in a session ---------------------------------------------------------------

  /** A cycle in a session moves one place by the frozen policy, whatever scope it names, and tells
      the UI the new place; nothing else changes. */
  lemma {:induction false} CycleMoves(env: Env, s: Sys, dir: Direction, scope: Option<Scope>)
    requires Inv(s) && s.ctl.active
    ensures var o := Step(env, s, Cycle(dir, scope));
            var j := o.sys.ctl.index;
            && StepsTo(s.ctl.index, dir, s.ctl.frozen.wrap, |s.ctl.snapshot.value.windows|, j)
            && o == Outcome(Sys(s.hist.(trace := s.hist.trace + [UiChange(j)]), s.ctl.(index := j)), OK)
  {
    AdvanceSteps(s.ctl.index, dir, s.ctl.frozen.wrap, |s.ctl.snapshot.value.windows|);
  }

  /** A select in range sets the place and tells it to the UI; any other select does nothing. */
  lemma {:induction false} SelectMoves(env: Env, s: Sys, i: nat)
    requires Inv(s)
    ensures Step(env, s, Select(i)) ==
            if s.ctl.active && i < |s.ctl.snapshot.value.windows|
            then Outcome(Sys(s.hist.(trace := s.hist.trace + [UiChange(i)]), s.ctl.(index := i)), OK)
            else Outcome(s, OK)
  {
  }

  // ---- ending a session ------------------------------------------------------------------

  /** Idle again, with nothing left of the session but its id and the reason for its end. */
  ghost predicate Closed(s: Sys, s': Sys, reason: EndReason) {
    && s'.ctl == s.ctl.(active := false, snapshot := None, index := 0, origin := None, lastEnd := Some(reason))
    && !s'.hist.tracker.locked
    && s'.hist.tracker.order == s.hist.tracker.order
  }

  /** A cancel ends the session first. Then, if the frozen policy restores and there was an origin, it
      asks about the origin, and focuses it exactly if it is valid. */
  lemma {:induction false} CancelRestores(env: Env, s: Sys)
    requires Inv(s) && s.ctl.active
    ensures var o := Step(env, s, Cancel);
            var t := s.hist.trace + [UiEnd(UiCancelled)];
            && o.result == OK && Closed(s, o.sys, UserCancel)
            && o.sys.hist.trace == t + if !s.ctl.frozen.restoreFocusOnCancel || s.ctl.origin.None? then [] else
                 var origin := s.ctl.origin.value;
                 if env.isValid(|t|, origin)
                 then [AskedValid(origin, true), Focused(origin, env.focus(|t| + 1, origin))]
                 else [AskedValid(origin, false)]
  {
    CancelOrder(env, s);
    CancelKeeps(env, s);
  }

  /** A shutdown ends an open session with one call. */
  lemma {:induction false} ShutdownEnds(env: Env, s: Sys)
    requires Inv(s) && s.ctl.active
    ensures var o := Step(env, s, Shutdown);
            o.result == OK && Closed(s, o.sys, PluginShutdown)
            && o.sys.hist.trace == s.hist.trace + [UiEnd(UiCancelled)]
  {
  }

  /** Without a session nothing but a cycle, the tracker's events and the clock do anything. */
  lemma {:induction false} IdleIsQuiet(env: Env, s: Sys, cmd: Command)
    requires Inv(s) && !s.ctl.active
    requires cmd.Select? || cmd.Apply? || cmd.Cancel? || cmd.Shutdown? || cmd.WindowInvalid?
    ensures Step(env, s, cmd) == Outcome(s, OK)
  {
  }

  // ---- losing windows --------------------------------------------------------------------

  /** One question for every window, in order. */
  ghost predicate AsksEach(round: Trace, refs: seq<WindowRef>) {
    |round| == |refs| && forall k :: 0 <= k < |refs| ==> round[k].AskedValid? && round[k].ref == refs[k]
  }

  /** The windows that a round of questions found valid. */
  function SaidValid(round: Trace): seq<WindowRef>
    requires forall k :: 0 <= k < |round| ==> round[k].AskedValid?
  {
    if round == [] then []
    else
      var front, last := round[..|round| - 1], round[|round| - 1];
      SaidValid(front) + if last.answer then [last.ref] else []
  }

  lemma {:induction false} AnswersAre(env: Env, asked: nat, refs: seq<WindowRef>)
    ensures AsksEach(Answers(env, asked, refs), refs)
    ensures SaidValid(Answers(env, asked, refs)) == Survivors(env, asked, refs)
  {
    if refs != [] {
      var front := refs[..|refs| - 1];
      AnswersAre(env, asked, front);
      var t := Answers(env, asked, refs);
      assert t[..|t| - 1] == Answers(env, asked, front);
      forall k | 0 <= k < |refs| ensures t[k].AskedValid? && t[k].ref == refs[k] {
        if k < |front| { assert t[k] == Answers(env, asked, front)[k] && refs[k] == front[k]; }
      }
    }
  }

  /** The loss of a window of the session asks about every window once. Those found valid remain, in
      order, and the selection stays in place or on the last of them; if none remains, the session
      ends. The loss of any other window does nothing. */
  lemma {:induction false} LossPrunes(env: Env, s: Sys, ref: WindowRef) returns (round: Trace)
    requires Inv(s) && s.ctl.active
    ensures var windows := s.ctl.snapshot.value.windows;
            var o := Step(env, s, WindowInvalid(ref));
            if ref !in windows then o == Outcome(s, OK)
            else
              && AsksEach(round, windows) && o.result == OK
              && var kept := SaidValid(round);
                 if kept == [] then
                   Closed(s, o.sys, NoWindows) && o.sys.hist.trace == s.hist.trace + round + [UiEnd(UiCancelled)]
                 else
                   && o.sys.hist == s.hist.(trace := s.hist.trace + round)
                   && o.sys.ctl.index < |kept|
                   && o.sys.ctl.index == (if s.ctl.index < |kept| then s.ctl.index else |kept| - 1)
                   && o.sys.ctl == s.ctl.(snapshot := Some(Snapshot(kept, s.ctl.snapshot.value.scope)),
                                          index := o.sys.ctl.index)
  {
    var windows := s.ctl.snapshot.value.windows;
    round := Answers(env, |s.hist.trace|, windows);
    AnswersAre(env, |s.hist.trace|, windows);
  }

  // ---- events and settings ---------------------------------------------------------------

  /** A focus event is swallowed by a session. Without one it becomes the one pending promotion, due
      after the debounce time, and changes neither the order nor the trace. */
  lemma {:induction false} FocusPends(env: Env, s: Sys, ref: WindowRef)
    requires Inv(s)
    ensures var o := Step(env, s, FocusEvent(ref));
            var h := o.sys.hist;
            && o.result == OK && o.sys.ctl == s.ctl && h.trace == s.hist.trace
            && h.tracker.order == s.hist.tracker.order
            && (s.ctl.active ==> h == s.hist)
            && (!s.ctl.active ==>
                  && h.tracker.pendingRef == Some(ref) && |h.clock.jobs| == 1 && h.clock.now == s.hist.clock.now
                  && h.clock.jobs[0].callback == ref && h.clock.jobs[0].id == h.tracker.pending
                  && h.clock.jobs[0].runAt == s.hist.clock.now + s.hist.tracker.debounceMs)
  {
    if !s.ctl.active { CancelClears(s.hist); }
  }

  /** The settings: a new policy is the live policy and nothing else; a new debounce time is held at
      five seconds and moves no promotion that is pending already. */
  lemma {:induction false} SettingsChange(env: Env, s: Sys, policy: SessionPolicy, ms: nat)
    requires Inv(s)
    ensures Step(env, s, SetPolicy(policy)) == Outcome(Sys(s.hist, s.ctl.(policy := policy)), OK)
    ensures var tracker := s.hist.tracker.(debounceMs := if ms < 5000 then ms else 5000);
            Step(env, s, SetDebounce(ms)).sys == Sys(s.hist.(tracker := tracker), s.ctl)
  {
  }

  /** Time that passes commits the pending promotion exactly when it is due, if its window is valid
      then, and asks only about it; in a session it does nothing. */
  lemma {:induction false} TimeCommits(env: Env, s: Sys, ms: nat)
    requires Inv(s)
    ensures var o := Step(env, s, Pass(ms));
            var h, now := s.hist, s.hist.clock.now + ms;
            && o.sys.ctl == s.ctl && o.sys.hist.clock.now == now
            && (if s.ctl.active || h.tracker.pendingRef.None? || h.clock.jobs[0].runAt > now then
                  o.sys.hist == h.(clock := h.clock.(now := now))
                else
                  var ref := h.tracker.pendingRef.value;
                  var answer := env.isValid(|h.trace|, ref);
                  && o.sys.hist.trace == h.trace + [AskedValid(ref, answer)]
                  && o.sys.hist.tracker.order == (if answer then MoveToFront(h.tracker.order, ref) else h.tracker.order)
                  && o.sys.hist.tracker.pendingRef == None && o.sys.hist.clock.jobs == [])
  {
    AdvancedIs(env, s.hist, ms);
  }
}
