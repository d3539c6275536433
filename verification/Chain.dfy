// Chains of sessions: with every window valid and focus succeeding, each session that is applied
// moves its window to the front of the list that the next session shows.

module Chain {
  import opened Wrappers
  import opened Sequences
  import opened Domain
  import opened Selection
  import opened Ports
  import opened Clock
  import opened History
  import opened Session
  import opened SessionLaws
  import opened MruMerge

  /** All windows valid, focus succeeding, candidates merged from the order and a fixed fallback.
      What re-enters from a focus call, and which window has focus, stay arbitrary. */
  ghost predicate Ideal(env: Env, fallback: seq<WindowRef>) {
    && (forall n, ref :: env.isValid(n, ref))
    && (forall n, ref :: env.focus(n, ref) == Applied)
    && (forall n, scope, order :: env.candidates(n, scope, order) == Merged(order, fallback))
  }

  datatype Gap = Wait(ms: nat) | Again | Retune(ms: nat)

  datatype Ending = ByApply | ByCancel | ByShutdown

  /** One use of the switcher: the first cycle, what happens until the end (cycles, selects, time, any
      focus and close events), how it ends, and what happens after it (time, and after an apply
      repeat focus of the applied window). */
  datatype Round = Round(dir: Direction, scope: Option<Scope>, inner: seq<Command>, ending: Ending, gap: seq<Gap>)

  predicate Legal(round: Round) {
    && (forall i :: 0 <= i < |round.inner| ==>
          var cmd := round.inner[i]; !cmd.Apply? && !cmd.Cancel? && !cmd.Shutdown? && !cmd.SetPolicy?)
    && (round.ending.ByApply? || forall i :: 0 <= i < |round.gap| ==> !round.gap[i].Again?)
  }

  /** Where a command leaves the selection of an open session with `len` windows. */
  function Moved(index: nat, cmd: Command, wrap: bool, len: nat): (i: nat)
    ensures index < len ==> i < len
  {
    match cmd
    case Cycle(dir, _) => AdvanceIndex(index, dir, wrap, len)
    case Select(i) => if i < len then i else index
    case _ => index
  }

  function MovedAll(index: nat, cmds: seq<Command>, wrap: bool, len: nat): (i: nat)
    ensures index < len ==> i < len
  {
    if cmds == [] then index else Moved(MovedAll(index, cmds[..|cmds| - 1], wrap, len), cmds[|cmds| - 1], wrap, len)
  }

  function GapCommand(gap: Gap, applied: WindowRef): Command {
    match gap
    case Wait(ms) => Pass(ms)
    case Again => FocusEvent(applied)
    case Retune(ms) => SetDebounce(ms)
  }

  function GapCommands(gap: seq<Gap>, applied: WindowRef): seq<Command> {
    if gap == [] then []
    else GapCommands(gap[..|gap| - 1], applied) + [GapCommand(gap[|gap| - 1], applied)]
  }

  /** Where the round's cycles and selects end up in the list `l`. */
  function Landing(l: seq<WindowRef>, policy: SessionPolicy, round: Round): (i: nat)
    requires l != []
    ensures i < |l|
  {
    MovedAll(InitialIndex(policy.startOffset, |l|), round.inner, policy.wrap, |l|)
  }

  function EndCommand(ending: Ending): Command {
    match ending
    case ByApply => Apply
    case ByCancel => Cancel
    case ByShutdown => Shutdown
  }

  function RoundCommands(l: seq<WindowRef>, policy: SessionPolicy, round: Round): seq<Command>
    requires l != []
  {
    [Cycle(round.dir, round.scope)] + round.inner + [EndCommand(round.ending)]
    + GapCommands(round.gap, l[Landing(l, policy, round)])
  }

  /** The order as it will be when what is pending has been committed. */
  function Settled(h: Hist): seq<WindowRef> {
    if h.tracker.pending != INVALID_JOB && h.tracker.pendingRef.Some?
    then MoveToFront(h.tracker.order, h.tracker.pendingRef.value) else h.tracker.order
  }

  /** The list that the next session will show. */
  function NextList(s: Sys, fallback: seq<WindowRef>): seq<WindowRef> {
    Merged(Settled(s.hist), fallback)
  }

  // ---- phases of a round -----------------------------------------------------------------

  lemma {:induction false} RunSnoc(env: Env, s: Sys, cmds: seq<Command>, cmd: Command)
    requires Coherent(s.ctl)
    ensures Run(env, s, cmds + [cmd]) == Step(env, Run(env, s, cmds), cmd).sys
  {
    assert (cmds + [cmd])[..|cmds|] == cmds;
  }

  lemma {:induction false} RunAppend(env: Env, s: Sys, a: seq<Command>, b: seq<Command>)
    requires Coherent(s.ctl)
    ensures Run(env, s, a + b) == Run(env, Run(env, s, a), b)
    decreases |b|
  {
    if b == [] {
      assert a + b == a;
    } else {
      RunAppend(env, s, a, b[..|b| - 1]);
      assert (a + b)[..|a + b| - 1] == a + b[..|b| - 1];
    }
  }

  lemma {:induction false} Begins(env: Env, fallback: seq<WindowRef>, s: Sys, dir: Direction, scope: Option<Scope>)
    requires Ideal(env, fallback) && Inv(s) && !s.ctl.active && NextList(s, fallback) != []
    ensures var s' := Step(env, s, Cycle(dir, scope)).sys;
            && Inv(s') && s'.ctl.active
            && s'.ctl.snapshot.value.windows == NextList(s, fallback)
            && s'.ctl.index == InitialIndex(s.ctl.policy.startOffset, |NextList(s, fallback)|)
            && s'.ctl.frozen == s.ctl.policy && s'.ctl.policy == s.ctl.policy
            && s'.hist.tracker.order == Settled(s.hist)
  {
    StepKeeps(env, s, Cycle(dir, scope));
    if s.hist.tracker.pending != INVALID_JOB { CancelClears(s.hist); }
    assert Flushed(env, s.hist).tracker.order == Settled(s.hist);
  }

  ghost predicate InRound(s0: Sys, s: Sys, cmds: seq<Command>)
    requires s0.ctl.active && Coherent(s0.ctl)
  {
    && Inv(s) && s.ctl.active
    && s.ctl.snapshot == s0.ctl.snapshot
    && s.ctl.index == MovedAll(s0.ctl.index, cmds, s0.ctl.frozen.wrap, |s0.ctl.snapshot.value.windows|)
    && s.ctl.frozen == s0.ctl.frozen && s.ctl.policy == s0.ctl.policy && s.ctl.origin == s0.ctl.origin
    && s.hist.tracker.order == s0.hist.tracker.order
  }

  lemma {:induction false} AllSurvive(env: Env, asked: nat, refs: seq<WindowRef>)
    requires forall n, ref :: env.isValid(n, ref)
    ensures Survivors(env, asked, refs) == refs
  {
    if refs != [] { AllSurvive(env, asked, refs[..|refs| - 1]); }
  }

  lemma {:induction false} NothingLost(env: Env, s: Sys, ref: WindowRef)
    requires (forall n, ref :: env.isValid(n, ref)) && Inv(s) && s.ctl.active
    ensures var s' := WindowLost(env, s, ref); s'.ctl == s.ctl && s'.hist.tracker == s.hist.tracker
  {
    AllSurvive(env, |s.hist.trace|, s.ctl.snapshot.value.windows);
  }

  lemma {:induction false} InsideStep(env: Env, s0: Sys, s: Sys, cmds: seq<Command>, cmd: Command)
    requires (forall n, ref :: env.isValid(n, ref)) && s0.ctl.active && Coherent(s0.ctl) && InRound(s0, s, cmds)
    requires !cmd.Apply? && !cmd.Cancel? && !cmd.Shutdown? && !cmd.SetPolicy?
    ensures InRound(s0, Step(env, s, cmd).sys, cmds + [cmd])
  {
    StepKeeps(env, s, cmd);
    assert (cmds + [cmd])[..|cmds|] == cmds;
    match cmd
    case Pass(ms) => AdvancedKeeps(env, s.hist, ms);
    case WindowInvalid(ref) => NothingLost(env, s, ref);
    case _ =>
  }

  lemma {:induction false} Inside(env: Env, s0: Sys, round: Round, n: nat)
    requires (forall n, ref :: env.isValid(n, ref)) && Inv(s0) && s0.ctl.active
    requires Legal(round) && n <= |round.inner|
    ensures InRound(s0, Run(env, s0, round.inner[..n]), round.inner[..n])
  {
    if n > 0 {
      Inside(env, s0, round, n - 1);
      var front := round.inner[..n - 1];
      assert round.inner[..n] == front + [round.inner[n - 1]];
      RunSnoc(env, s0, front, round.inner[n - 1]);
      InsideStep(env, s0, Run(env, s0, front), front, round.inner[n - 1]);
    }
  }

  lemma {:induction false} Applies(env: Env, fallback: seq<WindowRef>, s: Sys)
    requires Ideal(env, fallback) && Inv(s) && s.ctl.active
    ensures var s' := Step(env, s, Apply).sys;
            var applied := s.ctl.snapshot.value.windows[s.ctl.index];
            && Inv(s') && !s'.ctl.active
            && s'.ctl.lastEnd == Some(AppliedEnd)
            && s'.ctl.policy == s.ctl.policy
            && s'.hist.tracker.order == s.hist.tracker.order
            && s'.hist.tracker.pending != INVALID_JOB && s'.hist.tracker.pendingRef == Some(applied)
  {
    StepKeeps(env, s, Apply);
    AllSurvive(env, |s.hist.trace|, s.ctl.snapshot.value.windows);
    var first := Resolved(env, s);
    ResolvedIs(env, s);
    assert first.result == Some(Applied);
    var ended := Ended(first.sys, AppliedEnd);
    EndedKeeps(first.sys, AppliedEnd);
    FocusSeenKeeps(ended.hist, s.ctl.snapshot.value.windows[s.ctl.index]);
  }

  /** The focus events that re-enter from the focus that a cancel restores, if it restores one. */
  function CancelEvents(env: Env, s: Sys): seq<WindowRef> {
    if s.ctl.frozen.restoreFocusOnCancel && s.ctl.origin.Some?
    then env.reentry(|s.hist.trace| + 2, s.ctl.origin.value) else []
  }

  function LastOf(refs: seq<WindowRef>): Option<WindowRef> {
    if refs == [] then None else Some(refs[|refs| - 1])
  }

  lemma {:induction false} HeardPends(s: Sys, refs: seq<WindowRef>)
    requires Inv(s) && !s.ctl.active && s.hist.tracker.pending == INVALID_JOB
    ensures var s' := AllHeard(s, refs);
            && Inv(s') && !s'.ctl.active && s'.hist.tracker.order == s.hist.tracker.order
            && s'.hist.tracker.pendingRef == LastOf(refs)
            && (s'.hist.tracker.pending != INVALID_JOB <==> refs != [])
  {
    if refs != [] {
      var s' := AllHeard(s, refs[..|refs| - 1]);
      HeardPends(s, refs[..|refs| - 1]);
      FocusSeenKeeps(s'.hist, refs[|refs| - 1]);
    }
  }

  /** A cancel pends the last window whose focus re-enters from it, and otherwise leaves history alone. */
  lemma {:induction false} Cancels(env: Env, s: Sys)
    requires (forall n, ref :: env.isValid(n, ref)) && Inv(s) && s.ctl.active
    ensures var s' := Step(env, s, Cancel).sys;
            && Inv(s') && !s'.ctl.active && s'.ctl.policy == s.ctl.policy
            && s'.hist.tracker.order == s.hist.tracker.order
            && s'.hist.tracker.pendingRef == LastOf(CancelEvents(env, s))
            && (s'.hist.tracker.pending != INVALID_JOB <==> CancelEvents(env, s) != [])
  {
    var s1 := Ended(s, UserCancel);
    EndedKeeps(s, UserCancel);
    if s.ctl.frozen.restoreFocusOnCancel && s.ctl.origin.Some? {
      var origin := s.ctl.origin.value;
      var s2 := Logged(s1, AskedValid(origin, true));
      HeardPends(Logged(s2, Focused(origin, env.focus(|s2.hist.trace|, origin))), CancelEvents(env, s));
    }
  }

  lemma {:induction false} ShutsDown(env: Env, s: Sys)
    requires Inv(s) && s.ctl.active
    ensures var s' := Step(env, s, Shutdown).sys;
            && Inv(s') && !s'.ctl.active && s'.ctl.policy == s.ctl.policy
            && s'.hist.tracker.order == s.hist.tracker.order && s'.hist.tracker.pending == INVALID_JOB
  {
    EndedKeeps(s, PluginShutdown);
  }

  /** After a round: whatever is pending is `front`, and settling gives `order`. */
  ghost predicate AfterRound(s: Sys, front: Option<WindowRef>, order: seq<WindowRef>, policy: SessionPolicy) {
    && Inv(s) && !s.ctl.active && s.ctl.policy == policy
    && (s.hist.tracker.pending != INVALID_JOB ==> front.Some? && s.hist.tracker.pendingRef == front)
    && Settled(s.hist) == order && (front.Some? ==> exists o :: order == MoveToFront(o, front.value))
  }

  lemma {:induction false} AfterStep(env: Env, s: Sys, front: Option<WindowRef>, order: seq<WindowRef>,
                                     policy: SessionPolicy, cmd: Command)
    requires (forall n, ref :: env.isValid(n, ref)) && AfterRound(s, front, order, policy)
    requires cmd.Pass? || cmd.SetDebounce? || (front.Some? && cmd == FocusEvent(front.value))
    ensures AfterRound(Step(env, s, cmd).sys, front, order, policy)
  {
    StepKeeps(env, s, cmd);
    match cmd
    case Pass(ms) => AdvancedIs(env, s.hist, ms);
    case FocusEvent(w) =>
      FocusSeenKeeps(s.hist, w);
      var o :| order == MoveToFront(o, w);
      MoveToFrontTwice(o, w);
    case SetDebounce(_) =>
  }

  lemma {:induction false} AfterGap(env: Env, s: Sys, front: Option<WindowRef>, order: seq<WindowRef>,
                                    policy: SessionPolicy, gap: seq<Gap>, w: WindowRef)
    requires (forall n, ref :: env.isValid(n, ref)) && AfterRound(s, front, order, policy)
    requires front == Some(w) || forall i :: 0 <= i < |gap| ==> !gap[i].Again?
    ensures AfterRound(Run(env, s, GapCommands(gap, w)), front, order, policy)
  {
    if gap != [] {
      var before := GapCommands(gap[..|gap| - 1], w);
      AfterGap(env, s, front, order, policy, gap[..|gap| - 1], w);
      var cmd := GapCommand(gap[|gap| - 1], w);
      RunSnoc(env, s, before, cmd);
      AfterStep(env, Run(env, s, before), front, order, policy, cmd);
    }
  }

  /** A round up to the command that ends it. */
  lemma {:induction false} RoundOpens(env: Env, fallback: seq<WindowRef>, s: Sys, round: Round)
    requires Ideal(env, fallback) && Inv(s) && !s.ctl.active && Legal(round) && NextList(s, fallback) != []
    ensures var l := NextList(s, fallback);
            var s' := Run(env, s, [Cycle(round.dir, round.scope)] + round.inner);
            && Inv(s') && s'.ctl.active
            && s'.ctl.snapshot.value.windows == l && s'.ctl.index == Landing(l, s.ctl.policy, round)
            && s'.ctl.frozen == s.ctl.policy && s'.ctl.policy == s.ctl.policy
            && s'.hist.tracker.order == Settled(s.hist)
  {
    var first: seq<Command> := [Cycle(round.dir, round.scope)];
    var none: seq<Command> := [];
    assert first == none + first;
    RunSnoc(env, s, none, Cycle(round.dir, round.scope));
    var s1 := Run(env, s, first);
    Begins(env, fallback, s, round.dir, round.scope);
    Inside(env, s1, round, |round.inner|);
    assert round.inner[..|round.inner|] == round.inner;
    RunAppend(env, s, first, round.inner);
  }

  /** The command that ends a round, and what follows it. */
  lemma {:induction false} RoundCloses(env: Env, s: Sys, before: seq<Command>, ending: Command,
                                       front: Option<WindowRef>,
                                       order: seq<WindowRef>, policy: SessionPolicy, gap: seq<Gap>, w: WindowRef)
    requires (forall n, ref :: env.isValid(n, ref)) && Coherent(s.ctl)
    requires AfterRound(Step(env, Run(env, s, before), ending).sys, front, order, policy)
    requires front == Some(w) || forall i :: 0 <= i < |gap| ==> !gap[i].Again?
    ensures AfterRound(Run(env, s, before + [ending] + GapCommands(gap, w)), front, order, policy)
  {
    RunSnoc(env, s, before, ending);
    AfterGap(env, Step(env, Run(env, s, before), ending).sys, front, order, policy, gap, w);
    RunAppend(env, s, before + [ending], GapCommands(gap, w));
  }

  // ---- main results ----------------------------------------------------------------------

  /** One applied round: the session shows the settled list, applies the window its cycles and selects
      land on, and the next list is this one with that window moved to the front, however much time
      passes and however often the applied window reports focus. */
  lemma {:induction false} RoundMovesToFront(env: Env, fallback: seq<WindowRef>, s: Sys, round: Round)
    requires Ideal(env, fallback) && Inv(s) && !s.ctl.active && Legal(round) && round.ending.ByApply?
    requires NextList(s, fallback) != []
    ensures var l := NextList(s, fallback);
            var s' := Run(env, s, RoundCommands(l, s.ctl.policy, round));
            && Inv(s') && !s'.ctl.active && s'.ctl.policy == s.ctl.policy
            && NextList(s', fallback) == MoveToFront(l, l[Landing(l, s.ctl.policy, round)])
            && multiset(NextList(s', fallback)) == multiset(l)
  {
    var l, policy := NextList(s, fallback), s.ctl.policy;
    var w := l[Landing(l, policy, round)];
    var before := [Cycle(round.dir, round.scope)] + round.inner;
    RoundOpens(env, fallback, s, round);
    Applies(env, fallback, Run(env, s, before));
    RoundCloses(env, s, before, Apply, Some(w), MoveToFront(Settled(s.hist), w), policy, round.gap, w);
    MergeMovesToFront(Settled(s.hist), fallback, w);
    MoveToFrontPermutes(l, w);
  }

  function Promote(l: seq<WindowRef>, w: Option<WindowRef>): seq<WindowRef> {
    if w.None? then l else MoveToFront(l, w.value)
  }

  /** The state in which the round's ending command arrives. */
  function AtEnd(env: Env, s: Sys, round: Round): Sys
    requires Coherent(s.ctl)
  {
    Run(env, s, [Cycle(round.dir, round.scope)] + round.inner)
  }

  /** One cancelled round: the next list is the same, unless a focus event re-enters from the focus
      that the cancel restores; then the last such window is at its front. */
  lemma {:induction false} CancelledRound(env: Env, fallback: seq<WindowRef>, s: Sys, round: Round)
    requires Ideal(env, fallback) && Inv(s) && !s.ctl.active && Legal(round) && round.ending.ByCancel?
    requires NextList(s, fallback) != []
    ensures var l := NextList(s, fallback);
            var s' := Run(env, s, RoundCommands(l, s.ctl.policy, round));
            && Inv(s') && !s'.ctl.active && s'.ctl.policy == s.ctl.policy
            && NextList(s', fallback) == Promote(l, LastOf(CancelEvents(env, AtEnd(env, s, round))))
  {
    var l, order := NextList(s, fallback), Settled(s.hist);
    var before := [Cycle(round.dir, round.scope)] + round.inner;
    var front := LastOf(CancelEvents(env, AtEnd(env, s, round)));
    RoundOpens(env, fallback, s, round);
    Cancels(env, AtEnd(env, s, round));
    RoundCloses(env, s, before, Cancel, front, Promote(order, front), s.ctl.policy, round.gap,
                l[Landing(l, s.ctl.policy, round)]);
    if front.Some? { MergeMovesToFront(order, fallback, front.value); }
  }

  /** A round that the plugin's shutdown ends leaves the next list as it was. */
  lemma {:induction false} ShutDownRound(env: Env, fallback: seq<WindowRef>, s: Sys, round: Round)
    requires Ideal(env, fallback) && Inv(s) && !s.ctl.active && Legal(round) && round.ending.ByShutdown?
    requires NextList(s, fallback) != []
    ensures var l := NextList(s, fallback);
            var s' := Run(env, s, RoundCommands(l, s.ctl.policy, round));
            Inv(s') && !s'.ctl.active && s'.ctl.policy == s.ctl.policy && NextList(s', fallback) == l
  {
    var l := NextList(s, fallback);
    RoundOpens(env, fallback, s, round);
    ShutsDown(env, AtEnd(env, s, round));
    RoundCloses(env, s, [Cycle(round.dir, round.scope)] + round.inner, Shutdown, None, Settled(s.hist), s.ctl.policy,
                round.gap, l[Landing(l, s.ctl.policy, round)]);
  }

  /** What a chain of rounds makes of a list, without the controller. */
  function ChainList(l: seq<WindowRef>, policy: SessionPolicy, rounds: seq<Round>): (r: seq<WindowRef>)
    ensures l != [] ==> r != []
  {
    if rounds == [] || l == [] then l
    else
      var r, round := ChainList(l, policy, rounds[..|rounds| - 1]), rounds[|rounds| - 1];
      if round.ending.ByApply? then MoveToFront(r, r[Landing(r, policy, round)]) else r
  }

  function ChainRun(env: Env, fallback: seq<WindowRef>, s: Sys, rounds: seq<Round>): (r: Sys)
    requires Coherent(s.ctl)
    ensures Coherent(r.ctl)
  {
    if rounds == [] then s
    else
      var r := ChainRun(env, fallback, s, rounds[..|rounds| - 1]);
      var l := NextList(r, fallback);
      if l == [] then r else Run(env, r, RoundCommands(l, s.ctl.policy, rounds[|rounds| - 1]))
  }

  /** No focus event re-enters from a focus that a cancel restores. */
  ghost predicate SilentCancels(env: Env, policy: SessionPolicy) {
    policy.restoreFocusOnCancel ==> forall n, ref :: env.reentry(n, ref) == []
  }

  lemma {:induction false} OneRound(env: Env, fallback: seq<WindowRef>, s: Sys, round: Round)
    requires Ideal(env, fallback) && Inv(s) && !s.ctl.active && Legal(round) && NextList(s, fallback) != []
    requires round.ending.ByCancel? ==> SilentCancels(env, s.ctl.policy)
    ensures var l := NextList(s, fallback);
            var s' := Run(env, s, RoundCommands(l, s.ctl.policy, round));
            && Inv(s') && !s'.ctl.active && s'.ctl.policy == s.ctl.policy
            && NextList(s', fallback)
                 == (if round.ending.ByApply? then MoveToFront(l, l[Landing(l, s.ctl.policy, round)]) else l)
            && multiset(NextList(s', fallback)) == multiset(l)
  {
    match round.ending
    case ByApply => RoundMovesToFront(env, fallback, s, round);
    case ByCancel =>
      CancelledRound(env, fallback, s, round);
      RoundOpens(env, fallback, s, round);
    case ByShutdown => ShutDownRound(env, fallback, s, round);
  }

  /** Any number of applied, cancelled and shut down rounds: the next list is the fold of move-to-front
      over the landings of the applied ones, and it is always a permutation of the first. */
  lemma {:induction false} ChainMovesToFront(env: Env, fallback: seq<WindowRef>, s: Sys, rounds: seq<Round>)
    requires Ideal(env, fallback) && Inv(s) && !s.ctl.active && NextList(s, fallback) != []
    requires forall i :: 0 <= i < |rounds| ==> Legal(rounds[i])
    requires (exists i :: 0 <= i < |rounds| && rounds[i].ending.ByCancel?) ==> SilentCancels(env, s.ctl.policy)
    ensures var s' := ChainRun(env, fallback, s, rounds);
            && Inv(s') && !s'.ctl.active && s'.ctl.policy == s.ctl.policy
            && NextList(s', fallback) == ChainList(NextList(s, fallback), s.ctl.policy, rounds)
            && multiset(NextList(s', fallback)) == multiset(NextList(s, fallback))
  {
    if rounds != [] {
      var front, last := rounds[..|rounds| - 1], rounds[|rounds| - 1];
      assert forall i :: 0 <= i < |front| ==> front[i] == rounds[i];
      ChainMovesToFront(env, fallback, s, front);
      OneRound(env, fallback, ChainRun(env, fallback, s, front), last);
    }
  }

  /** The index set by the last select in range, or the start. */
  function Anchor(start: nat, cmds: seq<Command>, len: nat): nat {
    if cmds == [] then start
    else
      var last := cmds[|cmds| - 1];
      if last.Select? && last.i < len then last.i else Anchor(start, cmds[..|cmds| - 1], len)
  }

  /** The net number of steps forward since then. */
  function NetSince(cmds: seq<Command>, len: nat): int {
    if cmds == [] then 0
    else
      match cmds[|cmds| - 1]
      case Cycle(dir, _) => NetSince(cmds[..|cmds| - 1], len) + (if dir == Next then 1 else -1)
      case Select(i) => if i < len then 0 else NetSince(cmds[..|cmds| - 1], len)
      case _ => NetSince(cmds[..|cmds| - 1], len)
  }

  lemma {:induction false} MovedWraps(start: nat, cmds: seq<Command>, len: nat)
    requires start < len
    ensures MovedAll(start, cmds, true, len) == (Anchor(start, cmds, len) + NetSince(cmds, len)) % len
  {
    if cmds == [] {
      ModUnique(start, 0, start, len);
    } else {
      var front := cmds[..|cmds| - 1];
      MovedWraps(start, front, len);
      match cmds[|cmds| - 1]
      case Cycle(dir, _) => StepWraps(Anchor(start, front, len) + NetSince(front, len), dir, len);
      case Select(i) => if i < len { ModUnique(i, 0, i, len); }
      case _ =>
    }
  }

  /** With wrapping on, a round lands on (anchor + nexts - prevs) mod n, where the anchor is its start
      or its last select in range, and the steps are those since. */
  lemma {:induction false} LandingWraps(l: seq<WindowRef>, policy: SessionPolicy, round: Round)
    requires l != [] && policy.wrap
    ensures Landing(l, policy, round)
         == (Anchor(InitialIndex(policy.startOffset, |l|), round.inner, |l|) + NetSince(round.inner, |l|)) % |l|
  {
    MovedWraps(InitialIndex(policy.startOffset, |l|), round.inner, |l|);
  }

  predicate Still(round: Round) {
    forall i :: 0 <= i < |round.inner| ==> !round.inner[i].Cycle? && !round.inner[i].Select?
  }

  function Swapped(l: seq<WindowRef>): seq<WindowRef>
    requires |l| >= 2
  {
    [l[1], l[0]] + l[2..]
  }

  ghost predicate SingleCycles(rounds: seq<Round>) {
    forall i :: 0 <= i < |rounds| ==> Still(rounds[i]) && rounds[i].ending.ByApply?
  }

  /** The list with its front pair swapped `n` times. */
  function Turned(l: seq<WindowRef>, n: nat): seq<WindowRef>
    requires |l| >= 2
  {
    if n % 2 == 0 then l else Swapped(l)
  }

  /** Single-cycle rounds starting at the second window alternate between the two front windows:
      after n rounds the list is the original one, or the one with the front pair swapped. */
  lemma {:induction false} SingleCyclesAlternate(l: seq<WindowRef>, policy: SessionPolicy, rounds: seq<Round>)
    requires Distinct(l) && |l| >= 2 && policy.startOffset == Second
    requires SingleCycles(rounds)
    ensures ChainList(l, policy, rounds) == Turned(l, |rounds|)
  {
    if rounds != [] {
      var front, last := rounds[..|rounds| - 1], rounds[|rounds| - 1];
      SingleCyclesFront(rounds);
      SingleCyclesAlternate(l, policy, front);
      AlternatesOnce(l, policy, rounds);
    }
  }

  lemma {:induction false} SingleCyclesFront(rounds: seq<Round>)
    requires SingleCycles(rounds) && rounds != []
    ensures SingleCycles(rounds[..|rounds| - 1])
    ensures Still(rounds[|rounds| - 1]) && rounds[|rounds| - 1].ending.ByApply?
  {
  }

  lemma {:induction false} AlternatesOnce(l: seq<WindowRef>, policy: SessionPolicy, rounds: seq<Round>)
    requires Distinct(l) && |l| >= 2 && policy.startOffset == Second
    requires rounds != [] && Still(rounds[|rounds| - 1]) && rounds[|rounds| - 1].ending.ByApply?
    requires ChainList(l, policy, rounds[..|rounds| - 1]) == Turned(l, |rounds| - 1)
    ensures ChainList(l, policy, rounds) == Turned(l, |rounds|)
  {
    ChainSnoc(l, policy, rounds);
    TurnsOnce(l, Turned(l, |rounds| - 1), |rounds| - 1, policy, rounds[|rounds| - 1]);
  }

  lemma {:induction false} ChainSnoc(l: seq<WindowRef>, policy: SessionPolicy, rounds: seq<Round>)
    requires l != [] && rounds != [] && rounds[|rounds| - 1].ending.ByApply?
    ensures var r := ChainList(l, policy, rounds[..|rounds| - 1]);
            ChainList(l, policy, rounds) == MoveToFront(r, r[Landing(r, policy, rounds[|rounds| - 1])])
  {
  }

  lemma {:induction false} TurnsOnce(l: seq<WindowRef>, r: seq<WindowRef>, n: nat, policy: SessionPolicy, round: Round)
    requires Distinct(l) && |l| >= 2 && policy.startOffset == Second && Still(round)
    requires r == Turned(l, n)
    ensures MoveToFront(r, r[Landing(r, policy, round)]) == Turned(l, n + 1)
  {
    if n % 2 == 0 {
      SwapOnce(l, policy, round);
    } else {
      SwappedTwice(l);
      SwapOnce(Swapped(l), policy, round);
    }
  }

  lemma {:induction false} SwappedTwice(l: seq<WindowRef>)
    requires Distinct(l) && |l| >= 2
    ensures Distinct(Swapped(l)) && Swapped(Swapped(l)) == l
  {
    assert Swapped(l)[2..] == l[2..];
    assert l == [l[0], l[1]] + l[2..];
  }

  /** A single-cycle round swaps the front pair. */
  lemma {:induction false} SwapOnce(l: seq<WindowRef>, policy: SessionPolicy, round: Round)
    requires Distinct(l) && |l| >= 2 && policy.startOffset == Second && Still(round)
    ensures MoveToFront(l, l[Landing(l, policy, round)]) == Swapped(l)
  {
    LandsSecond(l, policy, round);
    SecondToFront(l);
  }

  lemma {:induction false} StillStays(index: nat, cmds: seq<Command>, wrap: bool, len: nat)
    requires forall i :: 0 <= i < |cmds| ==> !cmds[i].Cycle? && !cmds[i].Select?
    ensures MovedAll(index, cmds, wrap, len) == index
  {
    if cmds != [] { StillStays(index, cmds[..|cmds| - 1], wrap, len); }
  }

  lemma {:induction false} LandsSecond(l: seq<WindowRef>, policy: SessionPolicy, round: Round)
    requires |l| >= 2 && policy.startOffset == Second && Still(round)
    ensures Landing(l, policy, round) == 1
  {
    StillStays(1, round.inner, policy.wrap, |l|);
  }

  lemma {:induction false} SecondToFront(l: seq<WindowRef>)
    requires |l| >= 2 && l[1] != l[0] && l[1] !in l[2..]
    ensures MoveToFront(l, l[1]) == [l[1], l[0]] + l[2..]
  {
    var pair := l[..2];
    assert l == pair + l[2..];
    WithoutAppend(pair, l[2..], l[1]);
    WithoutAbsent(l[2..], l[1]);
    assert pair[..1] == [l[0]];
    assert Without(pair, l[1]) == [l[0]] by { WithoutAbsent([l[0]], l[1]); }
  }
}
