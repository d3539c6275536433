// When highlight and selection agree in a session that has lost windows: the exact condition, for
// every state of every run, and a run in which they do not.

module AgreementLimits {
  import opened Wrappers
  import opened Sequences
  import opened Domain
  import opened Ports
  import opened Session
  import opened SessionLaws
  import opened Grammar
  import opened Agreement
  import Capture
  import HighlightLimits

  // ---- lists -----------------------------------------------------------------------------

  /** `started[told]` is still there, and either everything before it or nothing after it. */
  ghost predicate Holds(started: seq<WindowRef>, told: nat, cur: seq<WindowRef>)
    requires told < |started|
  {
    && started[told] in cur
    && (|| (forall k :: 0 <= k < told ==> started[k] in cur)
        || (forall k :: told < k < |started| ==> started[k] !in cur))
  }

  function Clamped(told: nat, cur: seq<WindowRef>): nat
    requires cur != []
  {
    Selection.Min(told, |cur| - 1)
  }

  lemma {:induction false} ClampMeets(started: seq<WindowRef>, told: nat, cur: seq<WindowRef>)
    requires Subsequence(cur, started) && Distinct(started) && told < |started| && cur != []
    requires cur[Clamped(told, cur)] == started[told]
    ensures Holds(started, told, cur)
  {
    var i := Clamped(told, cur);
    SubsequencePrefix(cur, started, i, told);
    var a, b := cur[..i + 1], started[..told + 1];
    if i == told {
      SubsequenceFull(a, b);
      forall k | 0 <= k < told ensures started[k] in cur { assert started[k] == b[k] == cur[k]; }
    } else {
      assert a == cur;
      SubsequenceMembers(a, b);
      forall k | told < k < |started| ensures started[k] !in cur {
        assert forall m :: 0 <= m <= told ==> b[m] == started[m];
      }
    }
  }

  /** What comes later in the rest came later in the whole. */
  lemma {:induction false} TailAfter(started: seq<WindowRef>, told: nat, cur: seq<WindowRef>, p: nat, q: nat, j: nat)
    requires Subsequence(cur, started) && Distinct(started)
    requires told < |started| && j < |started| && p < q < |cur| && cur[p] == started[told] && cur[q] == started[j]
    ensures told < j
  {
    SubsequenceMembers(cur, started);
    SubsequencePrefix(cur, started, q, j);
    var a, b := cur[..q + 1], started[..j + 1];
    SubsequenceMembers(a, b);
    assert a[p] == started[told] && a[p] in b;
    var m :| 0 <= m < |b| && b[m] == started[told];
    assert started[m] == started[told];
  }

  lemma {:induction false} MeetsIfBefore(started: seq<WindowRef>, told: nat, cur: seq<WindowRef>, p: nat)
    requires Subsequence(cur, started) && Distinct(started) && told < |started|
    requires p < |cur| && cur[p] == started[told]
    requires forall k :: 0 <= k < told ==> started[k] in cur
    ensures p == told
  {
    var a, b := cur[..p + 1], started[..told + 1];
    SubsequencePrefix(cur, started, p, told);
    forall x | x in b ensures x in a {
      var k :| 0 <= k <= told && x == started[k];
      assert x in cur;
      var q :| 0 <= q < |cur| && cur[q] == x;
      if q > p { TailAfter(started, told, cur, p, q, k); }
      assert a[q] == x;
    }
    SubsequenceCovers(a, b);
  }

  lemma {:induction false} MeetsIfLast(started: seq<WindowRef>, told: nat, cur: seq<WindowRef>, p: nat)
    requires Subsequence(cur, started) && Distinct(started) && told < |started|
    requires p < |cur| && cur[p] == started[told]
    requires forall k :: told < k < |started| ==> started[k] !in cur
    ensures p == |cur| - 1 <= told
  {
    SubsequenceMembers(cur, started);
    if p < |cur| - 1 {
      var x := cur[|cur| - 1];
      assert x in cur && x in started;
      var j :| 0 <= j < |started| && started[j] == x;
      TailAfter(started, told, cur, p, |cur| - 1, j);
    }
    SubsequencePrefix(cur, started, p, told);
    SubsequenceMembers(cur[..p + 1], started[..told + 1]);
  }

  /** The clamped index meets the told window iff the told window is still there and no window before
      it or no window after it stands in the way. */
  lemma {:induction false} ClampExactly(started: seq<WindowRef>, told: nat, cur: seq<WindowRef>)
    requires Subsequence(cur, started) && Distinct(started) && told < |started| && cur != []
    ensures cur[Clamped(told, cur)] == started[told] <==> Holds(started, told, cur)
  {
    if cur[Clamped(told, cur)] == started[told] {
      ClampMeets(started, told, cur);
    } else if Holds(started, told, cur) {
      var p :| 0 <= p < |cur| && cur[p] == started[told];
      if forall k :: 0 <= k < told ==> started[k] in cur {
        MeetsIfBefore(started, told, cur, p);
      } else {
        MeetsIfLast(started, told, cur, p);
      }
    }
  }

  // ---- the list of the start stays the list of the start ---------------------------------

  lemma {:induction false} StartsGrow(t: Trace, t': Trace)
    requires t <= t'
    ensures Read(t).starts <= Read(t').starts
    ensures Read(t').starts == Read(t).starts && Read(t').phase.Open? ==>
              Read(t).phase.Open? && Read(t').phase.started == Read(t).phase.started
    decreases |t'|
  {
    if |t| == |t'| {
      assert t == t';
    } else {
      StartsGrow(t, t'[..|t'| - 1]);
    }
  }

  ghost predicate StartedDistinct(s: Sys) {
    Read(s.hist.trace).phase.Open? ==> Distinct(Read(s.hist.trace).phase.started.windows)
  }

  lemma {:induction false} StepStarted(env: Env, s: Sys, cmd: Command)
    requires SessionLaws.Inv(s) && InvTrace(s) && Tells(s) && StartedDistinct(s) && DistinctCandidates(env)
    ensures StartedDistinct(Step(env, s, cmd).sys)
  {
    var s' := Step(env, s, cmd).sys;
    StepKeeps(env, s, cmd);
    StepTrace(env, s, cmd);
    if s'.ctl.active {
      if s.ctl.active {
        StepTells(env, s, cmd);
        StartsGrow(s.hist.trace, s'.hist.trace);
      } else if cmd.Cycle? {
        BegunTrace(env, s, if cmd.scope.Some? then cmd.scope.value else s.ctl.policy.defaultScope);
      }
    }
  }

  lemma {:induction false} JointRunStarted(env: Env, io: H.IoEnv, cfg: H.Config, policy: SessionPolicy,
                                           debounceMs: nat, store: H.Store, cs: seq<JointCommand>)
    requires DistinctCandidates(env)
    ensures var j := JointRun(env, io, cfg, Joint(Initial(policy, debounceMs), H.Fresh(store)), cs);
            Agrees(j) && StartedDistinct(j.sys)
  {
    JointRunAgrees(env, io, cfg, policy, debounceMs, store, cs);
    if cs != [] {
      var front, last := cs[..|cs| - 1], cs[|cs| - 1];
      JointRunStarted(env, io, cfg, policy, debounceMs, store, front);
      var j := JointRun(env, io, cfg, Joint(Initial(policy, debounceMs), H.Fresh(store)), front);
      if last.Command? { StepStarted(env, j.sys, last.cmd); }
    }
  }

  // ---- main results ----------------------------------------------------------------------

  /** The window that carries the highlight is the controller's selected ref. */
  predicate Meets(j: Joint)
    requires j.sys.ctl.snapshot.Some? && j.sys.ctl.index < |j.sys.ctl.snapshot.value.windows| && j.ui.captures != []
  {
    j.ui.captures[0].ref == j.sys.ctl.snapshot.value.windows[j.sys.ctl.index]
  }

  /** Any moment of a session in which something is highlighted, whatever windows were lost: highlight
      and selection agree iff the window told last is still in the snapshot, and all windows before
      it are, or none after it. */
  lemma {:induction false} AgreementExactly(j: Joint)
    requires Agrees(j) && StartedDistinct(j.sys) && j.sys.ctl.active && j.ui.captures != []
    ensures var started, told := Read(j.sys.hist.trace).phase.started.windows, LastTold(j.sys.hist.trace);
            && told < |started|
            && (Meets(j) <==> Holds(started, told, j.sys.ctl.snapshot.value.windows))
  {
    var t := j.sys.hist.trace;
    ClampExactly(Read(t).phase.started.windows, LastTold(t), j.sys.ctl.snapshot.value.windows);
  }

  /** The same after any commands and ticks, given that candidate lists have no window twice. */
  lemma {:induction false} AgreementInRuns(env: Env, io: H.IoEnv, cfg: H.Config, policy: SessionPolicy,
                                           debounceMs: nat, store: H.Store, cs: seq<JointCommand>)
    requires DistinctCandidates(env)
    ensures var j := JointRun(env, io, cfg, Joint(Initial(policy, debounceMs), H.Fresh(store)), cs);
            var started, told := Read(j.sys.hist.trace).phase, LastTold(j.sys.hist.trace);
            j.sys.ctl.active && j.ui.captures != [] ==>
              && started.Open? && told < |started.started.windows|
              && j.sys.ctl.snapshot.Some? && j.sys.ctl.index < |j.sys.ctl.snapshot.value.windows|
              && (Meets(j) <==> Holds(started.started.windows, told, j.sys.ctl.snapshot.value.windows))
  {
    JointRunStarted(env, io, cfg, policy, debounceMs, store, cs);
    var j := JointRun(env, io, cfg, Joint(Initial(policy, debounceMs), H.Fresh(store)), cs);
    if j.sys.ctl.active && j.ui.captures != [] { AgreementExactly(j); }
  }

  /** Right after a cycle or a select, when the controller's index is the one it told: they agree iff
      no window at or before the selected one was lost. */
  lemma {:induction false} PrefixDecides(j: Joint)
    requires Agrees(j) && StartedDistinct(j.sys) && j.sys.ctl.active && j.ui.captures != []
    requires j.sys.ctl.index == LastTold(j.sys.hist.trace)
    ensures var started, i := Read(j.sys.hist.trace).phase.started.windows, j.sys.ctl.index;
            && i < |started|
            && (Meets(j) <==> j.sys.ctl.snapshot.value.windows[..i + 1] == started[..i + 1])
  {
    var started, i := Read(j.sys.hist.trace).phase.started.windows, j.sys.ctl.index;
    var cur := j.sys.ctl.snapshot.value.windows;
    assert cur[..i + 1][i] == cur[i] && started[..i + 1][i] == started[i];
    if Meets(j) {
      SubsequencePrefix(cur, started, i, i);
      SubsequenceFull(cur[..i + 1], started[..i + 1]);
    }
  }

  /** Losing windows between UI calls: the selection stays on its window iff that window is still
      there, and all windows before it are, or none after it. The UI is told nothing either way. */
  lemma {:induction false} PruneShiftsSelection(env: Env, s: Sys, ref: WindowRef)
    requires SessionLaws.Inv(s) && s.ctl.active && Distinct(s.ctl.snapshot.value.windows)
    ensures var s' := Step(env, s, WindowInvalid(ref)).sys;
            var cur, i := s.ctl.snapshot.value.windows, s.ctl.index;
            s'.ctl.active ==>
              && OpsOf(Added(s, s')) == []
              && (s'.ctl.snapshot.value.windows[s'.ctl.index] == cur[i]
                  <==> Holds(cur, i, s'.ctl.snapshot.value.windows))
  {
    var cur, i := s.ctl.snapshot.value.windows, s.ctl.index;
    if ref !in cur {
      SubsequenceReflexive(cur);
      ClampExactly(cur, i, cur);
      assert Added(s, s) == [];
    } else {
      var kept := Pruned(env, s).ctl.snapshot.value.windows;
      PrunedIs(env, s);
      SubsequenceMembers(kept, cur);
      LossTellsNothing(env, s);
      if kept != [] { ClampExactly(cur, i, kept); }
    }
  }

  lemma {:induction false} LossTellsNothing(env: Env, s: Sys)
    requires s.ctl.snapshot.Some?
    ensures OpsOf(Added(s, Pruned(env, s))) == []
  {
    var asked := Answers(env, |s.hist.trace|, s.ctl.snapshot.value.windows);
    AnswersAreQuestions(env, |s.hist.trace|, s.ctl.snapshot.value.windows);
    NoOps(asked);
    assert Added(s, Pruned(env, s)) == asked;
  }

  lemma {:induction false} NoOps(qs: Trace)
    requires forall i :: 0 <= i < |qs| ==> qs[i].AskedValid? || qs[i].AskedCandidates? || qs[i].AskedFocused?
    ensures OpsOf(qs) == []
  {
    if qs != [] { NoOps(qs[..|qs| - 1]); }
  }

  // ---- a run in which they disagree ------------------------------------------------------

  const A := WindowRef(1, 1)
  const B := WindowRef(2, 1)
  const C := WindowRef(3, 1)

  /** Three windows, of which the first is no longer valid when asked about. */
  const LOSING := Env(
    (n: nat, ref: WindowRef) => ref != A,
    (n: nat, scope: Scope, order: seq<WindowRef>) => [A, B, C],
    (n: nat) => None,
    (n: nat, ref: WindowRef) => Applied,
    (n: nat, ref: WindowRef) => [])

  const WORKING := H.IoEnv(
    (n: nat, ref: WindowRef) => true,
    (n: nat, key: H.Key) => true,
    (n: nat, key: H.Key, purpose: H.Purpose) => true,
    (n: nat) => true,
    (s: string) => true)

  const FROM_SECOND := SessionPolicy(Global, Second, true, false)
  const PLAIN := H.Config(H.Solid, "0xc1", "0xd1", None, None)

  function ActiveOf(ref: WindowRef): H.Key { H.Key(ref.address, Capture.ActiveColor) }

  function InactiveOf(ref: WindowRef): H.Key { H.Key(ref.address, Capture.InactiveColor) }

  const COLORS: H.Store := map[ActiveOf(A) := "0xa1", ActiveOf(B) := "0xa1", InactiveOf(B) := "0xb1"]

  const THREE := Snapshot([A, B, C], Global)

  function Opened(): Sys { Step(LOSING, Initial(FROM_SECOND, 0), Cycle(Next, None)).sys }

  lemma {:induction false} OpensThree()
    ensures Opened().ctl.active && Opened().ctl.snapshot == Some(THREE) && Opened().ctl.index == 1
    ensures OpsOf(Added(Initial(FROM_SECOND, 0), Opened())) == [H.Start(THREE, 1)]
  {
    var asked := [AskedCandidates(Global, [A, B, C]), AskedFocused(None)];
    var added := asked + [UiStart(THREE, 1)];
    assert Opened().hist.trace == added;
    assert Added(Initial(FROM_SECOND, 0), Opened()) == added;
    assert added[..2] == asked;
    NoOps(asked);
  }

  lemma {:induction false} HighlightsB()
    ensures var u := H.Step(WORKING, PLAIN, H.Fresh(COLORS), H.Start(THREE, 1));
            u.captures != [] && u.captures[0].ref == B
  {
    var h := H.Fresh(COLORS).host;
    var u1 := H.RestoredAll(WORKING, H.Fresh(COLORS));
    assert u1.host == h;
    var p := H.Probed(WORKING, H.Logged(h, H.NavBegin), THREE.windows);
    assert p.available && p.host.store == COLORS;
    var u2 := u1.(snapshot := Some(THREE), degraded := false, host := p.host);
    var asked := u2.(host := H.Logged(u2.host, H.Asked(B, true)));
    HighlightLimits.ShortHex(WORKING.alphaOk, Capture.ActiveColor);
    HighlightLimits.ShortHex(WORKING.alphaOk, Capture.InactiveColor);
    HighlightLimits.PlainTried(WORKING, PLAIN, asked, B);
    TriedHead(WORKING, PLAIN, asked, B);
  }

  /** What is left of three windows when the first is lost. */
  lemma {:induction false} LosesA(asked: nat)
    ensures Survivors(LOSING, asked, [A, B, C]) == [B, C]
  {
    var three, two, one := [A, B, C], [A, B], [A];
    var none := one[..0];
    assert three[..2] == two && two[..1] == one;
    assert Survivors(LOSING, asked, none) == [];
    assert Survivors(LOSING, asked, one) == [];
    assert Survivors(LOSING, asked, two) == [B];
  }

  /** A cycle opens a session on three windows with the second selected and highlighted; the first is
      lost; now the third is selected while the second still carries the highlight. */
  lemma {:induction false} DisagreementRun()
    ensures var j0 := Joint(Initial(FROM_SECOND, 0), H.Fresh(COLORS));
            var j := JointRun(LOSING, WORKING, PLAIN, j0, [Command(Cycle(Next, None)), Command(WindowInvalid(A))]);
            && j.sys.ctl.active && j.ui.captures != [] && j.ui.captures[0].ref == B
            && j.sys.ctl.snapshot == Some(Snapshot([B, C], Global)) && j.sys.ctl.index == 1
            && !Meets(j)
  {
    var j0 := Joint(Initial(FROM_SECOND, 0), H.Fresh(COLORS));
    var first, second := Command(Cycle(Next, None)), Command(WindowInvalid(A));
    TwoSteps(LOSING, WORKING, PLAIN, j0, first, second);
    OpensThree();
    OneOp(WORKING, PLAIN, H.Fresh(COLORS), H.Start(THREE, 1));
    HighlightsB();
    var j1 := JointStep(LOSING, WORKING, PLAIN, j0, first);
    assert j1.sys == Opened();
    LossShifts(j1);
  }

  lemma {:induction false} LossShifts(j: Joint)
    requires j.sys == Opened() && j.ui.captures != [] && j.ui.captures[0].ref == B
    ensures var j' := JointStep(LOSING, WORKING, PLAIN, j, Command(WindowInvalid(A)));
            && j'.sys.ctl.active && j'.ui == j.ui
            && j'.sys.ctl.snapshot == Some(Snapshot([B, C], Global)) && j'.sys.ctl.index == 1
  {
    OpensThree();
    LosesA(|j.sys.hist.trace|);
    assert A in THREE.windows by { assert THREE.windows[0] == A; }
    LossTellsNothing(LOSING, j.sys);
  }

  lemma {:induction false} TwoSteps(env: Env, io: H.IoEnv, cfg: H.Config, j: Joint, a: JointCommand, b: JointCommand)
    requires Coherent(j.sys.ctl)
    ensures JointRun(env, io, cfg, j, [a, b]) == JointStep(env, io, cfg, JointStep(env, io, cfg, j, a), b)
  {
    var two, one := [a, b], [a];
    var none := one[..0];
    assert two[..1] == one;
    assert JointRun(env, io, cfg, j, none) == j;
    assert JointRun(env, io, cfg, j, one) == JointStep(env, io, cfg, j, a);
  }
}
