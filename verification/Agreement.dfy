// The controller and the highlight, composed: the backend is driven by the controller's UI calls,
// with pulse ticks at any moment between commands. Each side has its own environment.

module Agreement {
  import opened Wrappers
  import opened Sequences
  import opened Domain
  import opened Ports
  import opened Session
  import opened SessionLaws
  import opened Grammar
  import H = Highlight

  /** The UI calls of a trace, as the backend receives them. */
  function OpsOf(t: Trace): seq<H.Op> {
    if t == [] then []
    else
      var ops := OpsOf(t[..|t| - 1]);
      match t[|t| - 1]
      case UiStart(snapshot, index) => ops + [H.Start(snapshot, index)]
      case UiChange(index) => ops + [H.Change(index)]
      case UiEnd(reason) => ops + [H.End(reason)]
      case _ => ops
  }

  datatype JointCommand = Command(cmd: Command) | Tick

  datatype Joint = Joint(sys: Sys, ui: H.Ui)

  /** What a command added to the trace. */
  function Added(s: Sys, s': Sys): Trace {
    if |s.hist.trace| <= |s'.hist.trace| then s'.hist.trace[|s.hist.trace|..] else []
  }

  function JointStep(env: Env, io: H.IoEnv, cfg: H.Config, j: Joint, c: JointCommand): (r: Joint)
    requires Coherent(j.sys.ctl)
    ensures Coherent(r.sys.ctl)
  {
    match c
    case Command(cmd) =>
      var s' := Step(env, j.sys, cmd).sys;
      Joint(s', H.Run(io, cfg, j.ui, OpsOf(Added(j.sys, s'))))
    case Tick => j.(ui := H.Step(io, cfg, j.ui, H.Tick))
  }

  function JointRun(env: Env, io: H.IoEnv, cfg: H.Config, j: Joint, cs: seq<JointCommand>): (r: Joint)
    requires Coherent(j.sys.ctl)
    ensures Coherent(r.sys.ctl)
  {
    if cs == [] then j else JointStep(env, io, cfg, JointRun(env, io, cfg, j, cs[..|cs| - 1]), cs[|cs| - 1])
  }

  /** The index that the UI was told last. */
  function LastTold(t: Trace): nat {
    if t == [] then 0
    else match t[|t| - 1]
      case UiStart(_, index) => index
      case UiChange(index) => index
      case _ => LastTold(t[..|t| - 1])
  }

  /** The highlighted window, if any, is the one at index `told` of the backend's own snapshot. */
  ghost predicate HeadIs(u: H.Ui, told: nat) {
    u.captures != [] ==>
      && u.snapshot.Some? && told < |u.snapshot.value.windows|
      && u.captures[0].ref == u.snapshot.value.windows[told]
  }

  /** The backend after a trace: between sessions it holds nothing, in a session it has the snapshot
      of the start and highlights the index told last. */
  ghost predicate Follows(t: Trace, u: H.Ui) {
    && HeadIs(u, LastTold(t))
    && (Read(t).phase.Shut? ==> u.snapshot == None && u.captures == [])
    && (Read(t).phase.Open? ==> u.snapshot == Some(Read(t).phase.started))
  }

  // ---- the backend's side ----------------------------------------------------------------

  lemma {:induction false} RingKeepsHead(io: H.IoEnv, u: H.Ui, windows: seq<WindowRef>, selected: nat, n: nat,
                                         dim: string)
    requires n <= |windows| && u.captures != []
    ensures var r := H.RingUpTo(io, u, windows, selected, n, dim); r.captures != [] && r.captures[0] == u.captures[0]
    decreases n
  {
    if n > 0 {
      RingKeepsHead(io, u, windows, selected, n - 1, dim);
      VisitKeepsHead(io, H.RingUpTo(io, u, windows, selected, n - 1, dim), windows, selected, n, dim);
    }
  }

  lemma {:induction false} VisitKeepsHead(io: H.IoEnv, u: H.Ui, windows: seq<WindowRef>, selected: nat, n: nat,
                                          dim: string)
    requires 0 < n <= |windows| && u.captures != []
    ensures var r := H.RingVisited(io, u, windows, selected, n, dim); r.captures != [] && r.captures[0] == u.captures[0]
  {
  }

  lemma {:induction false} TriedHead(io: H.IoEnv, cfg: H.Config, u: H.Ui, ref: WindowRef)
    requires u.captures == []
    ensures var t := H.OverrideTried(io, cfg, u, ref);
            && t.ui.snapshot == u.snapshot
            && if t.done then |t.ui.captures| == 1 && t.ui.captures[0].ref == ref else t.ui.captures == []
  {
  }

  lemma {:induction false} StyleKeepsHead(io: H.IoEnv, cfg: H.Config, u: H.Ui, windows: seq<WindowRef>, index: nat)
    requires u.captures != []
    ensures var r := H.StyleApplied(io, cfg, u, windows, index);
            r.snapshot == u.snapshot && r.captures != [] && r.captures[0] == u.captures[0]
  {
    if cfg.style == H.Dim && cfg.dim.Some? {
      RingKeepsHead(io, u, windows, index, |windows|, cfg.dim.value);
    }
  }

  lemma {:induction false} HighlightHead(io: H.IoEnv, cfg: H.Config, u: H.Ui, index: nat)
    requires u.captures == []
    ensures HeadIs(H.Highlighted(io, cfg, u, index), index) && H.Highlighted(io, cfg, u, index).snapshot == u.snapshot
  {
    if !u.degraded && u.snapshot.Some? && index < |u.snapshot.value.windows| {
      var windows := u.snapshot.value.windows;
      var asked := u.(host := H.Logged(u.host, H.Asked(windows[index], io.isValid(|u.host.trace|, windows[index]))));
      var t := H.OverrideTried(io, cfg, asked, windows[index]);
      TriedHead(io, cfg, asked, windows[index]);
      if t.done { StyleKeepsHead(io, cfg, t.ui, windows, index); }
    }
  }

  lemma {:induction false} StartHead(io: H.IoEnv, cfg: H.Config, u: H.Ui, snapshot: Snapshot, index: nat)
    ensures var u' := H.Step(io, cfg, u, H.Start(snapshot, index)); HeadIs(u', index) && u'.snapshot == Some(snapshot)
  {
    var u1 := H.RestoredAll(io, u);
    var p := H.Probed(io, H.Logged(u1.host, H.NavBegin), snapshot.windows);
    if p.available {
      HighlightHead(io, cfg, u1.(snapshot := Some(snapshot), degraded := false, host := p.host), index);
    }
  }

  lemma {:induction false} ChangeHead(io: H.IoEnv, cfg: H.Config, u: H.Ui, index: nat)
    ensures var u' := H.Step(io, cfg, u, H.Change(index)); HeadIs(u', index) && u'.snapshot == u.snapshot
    ensures u.snapshot.None? ==> H.Step(io, cfg, u, H.Change(index)).captures == []
  {
    HighlightHead(io, cfg, H.RestoredAll(io, u), index);
  }

  lemma {:induction false} EndHead(io: H.IoEnv, cfg: H.Config, u: H.Ui, reason: UiEndReason)
    ensures var u' := H.Step(io, cfg, u, H.End(reason)); u'.captures == [] && u'.snapshot == None
  {
  }

  lemma {:induction false} OneOp(io: H.IoEnv, cfg: H.Config, u: H.Ui, op: H.Op)
    ensures H.Run(io, cfg, u, [op]) == H.Step(io, cfg, u, op)
  {
    var none := [op][..0];
    assert H.Run(io, cfg, u, none) == u;
  }

  lemma {:induction false} OpsOfOne(call: Call)
    ensures OpsOf([call]) == match call
                             case UiStart(snapshot, index) => [H.Start(snapshot, index)]
                             case UiChange(index) => [H.Change(index)]
                             case UiEnd(reason) => [H.End(reason)]
                             case _ => []
  {
    var none := [call][..0];
    assert OpsOf(none) == [];
  }

  lemma {:induction false} FollowsCall(io: H.IoEnv, cfg: H.Config, t: Trace, u: H.Ui, call: Call)
    requires Follows(t, u)
    ensures Follows(t + [call], H.Run(io, cfg, u, OpsOf([call])))
  {
    ReadSnoc(t, call);
    assert (t + [call])[..|t|] == t;
    OpsOfOne(call);
    match call
    case UiStart(snapshot, index) =>
      OneOp(io, cfg, u, H.Start(snapshot, index));
      StartHead(io, cfg, u, snapshot, index);
    case UiChange(index) =>
      OneOp(io, cfg, u, H.Change(index));
      ChangeHead(io, cfg, u, index);
    case UiEnd(reason) =>
      OneOp(io, cfg, u, H.End(reason));
      EndHead(io, cfg, u, reason);
    case _ =>
  }

  lemma {:induction false} OpsAppend(a: Trace, b: Trace)
    ensures OpsOf(a + b) == OpsOf(a) + OpsOf(b)
    decreases |b|
  {
    if b == [] {
      assert a + b == a;
    } else {
      assert (a + b)[..|a + b| - 1] == a + b[..|b| - 1];
      OpsAppend(a, b[..|b| - 1]);
    }
  }

  lemma {:induction false} RunAppend(io: H.IoEnv, cfg: H.Config, u: H.Ui, a: seq<H.Op>, b: seq<H.Op>)
    ensures H.Run(io, cfg, u, a + b) == H.Run(io, cfg, H.Run(io, cfg, u, a), b)
    decreases |b|
  {
    if b == [] {
      assert a + b == a;
    } else {
      assert (a + b)[..|a + b| - 1] == a + b[..|b| - 1];
      RunAppend(io, cfg, u, a, b[..|b| - 1]);
    }
  }

  lemma {:induction false} FollowsTrace(io: H.IoEnv, cfg: H.Config, t: Trace, u: H.Ui, added: Trace, t': Trace,
                                        u': H.Ui)
    requires Follows(t, u) && t' == t + added && u' == H.Run(io, cfg, u, OpsOf(added))
    ensures Follows(t', u')
    decreases |added|
  {
    if added == [] {
      NothingAdded(io, cfg, t, u, added, t', u');
    } else {
      var t1, u1, last := FrontRun(io, cfg, t, u, added, t', u');
      FollowsTrace(io, cfg, t, u, added[..|added| - 1], t1, u1);
      FollowsLast(io, cfg, t1, u1, last, t', u');
    }
  }

  lemma {:induction false} NothingAdded(io: H.IoEnv, cfg: H.Config, t: Trace, u: H.Ui, added: Trace, t': Trace,
                                        u': H.Ui)
    requires added == [] && t' == t + added && u' == H.Run(io, cfg, u, OpsOf(added))
    ensures t' == t && u' == u
  {
  }

  /** The moment before the last call. */
  lemma {:induction false} FrontRun(io: H.IoEnv, cfg: H.Config, t: Trace, u: H.Ui, added: Trace, t': Trace, u': H.Ui)
    returns (t1: Trace, u1: H.Ui, last: Call)
    requires added != [] && t' == t + added && u' == H.Run(io, cfg, u, OpsOf(added))
    ensures t1 == t + added[..|added| - 1] && u1 == H.Run(io, cfg, u, OpsOf(added[..|added| - 1]))
    ensures t' == t1 + [last] && u' == H.Run(io, cfg, u1, OpsOf([last]))
  {
    var front := added[..|added| - 1];
    t1, u1, last := t + front, H.Run(io, cfg, u, OpsOf(front)), added[|added| - 1];
    LastCall(t, added, front, last);
    LastOp(io, cfg, u, added, front, last);
  }

  lemma {:induction false} LastCall(t: Trace, added: Trace, front: Trace, last: Call)
    requires added != [] && front == added[..|added| - 1] && last == added[|added| - 1]
    ensures added == front + [last] && t + added == t + front + [last]
  {
  }

  lemma {:induction false} LastOp(io: H.IoEnv, cfg: H.Config, u: H.Ui, added: Trace, front: Trace, last: Call)
    requires added == front + [last]
    ensures H.Run(io, cfg, u, OpsOf(added)) == H.Run(io, cfg, H.Run(io, cfg, u, OpsOf(front)), OpsOf([last]))
  {
    RunsOneMore(io, cfg, u, front, last);
  }

  lemma {:induction false} FollowsLast(io: H.IoEnv, cfg: H.Config, t: Trace, u: H.Ui, last: Call, t': Trace, u': H.Ui)
    requires Follows(t, u) && t' == t + [last] && u' == H.Run(io, cfg, u, OpsOf([last]))
    ensures Follows(t', u')
  {
    FollowsCall(io, cfg, t, u, last);
  }

  lemma {:induction false} RunsOneMore(io: H.IoEnv, cfg: H.Config, u: H.Ui, front: Trace, last: Call)
    ensures H.Run(io, cfg, u, OpsOf(front + [last]))
         == H.Run(io, cfg, H.Run(io, cfg, u, OpsOf(front)), OpsOf([last]))
  {
    OpsAppend(front, [last]);
    RunAppend(io, cfg, u, OpsOf(front), OpsOf([last]));
  }

  // ---- the controller's side -------------------------------------------------------------

  /** While Active, the controller's index is the one it told last, clamped to the windows left. */
  ghost predicate Tells(s: Sys) {
    s.ctl.active && s.ctl.snapshot.Some? && s.ctl.snapshot.value.windows != [] ==>
      s.ctl.index == Selection.Min(LastTold(s.hist.trace), |s.ctl.snapshot.value.windows| - 1)
  }

  lemma {:induction false} ToldQuestions(t: Trace, qs: Trace)
    requires Questions(qs)
    ensures LastTold(t + qs) == LastTold(t)
    decreases |qs|
  {
    if qs == [] {
      assert t + qs == t;
    } else {
      assert (t + qs)[..|t + qs| - 1] == t + qs[..|qs| - 1];
      ToldQuestions(t, qs[..|qs| - 1]);
    }
  }

  lemma {:induction false} LostTells(env: Env, s: Sys, ref: WindowRef)
    requires SessionLaws.Inv(s) && InvTrace(s) && Tells(s) && s.ctl.active
    ensures Tells(WindowLost(env, s, ref)) && s.hist.trace <= WindowLost(env, s, ref).hist.trace
  {
    var windows := s.ctl.snapshot.value.windows;
    PrunedIs(env, s);
    AnswersAreQuestions(env, |s.hist.trace|, windows);
    ToldQuestions(s.hist.trace, Answers(env, |s.hist.trace|, windows));
    SubsequenceMembers(Pruned(env, s).ctl.snapshot.value.windows, windows);
  }

  lemma {:induction false} BegunTells(env: Env, s: Sys, scope: Scope)
    requires !s.ctl.active
    ensures Tells(SessionBegun(env, s, scope).sys) && s.hist.trace <= SessionBegun(env, s, scope).sys.hist.trace
  {
  }

  lemma {:induction false} ApplyGrows(env: Env, s: Sys)
    requires SessionLaws.Inv(s) && s.ctl.active
    ensures s.hist.trace <= ApplyDone(env, s).sys.hist.trace && !ApplyDone(env, s).sys.ctl.active
  {
    ApplyChangeFree(env, s);
    ApplyKeeps(env, s);
  }

  lemma {:induction false} ChangeTells(s: Sys, index: nat)
    requires s.ctl.snapshot.Some? && index < |s.ctl.snapshot.value.windows|
    ensures Tells(Logged(s.(ctl := s.ctl.(index := index)), UiChange(index)))
  {
  }

  lemma {:induction false} StepTells(env: Env, s: Sys, cmd: Command)
    requires SessionLaws.Inv(s) && InvTrace(s) && Tells(s)
    ensures Tells(Step(env, s, cmd).sys) && s.hist.trace <= Step(env, s, cmd).sys.hist.trace
  {
    match cmd
    case Cycle(dir, scope) =>
      if s.ctl.active {
        ChangeTells(s, Selection.AdvanceIndex(s.ctl.index, dir, s.ctl.frozen.wrap, |s.ctl.snapshot.value.windows|));
      } else {
        BegunTells(env, s, if scope.Some? then scope.value else s.ctl.policy.defaultScope);
      }
    case Select(i) => if s.ctl.active && i < |s.ctl.snapshot.value.windows| { ChangeTells(s, i); }
    case Apply => if s.ctl.active { ApplyGrows(env, s); }
    case WindowInvalid(ref) => if s.ctl.active { LostTells(env, s, ref); }
    case Pass(ms) => AdvancedIs(env, s.hist, ms);
    case _ =>
  }

  // ---- main results ----------------------------------------------------------------------

  ghost predicate Agrees(j: Joint) {
    SessionLaws.Inv(j.sys) && InvTrace(j.sys) && Tells(j.sys) && Follows(j.sys.hist.trace, j.ui)
  }

  lemma {:induction false} JointAgrees(env: Env, io: H.IoEnv, cfg: H.Config, j: Joint, c: JointCommand)
    requires Agrees(j)
    ensures Agrees(JointStep(env, io, cfg, j, c))
  {
    match c
    case Command(cmd) =>
      StepKeeps(env, j.sys, cmd);
      StepTrace(env, j.sys, cmd);
      StepTells(env, j.sys, cmd);
      var s' := Step(env, j.sys, cmd).sys;
      var added := Added(j.sys, s');
      assert j.sys.hist.trace + added == s'.hist.trace;
      FollowsTrace(io, cfg, j.sys.hist.trace, j.ui, added, s'.hist.trace, H.Run(io, cfg, j.ui, OpsOf(added)));
    case Tick =>
  }

  lemma {:induction false} JointRunAgrees(env: Env, io: H.IoEnv, cfg: H.Config, policy: SessionPolicy, debounceMs: nat,
                                          store: H.Store, cs: seq<JointCommand>)
    ensures Agrees(JointRun(env, io, cfg, Joint(Initial(policy, debounceMs), H.Fresh(store)), cs))
  {
    var j0 := Joint(Initial(policy, debounceMs), H.Fresh(store));
    if cs != [] {
      JointRunAgrees(env, io, cfg, policy, debounceMs, store, cs[..|cs| - 1]);
      JointAgrees(env, io, cfg, JointRun(env, io, cfg, j0, cs[..|cs| - 1]), cs[|cs| - 1]);
    }
  }

  /** After any commands and ticks, with any answers on both sides: while a session has lost no
      window, the window that carries the highlight, if any, is the controller's selected ref; and
      between sessions nothing is highlighted. */
  lemma {:induction false} HighlightIsSelection(env: Env, io: H.IoEnv, cfg: H.Config, policy: SessionPolicy,
                                                debounceMs: nat,
                                                store: H.Store, cs: seq<JointCommand>)
    ensures var j := JointRun(env, io, cfg, Joint(Initial(policy, debounceMs), H.Fresh(store)), cs);
            && (!j.sys.ctl.active ==> j.ui.captures == [])
            && (j.sys.ctl.active <==> Read(j.sys.hist.trace).phase.Open?)
            && (j.sys.ctl.active && j.ui.captures != []
                && j.sys.ctl.snapshot.value.windows == Read(j.sys.hist.trace).phase.started.windows ==>
                  j.ui.captures[0].ref == j.sys.ctl.snapshot.value.windows[j.sys.ctl.index])
  {
    JointRunAgrees(env, io, cfg, policy, debounceMs, store, cs);
  }
}
