// The value types of the window switcher (include/mru/domain) and its two pure helpers:
// selection arithmetic and the scope predicate.

module Domain {
  /** Window identity. Equality needs address and generation; both counters are unbounded here. */
  datatype WindowRef = WindowRef(address: nat, generation: nat)

  datatype Scope = Global | Monitor | Workspace | Visible | App
  datatype Direction = Next | Prev
  datatype StartOffset = First | Second

  datatype SessionPolicy = SessionPolicy(
    defaultScope: Scope, startOffset: StartOffset, wrap: bool, restoreFocusOnCancel: bool)

  datatype FocusResult = Applied | InvalidTarget | Failed

  datatype EndReason = AppliedEnd | UserCancel | NoWindows | InvalidSelection | FocusFailed | PluginShutdown
  datatype UiEndReason = UiApplied | UiCancelled

  datatype Snapshot = Snapshot(windows: seq<WindowRef>, scope: Scope)

  datatype CommandResult = CommandResult(ok: bool, error: string)
}

module Selection {
  import opened Domain

  function Min(a: nat, b: nat): nat { if a <= b then a else b }

  function InitialIndex(offset: StartOffset, len: nat): (i: nat)
    ensures len > 0 ==> i < len
  {
    if len == 0 then 0
    else match offset
      case First => 0
      case Second => Min(1, len - 1)
  }

  function AdvanceIndex(index: nat, direction: Direction, wrap: bool, len: nat): (i: nat)
    ensures len > 0 ==> i < len
  {
    if len == 0 then 0
    else
      var index := Min(index, len - 1);
      if !wrap then
        if direction == Next then Min(index + 1, len - 1)
        else if index == 0 then 0 else index - 1
      else if direction == Next then (index + 1) % len
      else (index + len - 1) % len
  }

  /** The net number of steps forward. */
  function Net(dirs: seq<Direction>): int {
    if dirs == [] then 0
    else Net(dirs[..|dirs| - 1]) + if dirs[|dirs| - 1] == Next then 1 else -1
  }

  function AdvanceAll(index: nat, dirs: seq<Direction>, wrap: bool, len: nat): (i: nat)
    ensures len > 0 && index < len ==> i < len
  {
    if dirs == [] then index
    else AdvanceIndex(AdvanceAll(index, dirs[..|dirs| - 1], wrap, len), dirs[|dirs| - 1], wrap, len)
  }

  lemma {:induction false} ModUnique(x: int, q: int, r: int, n: nat)
    requires 0 <= r < n && x == q * n + r
    ensures x % n == r
  {
    var d, r' := q - x / n, x % n;
    assert d * n == r' - r;
    if d >= 1 {
      MulAtLeast(d, n);
    } else if d <= -1 {
      MulAtLeast(-d, n);
    }
  }

  lemma {:induction false} MulAtLeast(d: int, n: nat)
    requires d >= 1
    ensures d * n >= n
  {
    if d > 1 {
      MulAtLeast(d - 1, n);
      assert d * n == (d - 1) * n + n;
    }
  }

  lemma {:induction false} ModStep(a: int, b: int, n: nat)
    requires n > 0
    ensures (a % n + b) % n == (a + b) % n
  {
    var q, y := a / n, a % n + b;
    assert a + b == q * n + y;
    assert y == (y / n) * n + y % n;
    assert a + b == (q + y / n) * n + y % n;
    ModUnique(a + b, q + y / n, y % n, n);
  }

  lemma {:induction false} StepBack(x: int, n: nat)
    requires n > 0
    ensures (x % n + (n - 1)) % n == (x - 1) % n
  {
    ModStep(x, n - 1, n);
    var y := x - 1;
    assert y == (y / n) * n + y % n;
    assert x + (n - 1) == (y / n + 1) * n + y % n;
    ModUnique(x + (n - 1), y / n + 1, y % n, n);
  }

  /** One wrapped step from a wrapped position. */
  lemma {:induction false} StepWraps(x: int, dir: Direction, n: nat)
    requires n > 0
    ensures AdvanceIndex(x % n, dir, true, n) == (x + if dir == Next then 1 else -1) % n
  {
    if dir == Next {
      ModStep(x, 1, n);
    } else {
      StepBack(x, n);
    }
  }

  /** The place that one step reaches: round the end with wrapping, held at the end without. */
  predicate StepsTo(i: nat, dir: Direction, wrap: bool, len: nat, j: nat) {
    if dir == Next then j == if i + 1 < len then i + 1 else if wrap then 0 else i
    else j == if i > 0 then i - 1 else if wrap then len - 1 else 0
  }

  /** One step, from an index that is clamped to the list first. */
  lemma {:induction false} AdvanceSteps(index: nat, dir: Direction, wrap: bool, len: nat)
    requires len > 0
    ensures StepsTo(Min(index, len - 1), dir, wrap, len, AdvanceIndex(index, dir, wrap, len))
  {
    var i := Min(index, len - 1);
    if wrap {
      if dir == Next && i + 1 < len {
        ModUnique(i + 1, 0, i + 1, len);
      } else if dir == Next {
        ModUnique(i + 1, 1, 0, len);
      } else if i > 0 {
        ModUnique(i + len - 1, 1, i - 1, len);
      } else {
        ModUnique(i + len - 1, 0, len - 1, len);
      }
    }
  }

  /** Without wrapping, steps forward run up to the last window and stay there; steps back run down to
      the first and stay there. */
  lemma {:induction false} HeldIndex(index: nat, dirs: seq<Direction>, len: nat, dir: Direction)
    requires index < len && forall k :: 0 <= k < |dirs| ==> dirs[k] == dir
    ensures AdvanceAll(index, dirs, false, len)
         == if dir == Next then Min(index + |dirs|, len - 1) else if index >= |dirs| then index - |dirs| else 0
  {
    if dirs != [] { HeldIndex(index, dirs[..|dirs| - 1], len, dir); }
  }

  /** Without wrapping, a walk that never leaves the list is a sum. */
  lemma {:induction false} InsideIndex(index: nat, dirs: seq<Direction>, len: nat)
    requires forall k :: 0 <= k <= |dirs| ==> 0 <= index + Net(dirs[..k]) < len
    ensures AdvanceAll(index, dirs, false, len) == index + Net(dirs)
  {
    assert dirs[..|dirs|] == dirs;
    if dirs != [] {
      var front := dirs[..|dirs| - 1];
      assert forall k :: 0 <= k <= |front| ==> front[..k] == dirs[..k];
      InsideIndex(index, front, len);
    }
  }

  /** With wrapping on, any mix of steps lands on (start + nexts - prevs) mod len. */
  lemma {:induction false} WrappedIndex(index: nat, dirs: seq<Direction>, len: nat)
    requires index < len
    ensures AdvanceAll(index, dirs, true, len) == (index + Net(dirs)) % len
  {
    if dirs == [] {
      ModUnique(index, 0, index, len);
    } else {
      var front, last := dirs[..|dirs| - 1], dirs[|dirs| - 1];
      WrappedIndex(index, front, len);
      StepWraps(index + Net(front), last, len);
      assert index + Net(dirs) == index + Net(front) + if last == Next then 1 else -1;
    }
  }
}

module ScopeRule {
  import opened Domain

  datatype WindowMeta = WindowMeta(monitor: nat, workspace: nat, mapped: bool, hidden: bool, appClass: string)
  datatype FocusContext = FocusContext(
    hasFocus: bool, monitor: nat, workspace: nat, appClass: string, visibleWorkspaces: seq<nat>)

  predicate ScopeMatches(scope: Scope, candidate: WindowMeta, focus: FocusContext) {
    if !candidate.mapped || candidate.hidden then false
    else match scope
      case Global => true
      case Monitor => !focus.hasFocus || candidate.monitor == focus.monitor
      case Workspace => !focus.hasFocus || candidate.workspace == focus.workspace
      case Visible => candidate.workspace in focus.visibleWorkspaces
      case App => !focus.hasFocus || focus.appClass == "" || candidate.appClass == focus.appClass
  }
}
