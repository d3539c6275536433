// src/plugin/hypr/hypr_workspace_navigator.cpp: the selected window's workspace is shown on its
// monitor during a session, and what the monitors showed before is shown again on cancel.

module Navigator {
  import opened Wrappers
  import opened Domain

  type Monitor = nat

  /** Where a resolved window is; no workspace or monitor for an unmapped or transient one. */
  datatype Place = Place(workspace: Option<int>, monitor: Option<Monitor>)

  /** The active workspace of each monitor. */
  type Screens = map<Monitor, Option<int>>

  datatype Touch = Touch(monitor: Monitor, preElevation: int)

  datatype Nav = Nav(touches: seq<Touch>, screens: Screens)

  function Active(screens: Screens, m: Monitor): Option<int> { if m in screens then screens[m] else None }

  predicate Touched(touches: seq<Touch>, m: Monitor) { exists i :: 0 <= i < |touches| && touches[i].monitor == m }

  /** `place`: what the window ref resolves to, if it resolves. */
  function Ensured(n: Nav, place: Option<Place>): Nav {
    if place.None? || place.value.workspace.None? || place.value.monitor.None? then n
    else
      var ws, m := place.value.workspace.value, place.value.monitor.value;
      var active := Active(n.screens, m);
      if active == Some(ws) then n
      else
        Nav(if Touched(n.touches, m) then n.touches
            else n.touches + [Touch(m, if active.Some? then active.value else -1)],
            n.screens[m := Some(ws)])
  }

  function EnsuredAll(n: Nav, places: seq<Option<Place>>): Nav {
    if places == [] then n else Ensured(EnsuredAll(n, places[..|places| - 1]), places[|places| - 1])
  }

  function RestoredOne(screens: Screens, t: Touch): Screens {
    var active := Active(screens, t.monitor);
    if t.preElevation < 0 || active.None? || active.value == t.preElevation then screens
    else screens[t.monitor := Some(t.preElevation)]
  }

  function Restored(screens: Screens, touches: seq<Touch>): Screens {
    if touches == [] then screens
    else RestoredOne(Restored(screens, touches[..|touches| - 1]), touches[|touches| - 1])
  }

  function Ended(n: Nav, reason: UiEndReason): Nav {
    Nav([], if reason == UiCancelled then Restored(n.screens, n.touches) else n.screens)
  }

  class HyprlandWorkspaceNavigator {
    var touches: seq<Touch>
    var screens: Screens

    ghost function Abs(): Nav
      reads this
    {
      Nav(touches, screens)
    }

    constructor (screens: Screens)
      ensures Abs() == Nav([], screens)
    {
      touches, this.screens := [], screens;
    }

    method Begin()
      modifies this
      ensures Abs() == Nav([], old(screens))
    {
      touches := [];
    }

    method EnsureVisible(place: Option<Place>)
      modifies this
      ensures Abs() == Ensured(old(Abs()), place)
    {
      if place.None? { return; }
      if place.value.workspace.None? { return; }
      if place.value.monitor.None? { return; }
      var ws, mon := place.value.workspace.value, place.value.monitor.value;
      var active := Active(screens, mon);
      if active == Some(ws) { return; }
      var seen := false;
      for i := 0 to |touches|
        invariant !seen && !Touched(touches[..i], mon)
      {
        if touches[i].monitor == mon {
          seen := true;
          break;
        }
      }
      assert seen == Touched(touches, mon) by {
        assert !seen ==> touches[..|touches|] == touches;
      }
      if !seen { touches := touches + [Touch(mon, if active.Some? then active.value else -1)]; }
      screens := screens[mon := Some(ws)];
    }

    method End(reason: UiEndReason)
      modifies this
      ensures Abs() == Ended(old(Abs()), reason)
    {
      if reason == UiCancelled {
        for i := 0 to |touches|
          invariant touches == old(touches) && screens == Restored(old(screens), touches[..i])
        {
          assert touches[..i + 1][..i] == touches[..i];
          var cap := touches[i];
          if cap.preElevation < 0 { continue; }
          var active := Active(screens, cap.monitor);
          if active.Some? && active.value != cap.preElevation {
            screens := screens[cap.monitor := Some(cap.preElevation)];
          }
        }
        assert touches[..|touches|] == touches;
      }
      touches := [];
    }
  }

  // ---- the reading of a session ----------------------------------------------------------

  /** The workspace of the last window ensured on the monitor, if any. */
  function LastEnsured(places: seq<Option<Place>>, m: Monitor): Option<int> {
    if places == [] then None
    else
      var last := places[|places| - 1];
      if last.Some? && last.value.workspace.Some? && last.value.monitor == Some(m) then last.value.workspace
      else LastEnsured(places[..|places| - 1], m)
  }

  /** Some ensured window on the monitor was on another workspace than the one shown at the start. */
  ghost predicate Left(places: seq<Option<Place>>, m: Monitor, start: Option<int>) {
    exists i :: 0 <= i < |places| && places[i].Some? && places[i].value.workspace.Some?
                && places[i].value.monitor == Some(m) && places[i].value.workspace != start
  }

  /** What is recorded: each monitor once, with what it showed at the start. */
  ghost predicate Recorded(start: Screens, n: Nav) {
    && (forall i, j :: 0 <= i < j < |n.touches| ==> n.touches[i].monitor != n.touches[j].monitor)
    && (forall i :: 0 <= i < |n.touches| ==>
          var a := Active(start, n.touches[i].monitor);
          && n.touches[i].preElevation == (if a.Some? then a.value else -1)
          && Active(n.screens, n.touches[i].monitor).Some?)
  }

  /** One monitor: recorded iff it was left, and showing the last window ensured on it. */
  ghost predicate MonitorInv(start: Screens, places: seq<Option<Place>>, n: Nav, m: Monitor) {
    && (Touched(n.touches, m) <==> Left(places, m, Active(start, m)))
    && Active(n.screens, m) == (if LastEnsured(places, m).Some? then LastEnsured(places, m) else Active(start, m))
    && (!Touched(n.touches, m) ==> Active(n.screens, m) == Active(start, m))
  }

  ghost predicate Inv(start: Screens, places: seq<Option<Place>>, n: Nav) {
    Recorded(start, n) && forall m :: MonitorInv(start, places, n, m)
  }

  lemma {:induction false} LeftSnoc(places: seq<Option<Place>>, last: Option<Place>, m: Monitor, start: Option<int>)
    ensures Left(places + [last], m, start) <==>
            Left(places, m, start)
            || (&& last.Some? && last.value.workspace.Some? && last.value.monitor == Some(m)
                && last.value.workspace != start)
  {
    var all := places + [last];
    if Left(places, m, start) {
      var i :| 0 <= i < |places| && places[i].Some? && places[i].value.workspace.Some?
               && places[i].value.monitor == Some(m) && places[i].value.workspace != start;
      assert all[i] == places[i];
    }
    assert all[|places|] == last;
  }

  lemma {:induction false} EnsuredMonitor(start: Screens, places: seq<Option<Place>>, n: Nav, place: Option<Place>,
                                          m: Monitor)
    requires MonitorInv(start, places, n, m)
    ensures MonitorInv(start, places + [place], Ensured(n, place), m)
  {
    assert (places + [place])[..|places|] == places;
    LeftSnoc(places, place, m, Active(start, m));
    TouchedSnoc(n, Ensured(n, place), m);
  }

  lemma {:induction false} EnsuredRecorded(start: Screens, places: seq<Option<Place>>, n: Nav, place: Option<Place>)
    requires Inv(start, places, n)
    ensures Recorded(start, Ensured(n, place))
  {
    var n' := Ensured(n, place);
    if n'.touches != n.touches {
      var m := n'.touches[|n.touches|].monitor;
      assert MonitorInv(start, places, n, m);
      assert forall i :: 0 <= i < |n.touches| ==> n'.touches[i] == n.touches[i];
    }
  }

  lemma {:induction false} EnsuredInv(start: Screens, places: seq<Option<Place>>, n: Nav, place: Option<Place>)
    requires Inv(start, places, n)
    ensures Inv(start, places + [place], Ensured(n, place))
  {
    EnsuredRecorded(start, places, n, place);
    forall m ensures MonitorInv(start, places + [place], Ensured(n, place), m) {
      EnsuredMonitor(start, places, n, place, m);
    }
  }

  lemma {:induction false} TouchedSnoc(n: Nav, n': Nav, m: Monitor)
    requires n'.touches == n.touches || exists t :: n'.touches == n.touches + [t]
    ensures n'.touches == n.touches ==> (Touched(n'.touches, m) <==> Touched(n.touches, m))
    ensures n'.touches != n.touches ==>
              (Touched(n'.touches, m) <==> Touched(n.touches, m) || m == n'.touches[|n.touches|].monitor)
  {
    if n'.touches != n.touches {
      var t :| n'.touches == n.touches + [t];
      if Touched(n.touches, m) {
        var i :| 0 <= i < |n.touches| && n.touches[i].monitor == m;
        assert n'.touches[i].monitor == m;
      }
      assert n'.touches[|n.touches|] == t;
    }
  }

  lemma {:induction false} AllEnsuredInv(start: Screens, places: seq<Option<Place>>)
    ensures Inv(start, places, EnsuredAll(Nav([], start), places))
  {
    if places != [] {
      var front := places[..|places| - 1];
      AllEnsuredInv(start, front);
      EnsuredInv(start, front, EnsuredAll(Nav([], start), front), places[|places| - 1]);
      assert places == front + [places[|places| - 1]];
    }
  }

  lemma {:induction false} RestoredShows(screens: Screens, touches: seq<Touch>, m: Monitor)
    requires forall i, j :: 0 <= i < j < |touches| ==> touches[i].monitor != touches[j].monitor
    requires forall i :: 0 <= i < |touches| ==> Active(screens, touches[i].monitor).Some?
    ensures forall i :: 0 <= i < |touches| && touches[i].monitor == m ==>
              Active(Restored(screens, touches), m) ==
                (if touches[i].preElevation >= 0 then Some(touches[i].preElevation) else Active(screens, m))
    ensures !Touched(touches, m) ==> Active(Restored(screens, touches), m) == Active(screens, m)
  {
    if touches != [] {
      var front, last := touches[..|touches| - 1], touches[|touches| - 1];
      RestoredShows(screens, front, m);
      RestoredShows(screens, front, last.monitor);
      assert forall i :: 0 <= i < |front| ==> front[i] == touches[i];
      assert !Touched(front, last.monitor);
      if !Touched(touches, m) { assert touches[|touches| - 1].monitor != m && !Touched(front, m); }
    }
  }

  // ---- main results ----------------------------------------------------------------------

  /** Cancelled: a monitor shows what it showed at the start, if that was a regular workspace or the
      session never left it; otherwise it shows the last ensured workspace.
      Applied: every monitor shows the workspace of the last window ensured on it. */
  lemma {:induction false} WorkspaceRestore(start: Screens, places: seq<Option<Place>>, m: Monitor)
    ensures var n := EnsuredAll(Nav([], start), places);
            var a := Active(start, m);
            var last := if LastEnsured(places, m).Some? then LastEnsured(places, m) else a;
            && Active(Ended(n, UiApplied).screens, m) == last
            && Active(Ended(n, UiCancelled).screens, m)
                 == (if (a.Some? && a.value >= 0) || !Left(places, m, a) then a else last)
            && Ended(n, UiCancelled).touches == Ended(n, UiApplied).touches == []
  {
    AllEnsuredInv(start, places);
    var n := EnsuredAll(Nav([], start), places);
    RestoredShows(n.screens, n.touches, m);
    assert MonitorInv(start, places, n, m);
    if Touched(n.touches, m) {
      var i :| 0 <= i < |n.touches| && n.touches[i].monitor == m;
      assert n.touches[i].monitor == m;
    }
  }
}
