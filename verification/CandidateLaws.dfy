// What a candidate list promises, told by the looks of the windows and the screens alone.

module CandidateLaws {
  import opened Wrappers
  import opened Sequences
  import opened Domain
  import opened Ports
  import opened History
  import opened Session
  import opened SessionLaws
  import opened Registry
  import opened Candidates

  /** A monitor has the workspace active, or shows it as its special workspace. */
  ghost predicate OnScreen(screens: seq<Screen>, workspace: nat) {
    exists i :: 0 <= i < |screens| && (screens[i].active == workspace || screens[i].special == Some(workspace))
  }

  /** A window belongs to a scope: it can be seen or brought to sight, and it shares with the focused
      window what the scope names. Without a focused window these three scopes ask nothing more. */
  ghost predicate InScope(d: Desktop, screens: seq<Screen>, focused: Option<Window>, scope: Scope, w: Window)
    requires w in d.look
  {
    var look := d.look[w];
    && look.mapped && !look.hiddenFlag
    && (look.special || scope == Visible ==> OnScreen(screens, look.workspace))
    && (focused.Some? && focused.value in d.look ==>
          var f := d.look[focused.value];
          && (scope == Monitor ==> look.monitor == f.monitor)
          && (scope == Workspace ==> look.workspace == f.workspace)
          && (scope == App && f.appClass != "" ==> look.appClass == f.appClass))
  }

  lemma {:induction false} ShownOnScreen(screens: seq<Screen>, workspace: nat)
    ensures workspace in Shown(screens) <==> OnScreen(screens, workspace)
  {
    if screens != [] {
      var front, last := screens[..|screens| - 1], screens[|screens| - 1];
      ShownOnScreen(front, workspace);
      assert forall i :: 0 <= i < |front| ==> front[i] == screens[i];
      assert last == screens[|screens| - 1];
      if OnScreen(screens, workspace) && last.active != workspace && last.special != Some(workspace) {
        var i :| 0 <= i < |screens| && (screens[i].active == workspace || screens[i].special == Some(workspace));
        assert front[i] == screens[i];
      }
    }
  }

  /** A candidate list holds exactly the refs of the live windows in scope. */
  lemma {:induction false} CandidatesInScope(r: State, d: Desktop, screens: seq<Screen>, focused: Option<Window>,
                                             scope: Scope, order: seq<WindowRef>, out: seq<WindowRef>, ref: WindowRef)
    requires WellFormed(d) && Sound(r, d)
    requires IsCandidateList(r, d, scope, FocusAnchors(d, screens, focused), order, out)
    ensures ref in out <==>
              exists w :: Resolve(r, d, ref) == Some(w) && w in d.alive && InScope(d, screens, focused, scope, w)
  {
    var focus := FocusAnchors(d, screens, focused);
    if Resolve(r, d, ref).Some? {
      var w := Resolve(r, d, ref).value;
      ShownOnScreen(screens, d.look[w].workspace);
      assert Listed(r, d, scope, focus, ref) <==> InScope(d, screens, focused, scope, w);
    }
  }

  // ---- registering on sight --------------------------------------------------------------

  predicate Seeable(d: Desktop, w: Window) { w in d.alive && IsCandidate(d, Some(w)) }

  /** No candidate of `ws` is at this address. */
  ghost predicate NoneAt(d: Desktop, ws: seq<Window>, a: nat)
    requires WellFormed(d)
  {
    forall w :: w in ws && Seeable(d, w) ==> d.address[w] != a
  }

  lemma {:induction false} RegisteredSettles(r: State, d: Desktop, w: Window, v: Window)
    requires WellFormed(d) && Sound(r, d) && w in d.alive && v in d.alive
    ensures Settled(Registered(r, d, w), d, d.address[w], w)
    ensures v != w ==> EntryAt(Registered(r, d, w), d.address[v]) == EntryAt(r, d.address[v])
    ensures Settled(r, d, d.address[v], v) ==>
              EntryAt(Registered(r, d, w), d.address[v]) == EntryAt(r, d.address[v])
  {
  }

  /** Building a candidate list registers every candidate of the history, whatever its scope. */
  lemma {:induction false} SightedRegisters(r: State, d: Desktop, ws: seq<Window>)
    requires WellFormed(d) && Sound(r, d)
    ensures var r' := Sighted(r, d, ws);
            Sound(r', d) && forall w :: w in ws && Seeable(d, w) ==> Settled(r', d, d.address[w], w)
  {
    if ws != [] {
      var front, last := ws[..|ws| - 1], ws[|ws| - 1];
      var r1 := Sighted(r, d, front);
      SightedRegisters(r, d, front);
      assert ws == front + [last];
      if Seeable(d, last) {
        RegisteredSound(r1, d, last);
        forall w | w in ws && Seeable(d, w) ensures Settled(Registered(r1, d, last), d, d.address[w], w) {
          RegisteredSettles(r1, d, last, w);
        }
      }
    }
  }

  /** It leaves the entries of all other addresses alone. */
  lemma {:induction false} SightedElsewhere(r: State, d: Desktop, ws: seq<Window>, a: nat)
    requires WellFormed(d) && NoneAt(d, ws, a)
    ensures var r' := Sighted(r, d, ws);
            (a in r'.byAddress <==> a in r.byAddress) && EntryAt(r', a) == EntryAt(r, a)
  {
    if ws != [] {
      var front, last := ws[..|ws| - 1], ws[|ws| - 1];
      assert ws == front + [last];
      assert NoneAt(d, front, a);
      SightedElsewhere(r, d, front, a);
      assert last in ws;
    }
  }

  /** Of two windows first seen in one pass, the one met first, which was focused more recently, gets
      the smaller number. */
  lemma {:induction false} SightedOrder(r: State, d: Desktop, ws: seq<Window>, i: nat, j: nat)
    requires WellFormed(d) && Sound(r, d) && i < j < |ws| && ws[i] !in ws[..i] && ws[j] !in ws[..j]
    requires Seeable(d, ws[i]) && Seeable(d, ws[j])
    requires d.address[ws[i]] !in r.byAddress && d.address[ws[j]] !in r.byAddress
    ensures var r' := Sighted(r, d, ws);
            r'.seqCounter >= EntryAt(r', d.address[ws[j]]).seqNo > EntryAt(r', d.address[ws[i]]).seqNo
  {
    var front, last := ws[..|ws| - 1], ws[|ws| - 1];
    var r1 := Sighted(r, d, front);
    var v, w := ws[i], ws[j];
    SightedRegisters(r, d, front);
    assert front[..i] == ws[..i] && v == front[i] && v in front;
    if j < |front| {
      assert front[..j] == ws[..j] && front[j] == w && w in front;
      SightedOrder(r, d, front, i, j);
      if Seeable(d, last) { OrderKept(r1, d, last, v, w); }
    } else {
      assert ws[..j] == front;
      SightedElsewhere(r, d, front, d.address[w]);
      NumberedLast(r1, d, v, w);
    }
  }

  lemma {:induction false} OrderKept(r: State, d: Desktop, last: Window, v: Window, w: Window)
    requires WellFormed(d) && Sound(r, d) && last in d.alive && v in d.alive && w in d.alive
    requires Settled(r, d, d.address[v], v) && Settled(r, d, d.address[w], w)
    requires r.seqCounter >= EntryAt(r, d.address[w]).seqNo > EntryAt(r, d.address[v]).seqNo
    ensures var r' := Registered(r, d, last);
            r'.seqCounter >= EntryAt(r', d.address[w]).seqNo > EntryAt(r', d.address[v]).seqNo
  {
    RegisteredSettles(r, d, last, v);
    RegisteredSettles(r, d, last, w);
  }

  lemma {:induction false} NumberedLast(r: State, d: Desktop, v: Window, w: Window)
    requires WellFormed(d) && Sound(r, d) && v in d.alive && w in d.alive && v != w
    requires Settled(r, d, d.address[v], v) && d.address[v] in r.byAddress && d.address[w] !in r.byAddress
    ensures var r' := Registered(r, d, w);
            r'.seqCounter >= EntryAt(r', d.address[w]).seqNo > EntryAt(r', d.address[v]).seqNo
  {
    RegisteredSettles(r, d, w, v);
  }

  // ---- the order at load -----------------------------------------------------------------

  lemma {:induction false} AllSurvive(env: Env, asked: nat, refs: seq<WindowRef>)
    requires forall n, ref :: ref in refs ==> env.isValid(n, ref)
    ensures Survivors(env, asked, refs) == refs
  {
    if refs != [] {
      AllSurvive(env, asked, refs[..|refs| - 1]);
      assert refs == refs[..|refs| - 1] + [refs[|refs| - 1]];
    }
  }

  /** The tracker seeded from a candidate list, while its windows stay valid, has that list for its
      order: more recently focused windows before others, windows of the history before the rest. */
  lemma {:induction false} SeedFollowsHistory(env: Env, h: Hist, r: State, d: Desktop, scope: Scope,
                                              focus: ScopeRule.FocusContext, history: seq<Window>,
                                              out: seq<WindowRef>)
    requires IsCandidateList(r, d, scope, focus, [], out) && RestOrdered(r, history, [], out)
    requires forall n, ref :: ref in out ==> env.isValid(n, ref)
    ensures var order := Seeded(env, h, out).tracker.order;
            && (forall ref :: ref in order <==> Listed(r, d, scope, focus, ref))
            && (forall i, j :: 0 <= i < j < |order| ==> MayPrecede(r, history, order[i], order[j]))
  {
    SeedKeepsFirstValid(env, h, out);
    AllSurvive(env, |h.trace|, out);
    FirstOccurrencesDistinct(out);
  }
}
