// src/plugin/hypr/hypr_window_source.cpp: building the candidate list of a scope from the
// compositor's history, the registry and the tracker's order, registering windows on the way.

module Candidates {
  import opened Wrappers
  import opened Sequences
  import opened Domain
  import opened ScopeRule
  import opened MruMerge
  import opened Registry

  /** Per monitor: the active workspace, and the special workspace shown on it, if any. */
  datatype Screen = Screen(active: nat, special: Option<nat>)

  function Shown(screens: seq<Screen>): seq<nat> {
    if screens == [] then []
    else
      var last := screens[|screens| - 1];
      Shown(screens[..|screens| - 1]) + [last.active] + (if last.special.Some? then [last.special.value] else [])
  }

  function FocusAnchors(d: Desktop, screens: seq<Screen>, focused: Option<Window>): FocusContext {
    if focused.None? || focused.value !in d.look then FocusContext(false, 0, 0, "", Shown(screens))
    else
      var look := d.look[focused.value];
      FocusContext(true, look.monitor, look.workspace, look.appClass, Shown(screens))
  }

  /** Hidden means: on a special workspace that no monitor shows. */
  function DerivedMeta(look: Look, focus: FocusContext): WindowMeta {
    WindowMeta(look.monitor, look.workspace, look.mapped, look.special && look.workspace !in focus.visibleWorkspaces,
               look.appClass)
  }

  predicate IsCandidate(d: Desktop, w: Option<Window>) {
    w.Some? && w.value in d.look && d.look[w.value].mapped && !d.look[w.value].hiddenFlag
  }

  predicate Qualifies(d: Desktop, scope: Scope, focus: FocusContext, w: Option<Window>) {
    IsCandidate(d, w) && ScopeMatches(scope, DerivedMeta(d.look[w.value], focus), focus)
  }

  /** `ref` names an open entry whose window is alive and qualifies. */
  predicate Listed(r: State, d: Desktop, scope: Scope, focus: FocusContext, ref: WindowRef) {
    && ref.address in r.byAddress
    && r.byAddress[ref.address].ref == ref
    && !r.byAddress[ref.address].closed
    && Qualifies(d, scope, focus, Lock(d, r.byAddress[ref.address].window))
  }

  /** Register on sight: every candidate of the history, newest first. */
  function Sighted(r: State, d: Desktop, newestFirst: seq<Window>): State
    requires WellFormed(d)
  {
    if newestFirst == [] then r
    else
      var r' := Sighted(r, d, newestFirst[..|newestFirst| - 1]);
      var w := newestFirst[|newestFirst| - 1];
      if w in d.alive && IsCandidate(d, Some(w)) then Registered(r', d, w) else r'
  }

  function QualifyingPart(r: State, d: Desktop, scope: Scope, focus: FocusContext,
                          order: seq<WindowRef>): seq<WindowRef> {
    if order == [] then []
    else
      var p := QualifyingPart(r, d, scope, focus, order[..|order| - 1]);
      var ref := order[|order| - 1];
      if Qualifies(d, scope, focus, Resolve(r, d, ref)) then p + [ref] else p
  }

  lemma {:induction false} QualifyingPartListed(r: State, d: Desktop, scope: Scope, focus: FocusContext,
                                                order: seq<WindowRef>)
    requires Sound(r, d)
    ensures var p := QualifyingPart(r, d, scope, focus, order);
            && Subsequence(p, order)
            && forall ref :: ref in p ==> ref in order && Listed(r, d, scope, focus, ref)
  {
    if order != [] {
      var front, ref := order[..|order| - 1], order[|order| - 1];
      var p := QualifyingPart(r, d, scope, focus, front);
      QualifyingPartListed(r, d, scope, focus, front);
      assert order == front + [ref];
      if Qualifies(d, scope, focus, Resolve(r, d, ref)) {
        assert (p + [ref])[..|p|] == p;
        ResolvedListed(r, d, scope, focus, ref);
      }
    }
  }

  lemma {:induction false} QualifyingPartCovers(r: State, d: Desktop, scope: Scope, focus: FocusContext,
                                                order: seq<WindowRef>)
    ensures forall ref :: ref in order && Listed(r, d, scope, focus, ref) ==>
              ref in QualifyingPart(r, d, scope, focus, order)
  {
    if order != [] {
      var front, last := order[..|order| - 1], order[|order| - 1];
      QualifyingPartCovers(r, d, scope, focus, front);
      forall ref | ref in order && Listed(r, d, scope, focus, ref)
        ensures ref in QualifyingPart(r, d, scope, focus, order)
      {
        assert ref in front || ref == last;
      }
    }
  }

  lemma {:induction false} ResolvedListed(r: State, d: Desktop, scope: Scope, focus: FocusContext, ref: WindowRef)
    requires Sound(r, d) && Qualifies(d, scope, focus, Resolve(r, d, ref))
    ensures Listed(r, d, scope, focus, ref)
  {
  }

  /** Registering a live window disturbs no listed entry. */
  lemma {:induction false} RegisteredKeepsListed(r: State, d: Desktop, scope: Scope, focus: FocusContext, w: Window,
                                                 ref: WindowRef)
    requires WellFormed(d) && Sound(r, d) && w in d.alive && Listed(r, d, scope, focus, ref)
    ensures Listed(Registered(r, d, w), d, scope, focus, ref)
    ensures EntryAt(Registered(r, d, w), ref.address).window == EntryAt(r, ref.address).window
  {
  }

  /** `refs` are the refs of the windows of `history` from place `from` on that qualify, the latest
      place first; `places` are these places. */
  ghost predicate FromPlaces(r: State, d: Desktop, scope: Scope, focus: FocusContext, history: seq<Window>,
                             from: nat, refs: seq<WindowRef>, places: seq<nat>) {
    && |places| == |refs|
    && (forall k :: 0 <= k < |refs| ==> Listed(r, d, scope, focus, refs[k]))
    && (forall k :: 0 <= k < |places| ==> from <= places[k] < |history|)
    && (forall k {:trigger refs[k]} :: 0 <= k < |refs| ==>
          EntryAt(r, refs[k].address).window == Some(history[places[k]]))
    && (forall i, j :: 0 <= i < j < |places| ==> places[i] > places[j])
    && (forall m {:trigger Lock(d, Some(history[m]))} ::
          from <= m < |history| && Qualifies(d, scope, focus, Lock(d, Some(history[m]))) ==> m in places)
  }

  lemma {:induction false} SightedStep(r: State, d: Desktop, newestFirst: seq<Window>, i: nat)
    requires WellFormed(d) && i < |newestFirst|
    ensures var before, w := Sighted(r, d, newestFirst[..i]), newestFirst[i];
            var after := if w in d.alive && IsCandidate(d, Some(w)) then Registered(before, d, w) else before;
            Sighted(r, d, newestFirst[..i + 1]) == after
  {
    assert newestFirst[..i + 1][..i] == newestFirst[..i];
  }

  lemma {:induction false} RegisteredKeepsPlaces(r: State, d: Desktop, scope: Scope, focus: FocusContext, w: Window,
                                                 history: seq<Window>, from: nat, refs: seq<WindowRef>,
                                                 places: seq<nat>)
    requires WellFormed(d) && Sound(r, d) && w in d.alive
    requires FromPlaces(r, d, scope, focus, history, from, refs, places)
    ensures Sound(Registered(r, d, w), d)
    ensures FromPlaces(Registered(r, d, w), d, scope, focus, history, from, refs, places)
  {
    RegisteredSound(r, d, w);
    forall k | 0 <= k < |refs|
      ensures Listed(Registered(r, d, w), d, scope, focus, refs[k])
      ensures EntryAt(Registered(r, d, w), refs[k].address).window == EntryAt(r, refs[k].address).window
    {
      RegisteredKeepsListed(r, d, scope, focus, w, refs[k]);
    }
  }

  lemma {:induction false} PlaceSkipped(r: State, d: Desktop, scope: Scope, focus: FocusContext, history: seq<Window>,
                                        from: nat, refs: seq<WindowRef>, places: seq<nat>)
    requires FromPlaces(r, d, scope, focus, history, from, refs, places) && 0 < from <= |history|
    requires !Qualifies(d, scope, focus, Lock(d, Some(history[from - 1])))
    ensures FromPlaces(r, d, scope, focus, history, from - 1, refs, places)
  {
  }

  lemma {:induction false} PlaceAdded(r: State, d: Desktop, scope: Scope, focus: FocusContext, w: Window,
                                      history: seq<Window>, from: nat, refs: seq<WindowRef>, places: seq<nat>,
                                      ref: WindowRef)
    requires Sound(r, d) && FromPlaces(r, d, scope, focus, history, from, refs, places) && 0 < from <= |history|
    requires WellFormed(d) && w == history[from - 1] && w in d.alive && Qualifies(d, scope, focus, Some(w))
    requires Settled(r, d, d.address[w], w) && ref == EntryAt(r, d.address[w]).ref
    ensures FromPlaces(r, d, scope, focus, history, from - 1, refs + [ref], places + [from - 1])
  {
    var places' := places + [from - 1];
    assert places'[|places|] == from - 1;
    forall m | from <= m < |history| && Qualifies(d, scope, focus, Lock(d, Some(history[m]))) ensures m in places' {
      assert m in places;
    }
  }

  /** One turn of the loop over the history. */
  lemma {:induction false} SightStep(first: State, r: State, d: Desktop, scope: Scope, focus: FocusContext,
                                     history: seq<Window>, newestFirst: seq<Window>, i: nat,
                                     refs: seq<WindowRef>, places: seq<nat>)
    returns (r': State, refs': seq<WindowRef>, places': seq<nat>)
    requires WellFormed(d) && Sound(r, d) && i < |history| == |newestFirst|
    requires newestFirst[i] == history[|history| - 1 - i] && r == Sighted(first, d, newestFirst[..i])
    requires FromPlaces(r, d, scope, focus, history, |history| - i, refs, places)
    ensures var w := newestFirst[i];
            var seen := w in d.alive && IsCandidate(d, Some(w));
            && r' == (if seen then Registered(r, d, w) else r)
            && refs' == refs + (if seen && Qualifies(d, scope, focus, Some(w))
                                then [EntryAt(r', d.address[w]).ref] else [])
    ensures Sound(r', d) && r' == Sighted(first, d, newestFirst[..i + 1])
    ensures FromPlaces(r', d, scope, focus, history, |history| - i - 1, refs', places')
  {
    var w, from := newestFirst[i], |history| - i;
    SightedStep(first, d, newestFirst, i);
    r', refs', places' := r, refs, places;
    if w in d.alive && IsCandidate(d, Some(w)) {
      RegisteredKeepsPlaces(r, d, scope, focus, w, history, from, refs, places);
      r' := Registered(r, d, w);
      if Qualifies(d, scope, focus, Some(w)) {
        refs', places' := refs + [EntryAt(r', d.address[w]).ref], places + [from - 1];
        PlaceAdded(r', d, scope, focus, w, history, from, refs, places, EntryAt(r', d.address[w]).ref);
      } else {
        PlaceSkipped(r', d, scope, focus, history, from, refs, places);
      }
    } else {
      PlaceSkipped(r, d, scope, focus, history, from, refs, places);
    }
  }

  class HyprlandWindowSource {
    const registry: WindowIdentityRegistry

    constructor (registry: WindowIdentityRegistry)
      ensures this.registry == registry
    {
      this.registry := registry;
    }

    method CurrentFocus(d: Desktop, screens: seq<Screen>, focused: Option<Window>) returns (focus: FocusContext)
      ensures focus == FocusAnchors(d, screens, focused)
    {
      var visible := [];
      for i := 0 to |screens|
        invariant visible == Shown(screens[..i])
      {
        assert screens[..i + 1][..i] == screens[..i];
        visible := visible + [screens[i].active];
        if screens[i].special.Some? { visible := visible + [screens[i].special.value]; }
      }
      assert screens[..|screens|] == screens;
      if focused.None? || focused.value !in d.look { return FocusContext(false, 0, 0, "", visible); }
      var look := d.look[focused.value];
      return FocusContext(true, look.monitor, look.workspace, look.appClass, visible);
    }

    method FromHistory(d: Desktop, scope: Scope, focus: FocusContext, history: seq<Window>,
                       ghost newestFirst: seq<Window>)
      returns (fallback: seq<WindowRef>, ghost places: seq<nat>)
      requires WellFormed(d) && Sound(registry.Abs(), d)
      requires |newestFirst| == |history|
      requires forall i :: 0 <= i < |history| ==> newestFirst[i] == history[|history| - 1 - i]
      modifies registry
      ensures registry.Abs() == Sighted(old(registry.Abs()), d, newestFirst)
      ensures Sound(registry.Abs(), d)
      ensures FromPlaces(registry.Abs(), d, scope, focus, history, 0, fallback, places)
    {
      fallback, places := [], [];
      for i := 0 to |history|
        invariant registry.Abs() == Sighted(old(registry.Abs()), d, newestFirst[..i])
        invariant Sound(registry.Abs(), d)
        invariant FromPlaces(registry.Abs(), d, scope, focus, history, |history| - i, fallback, places)
      {
        var w := Lock(d, Some(history[|history| - 1 - i]));
        ghost var next, refs, rest :=
          SightStep(old(registry.Abs()), registry.Abs(), d, scope, focus, history, newestFirst, i, fallback, places);
        if IsCandidate(d, w) {
          var ref := registry.RegisterWindow(d, w.value);
          if ScopeMatches(scope, DerivedMeta(d.look[w.value], focus), focus) { fallback := fallback + [ref]; }
        }
        assert registry.Abs() == next && fallback == refs;
        places := rest;
      }
      assert newestFirst[..|history|] == newestFirst;
    }

    /** Windows that were opened but not focused yet. */
    method FromRegistry(d: Desktop, scope: Scope, focus: FocusContext, live: seq<WindowRef>, listed: seq<WindowRef>)
      returns (fallback: seq<WindowRef>)
      requires Sound(registry.Abs(), d)
      requires forall k :: 0 <= k < |listed| ==> Listed(registry.Abs(), d, scope, focus, listed[k])
      requires forall k :: 0 <= k < |live| ==>
                 live[k].address in registry.byAddress && registry.byAddress[live[k].address].ref == live[k]
      ensures listed <= fallback
      ensures forall k :: 0 <= k < |fallback| ==> Listed(registry.Abs(), d, scope, focus, fallback[k])
      ensures forall k :: 0 <= k < |live| && Listed(registry.Abs(), d, scope, focus, live[k]) ==> live[k] in fallback
      ensures fallback == listed + QualifyingPart(registry.Abs(), d, scope, focus, live)
    {
      fallback := listed;
      for i := 0 to |live|
        invariant fallback == listed + QualifyingPart(registry.Abs(), d, scope, focus, live[..i])
      {
        assert live[..i + 1][..i] == live[..i];
        var w := registry.ResolveRef(d, live[i]);
        if w.Some? && IsCandidate(d, w) && ScopeMatches(scope, DerivedMeta(d.look[w.value], focus), focus) {
          fallback := fallback + [live[i]];
        }
      }
      assert live[..|live|] == live;
      QualifyingPartListed(registry.Abs(), d, scope, focus, live);
      QualifyingPartCovers(registry.Abs(), d, scope, focus, live);
    }

    /** The plugin-owned order, as far as it qualifies. */
    method FromOrder(d: Desktop, scope: Scope, focus: FocusContext, order: seq<WindowRef>)
      returns (primary: seq<WindowRef>)
      ensures primary == QualifyingPart(registry.Abs(), d, scope, focus, order)
    {
      primary := [];
      for i := 0 to |order|
        invariant primary == QualifyingPart(registry.Abs(), d, scope, focus, order[..i])
      {
        assert order[..i + 1][..i] == order[..i];
        var w := registry.ResolveRef(d, order[i]);
        if w.Some? && IsCandidate(d, w) && ScopeMatches(scope, DerivedMeta(d.look[w.value], focus), focus) {
          primary := primary + [order[i]];
        }
      }
      assert order[..|order|] == order;
    }

    /** `history` is the compositor's focus history, oldest first; `order` the tracker's order. */
    method Candidates(d: Desktop, screens: seq<Screen>, focused: Option<Window>, scope: Scope,
                      history: seq<Window>, order: seq<WindowRef>)
      returns (out: seq<WindowRef>)
      requires WellFormed(d) && Sound(registry.Abs(), d)
      modifies registry
      ensures Sound(registry.Abs(), d)
      ensures registry.Abs() == Sighted(old(registry.Abs()), d, Reversed(history))
      ensures IsCandidateList(registry.Abs(), d, scope, FocusAnchors(d, screens, focused), order, out)
      ensures RestOrdered(registry.Abs(), history, order, out)
    {
      var focus := CurrentFocus(d, screens, focused);
      var seen, places := FromHistory(d, scope, focus, history, Reversed(history));
      var live := registry.LiveRefsNewestFirst(d);
      var fallback := FromRegistry(d, scope, focus, live, seen);
      var primary := FromOrder(d, scope, focus, order);
      out := MergeMruOrder(primary, fallback);
      CandidateListBuilt(registry.Abs(), d, scope, focus, order, live, fallback);
      CandidateOrderBuilt(registry.Abs(), d, scope, focus, history, order, live, seen, places);
    }
  }

  function Reversed(s: seq<Window>): (r: seq<Window>)
    ensures |r| == |s| && forall i :: 0 <= i < |s| ==> r[i] == s[|s| - 1 - i]
  {
    if s == [] then [] else [s[|s| - 1]] + Reversed(s[..|s| - 1])
  }

  /** Exactly the listed refs, each once, no two with one address; the qualifying part of a
      duplicate-free order comes first, in that order. */
  ghost predicate IsCandidateList(r: State, d: Desktop, scope: Scope, focus: FocusContext,
                                  order: seq<WindowRef>, out: seq<WindowRef>) {
    && Distinct(out)
    && (forall ref :: ref in out <==> Listed(r, d, scope, focus, ref))
    && (forall i, j :: 0 <= i < j < |out| ==> out[i].address != out[j].address)
    && (Distinct(order) ==> QualifyingPart(r, d, scope, focus, order) <= out)
  }

  /** `v` stands in the history at a place after every place of `w`: it had focus more recently. */
  ghost predicate Later(history: seq<Window>, v: Window, w: Window) {
    exists k :: 0 <= k < |history| && history[k] == v && forall m :: k <= m < |history| ==> history[m] != w
  }

  ghost predicate InHistory(r: State, history: seq<Window>, ref: WindowRef) {
    var w := EntryAt(r, ref.address).window;
    w.Some? && w.value in history
  }

  /** `x` may precede `y`: of two windows of the history the one focused more recently, then those of
      the history before the rest, then the one registered later. */
  ghost predicate MayPrecede(r: State, history: seq<Window>, x: WindowRef, y: WindowRef) {
    var a, b := EntryAt(r, x.address), EntryAt(r, y.address);
    if InHistory(r, history, y) then InHistory(r, history, x) && Later(history, a.window.value, b.window.value)
    else InHistory(r, history, x) || a.seqNo > b.seqNo
  }

  /** The order of every two refs that the tracker's order does not hold. */
  ghost predicate RestOrdered(r: State, history: seq<Window>, order: seq<WindowRef>, out: seq<WindowRef>) {
    forall i, j :: 0 <= i < j < |out| && out[i] !in order && out[j] !in order ==>
      MayPrecede(r, history, out[i], out[j])
  }

  /** Every place of a listed window in the history puts its ref into `seen`. */
  lemma {:induction false} PlaceOf(r: State, d: Desktop, scope: Scope, focus: FocusContext, history: seq<Window>,
                                   seen: seq<WindowRef>, places: seq<nat>, y: WindowRef, m: nat)
    returns (q: nat)
    requires Sound(r, d) && FromPlaces(r, d, scope, focus, history, 0, seen, places)
    requires Listed(r, d, scope, focus, y) && m < |history| && EntryAt(r, y.address).window == Some(history[m])
    ensures q < |seen| && seen[q] == y && places[q] == m
  {
    assert Qualifies(d, scope, focus, Lock(d, Some(history[m])));
    q :| 0 <= q < |places| && places[q] == m;
    assert EntryAt(r, seen[q].address).window == Some(history[m]);
    assert seen[q].address == d.address[history[m]] == y.address;
  }

  /** A window of the history is met in `seen` before every window that was focused less recently. */
  lemma {:induction false} SeenOrdered(r: State, d: Desktop, scope: Scope, focus: FocusContext, history: seq<Window>,
                                       seen: seq<WindowRef>, places: seq<nat>, x: WindowRef, y: WindowRef, p: nat)
    requires Sound(r, d) && FromPlaces(r, d, scope, focus, history, 0, seen, places)
    requires p < |seen| && seen[p] == x && forall q :: 0 <= q <= p ==> seen[q] != y
    requires Listed(r, d, scope, focus, y) && InHistory(r, history, y)
    ensures InHistory(r, history, x)
    ensures Later(history, EntryAt(r, x.address).window.value, EntryAt(r, y.address).window.value)
  {
    var w := EntryAt(r, y.address).window.value;
    forall m | 0 <= m < |history| && history[m] == w ensures m < places[p] {
      var q := PlaceOf(r, d, scope, focus, history, seen, places, y, m);
      assert seen[q] == y;
    }
  }

  /** Deleting elements keeps a descending list descending. */
  lemma {:induction false} QualifyingDescends(r: State, d: Desktop, scope: Scope, focus: FocusContext,
                                              live: seq<WindowRef>)
    requires LatestFirst(r, live)
    ensures var p := QualifyingPart(r, d, scope, focus, live);
            (forall x :: x in p ==> x in live) && LatestFirst(r, p)
  {
    if live != [] {
      var front := live[..|live| - 1];
      QualifyingDescends(r, d, scope, focus, front);
      var p := QualifyingPart(r, d, scope, focus, front);
      forall i | 0 <= i < |p| ensures EntryAt(r, p[i].address).seqNo > EntryAt(r, live[|live| - 1].address).seqNo {
        assert p[i] in front;
      }
    }
  }

  /** The pairs of `seen + part`, where `part` holds the later registration first. */
  lemma {:induction false} PairOrdered(r: State, d: Desktop, scope: Scope, focus: FocusContext, history: seq<Window>,
                                       part: seq<WindowRef>, seen: seq<WindowRef>, places: seq<nat>,
                                       x: WindowRef, y: WindowRef)
    requires Sound(r, d) && FromPlaces(r, d, scope, focus, history, 0, seen, places)
    requires LatestFirst(r, part)
    requires Listed(r, d, scope, focus, y) && Before(seen + part, x, y) && y in seen + part
    ensures MayPrecede(r, history, x, y)
  {
    var all := seen + part;
    var p :| 0 <= p < |all| && all[p] == x && forall q :: 0 <= q <= p ==> all[q] != y;
    if InHistory(r, history, y) {
      var w := EntryAt(r, y.address).window.value;
      var m :| 0 <= m < |history| && history[m] == w;
      var q := PlaceOf(r, d, scope, focus, history, seen, places, y, m);
      assert all[q] == y && p < q;
      assert forall q :: 0 <= q <= p ==> seen[q] == all[q];
      SeenOrdered(r, d, scope, focus, history, seen, places, x, y, p);
    } else if p < |seen| {
      assert x == seen[p];
    } else {
      RestOfAll(seen, part, x, y, p);
      var a :| 0 <= a < |part| && part[a] == x && forall q :: 0 <= q <= a ==> part[q] != y;
      var b :| 0 <= b < |part| && part[b] == y;
    }
  }

  lemma {:induction false} RestOfAll(seen: seq<WindowRef>, part: seq<WindowRef>, x: WindowRef, y: WindowRef, p: nat)
    requires |seen| <= p < |seen + part| && (seen + part)[p] == x
    requires forall q :: 0 <= q <= p ==> (seen + part)[q] != y
    requires y in seen + part
    ensures Before(part, x, y) && y in part
  {
    assert part[p - |seen|] == x;
    forall q | 0 <= q <= p - |seen| ensures part[q] != y { assert (seen + part)[q + |seen|] == part[q]; }
    forall q | 0 <= q < |seen| ensures seen[q] != y { assert (seen + part)[q] == seen[q]; }
  }

  lemma {:induction false} CandidateOrderBuilt(r: State, d: Desktop, scope: Scope, focus: FocusContext,
                                               history: seq<Window>, order: seq<WindowRef>, live: seq<WindowRef>,
                                               seen: seq<WindowRef>, places: seq<nat>)
    requires Sound(r, d) && NewestFirst(r, live) && FromPlaces(r, d, scope, focus, history, 0, seen, places)
    ensures var primary := QualifyingPart(r, d, scope, focus, order);
            RestOrdered(r, history, order, Merged(primary, seen + QualifyingPart(r, d, scope, focus, live)))
  {
    var primary := QualifyingPart(r, d, scope, focus, order);
    var fallback := seen + QualifyingPart(r, d, scope, focus, live);
    var out := Merged(primary, fallback);
    QualifyingPartListed(r, d, scope, focus, order);
    QualifyingPartListed(r, d, scope, focus, live);
    QualifyingDescends(r, d, scope, focus, live);
    var part := QualifyingPart(r, d, scope, focus, live);
    forall i, j | 0 <= i < j < |out| && out[i] !in order && out[j] !in order
      ensures MayPrecede(r, history, out[i], out[j])
    {
      FirstOccurrencesOrder(primary + fallback, i, j);
      BeforeInRest(primary, fallback, out[i], out[j]);
      assert out[j] in out && out[j] !in primary;
      PairOrdered(r, d, scope, focus, history, part, seen, places, out[i], out[j]);
    }
  }

  lemma {:induction false} CandidateListBuilt(r: State, d: Desktop, scope: Scope, focus: FocusContext,
                                              order: seq<WindowRef>, live: seq<WindowRef>, fallback: seq<WindowRef>)
    requires Sound(r, d) && NewestFirst(r, live)
    requires forall k :: 0 <= k < |fallback| ==> Listed(r, d, scope, focus, fallback[k])
    requires forall k :: 0 <= k < |live| && Listed(r, d, scope, focus, live[k]) ==> live[k] in fallback
    ensures IsCandidateList(r, d, scope, focus, order, Merged(QualifyingPart(r, d, scope, focus, order), fallback))
  {
    var primary := QualifyingPart(r, d, scope, focus, order);
    var out := Merged(primary, fallback);
    QualifyingPartListed(r, d, scope, focus, order);
    if Distinct(order) { SubsequenceMembers(primary, order); }
    MergeKeepsOrder(primary, fallback);
    forall ref | Listed(r, d, scope, focus, ref) ensures ref in out {
      assert ref in live;
    }
    forall i, j | 0 <= i < j < |out| ensures out[i].address != out[j].address {
      assert out[i] in out && out[j] in out && out[i] != out[j];
    }
  }

  /** Two lists built for the same situation have the same refs. */
  lemma {:induction false} CandidatesAreExact(r: State, d: Desktop, scope: Scope, focus: FocusContext,
                                              order: seq<WindowRef>, a: seq<WindowRef>, b: seq<WindowRef>)
    requires IsCandidateList(r, d, scope, focus, order, a) && IsCandidateList(r, d, scope, focus, order, b)
    ensures multiset(a) == multiset(b)
  {
    DistinctMultiset(a, b);
  }

  lemma {:induction false} DistinctMultiset(a: seq<WindowRef>, b: seq<WindowRef>)
    requires Distinct(a) && Distinct(b) && forall ref :: ref in a <==> ref in b
    ensures multiset(a) == multiset(b)
  {
    if a == [] {
      if b != [] { FirstIn(b); }
    } else {
      var x, rest := a[0], a[1..];
      assert a == [x] + rest;
      assert forall ref :: ref in rest <==> ref in a && ref != x;
      WithoutMultiset(b, x);
      WithoutDistinct(b, x);
      DistinctMultiset(rest, Without(b, x));
    }
  }
}
