// The language of the backend's port calls. A reader that knows the configuration and the answers,
// but not the backend, says which calls an operation makes and in which order; the store is what
// the successful writes among them leave.

module HighlightGrammar {
  import opened Wrappers
  import opened Domain
  import opened Capture
  import opened Highlight
  import HighlightRuns

  // ---- the store -------------------------------------------------------------------------

  /** The store after the successful writes of a trace. */
  function Replayed(store: Store, t: seq<IoCall>): Store {
    if t == [] then store
    else
      var last := t[|t| - 1];
      var r := Replayed(store, t[..|t| - 1]);
      if last.Put? && last.ok then r[last.key := last.value] else r
  }

  /** `h'` is `h` after the calls `t`. */
  ghost predicate Adds(h: Host, h': Host, t: seq<IoCall>) {
    h'.trace == h.trace + t && h'.store == Replayed(h.store, t)
  }

  lemma {:induction false} ReplayedAppend(store: Store, t: seq<IoCall>, u: seq<IoCall>)
    ensures Replayed(store, t + u) == Replayed(Replayed(store, t), u)
    decreases |u|
  {
    if u == [] {
      assert t + u == t;
    } else {
      assert (t + u)[..|t + u| - 1] == t + u[..|u| - 1];
      ReplayedAppend(store, t, u[..|u| - 1]);
    }
  }

  lemma {:induction false} AddsNothing(h: Host)
    ensures Adds(h, h, [])
  {
    assert h.trace + [] == h.trace;
  }

  lemma {:induction false} AddsMore(h: Host, h': Host, h'': Host, t: seq<IoCall>, u: seq<IoCall>)
    requires Adds(h, h', t) && Adds(h', h'', u)
    ensures Adds(h, h'', t + u)
  {
    ReplayedAppend(h.store, t, u);
    assert h.trace + t + u == h.trace + (t + u);
  }

  lemma {:induction false} AddsCall(h: Host, h': Host, t: seq<IoCall>, h'': Host, call: IoCall)
    requires Adds(h, h', t) && h''.trace == h'.trace + [call]
    requires h''.store == if call.Put? && call.ok then h'.store[call.key := call.value] else h'.store
    ensures Adds(h, h'', t + [call])
  {
    assert (t + [call])[..|t|] == t;
    assert h.trace + t + [call] == h.trace + (t + [call]);
  }

  // ---- the language ----------------------------------------------------------------------

  /** The reply was read from this slot; `usable`: a value could be captured from it. */
  predicate Reads(alphaOk: string -> bool, call: IoCall, address: nat, slot: Slot, usable: bool) {
    call.Got? && call.key == Key(address, slot) && (Normalized(alphaOk, call.reply, slot) != "" <==> usable)
  }

  predicate Paints(call: IoCall, address: nat, slot: Slot, value: string) {
    call.Put? && call.key == Key(address, slot) && call.value == value && call.purpose == Override
  }

  ghost predicate OnlyRestores(t: seq<IoCall>) {
    forall i :: 0 <= i < |t| ==> t[i].Put? && t[i].purpose == Restore
  }

  /** Invalid windows are passed over; the first valid one decides by the reply for its active colour. */
  predicate ProbeCalls(t: seq<IoCall>, windows: seq<WindowRef>, available: bool) {
    if windows == [] then t == [] && available
    else if t == [] || !t[0].Asked? || t[0].ref != windows[0] then false
    else if !t[0].valid then ProbeCalls(t[1..], windows[1..], available)
    else
      && |t| == 2 && t[1].Got? && t[1].key == Key(windows[0].address, ActiveColor)
      && (available <==> t[1].reply != "")
  }

  /** Both channels are read before anything is written; an unusable reply ends it there. */
  ghost predicate PairCalls(alphaOk: string -> bool, t: seq<IoCall>, address: nat, s: Slot, s': Slot, usable: bool) {
    if usable then |t| == 2 && Reads(alphaOk, t[0], address, s, true) && Reads(alphaOk, t[1], address, s', true)
    else
      || (|t| == 1 && Reads(alphaOk, t[0], address, s, false))
      || (|t| == 2 && Reads(alphaOk, t[0], address, s, true) && Reads(alphaOk, t[1], address, s', false))
  }

  /** One ring window: asked about, both alphas read, both alphas dimmed. */
  ghost predicate VisitCalls(alphaOk: string -> bool, t: seq<IoCall>, ref: WindowRef, dim: string) {
    || t == [Asked(ref, false)]
    || (&& t != [] && t[0] == Asked(ref, true)
        && (|| PairCalls(alphaOk, t[1..], ref.address, Slot.Alpha, AlphaInactive, false)
            || (&& |t| == 5 && PairCalls(alphaOk, t[1..3], ref.address, Slot.Alpha, AlphaInactive, true)
                && Paints(t[3], ref.address, Slot.Alpha, dim) && Paints(t[4], ref.address, AlphaInactive, dim))))
  }

  /** Every window of the ring is visited once, in order. */
  ghost predicate RingCalls(alphaOk: string -> bool, t: seq<IoCall>, ring: seq<WindowRef>, dim: string)
    decreases |ring|
  {
    if ring == [] then t == []
    else exists n :: 0 <= n <= |t| && RingCut(alphaOk, t, ring, dim, n)
  }

  ghost predicate RingCut(alphaOk: string -> bool, t: seq<IoCall>, ring: seq<WindowRef>, dim: string, n: nat)
    requires ring != [] && n <= |t|
    decreases |ring|, 0
  {
    && RingCalls(alphaOk, t[..n], ring[..|ring| - 1], dim)
    && VisitCalls(alphaOk, t[n..], ring[|ring| - 1], dim)
  }

  /** The border of the selected window: shown, both colours painted, then the size if one is set. */
  ghost predicate BorderCalls(cfg: Config, t: seq<IoCall>, ref: WindowRef) {
    && |t| == (if cfg.size.None? then 3 else 5)
    && t[0] == NavShow(ref)
    && Paints(t[1], ref.address, ActiveColor, cfg.color) && Paints(t[2], ref.address, InactiveColor, cfg.color)
    && (cfg.size.Some? ==> t[3].Got? && t[3].key == Key(ref.address, Slot.Size)
                           && Paints(t[4], ref.address, Slot.Size, cfg.size.value))
  }

  /** All windows but the selected one. */
  function Ring(windows: seq<WindowRef>, selected: nat): seq<WindowRef>
    requires selected < |windows|
  {
    windows[..selected] + windows[selected + 1..]
  }

  ghost predicate StyleCalls(alphaOk: string -> bool, cfg: Config, t: seq<IoCall>, windows: seq<WindowRef>,
                             selected: nat)
    requires selected < |windows|
  {
    match cfg.style
    case Solid => t == []
    case Pulse => |t| == 1 && t[0].Timer?
    case Dim => if cfg.dim.None? then t == [] else RingCalls(alphaOk, t, Ring(windows, selected), cfg.dim.value)
  }

  /** A highlight of window `index`. */
  ghost predicate HighlightCalls(alphaOk: string -> bool, cfg: Config, t: seq<IoCall>, windows: seq<WindowRef>,
                                 index: nat) {
    if index >= |windows| then t == []
    else
      var ref := windows[index];
      || t == [Asked(ref, false)]
      || (&& t != [] && t[0] == Asked(ref, true)
          && (|| PairCalls(alphaOk, t[1..], ref.address, ActiveColor, InactiveColor, false)
              || (exists n :: 3 <= n <= |t| && DrawnCalls(alphaOk, cfg, t, windows, index, n))))
  }

  ghost predicate DrawnCalls(alphaOk: string -> bool, cfg: Config, t: seq<IoCall>, windows: seq<WindowRef>, index: nat,
                             n: nat)
    requires index < |windows| && 3 <= n <= |t|
  {
    && PairCalls(alphaOk, t[1..3], windows[index].address, ActiveColor, InactiveColor, true)
    && BorderCalls(cfg, t[3..n], windows[index])
    && StyleCalls(alphaOk, cfg, t[n..], windows, index)
  }

  // ---- the parts -------------------------------------------------------------------------

  lemma {:induction false} PairAdds(env: IoEnv, h: Host, address: nat, s: Slot, s': Slot) returns (t: seq<IoCall>)
    ensures var p := PairRead(env, h, address, s, s');
            Adds(h, p.host, t) && PairCalls(env.alphaOk, t, address, s, s', p.first != "" && p.second != "")
  {
    var h1 := ReadDone(env, h, Key(address, s));
    var first := Got(Key(address, s), Reply(env, h, Key(address, s)));
    AddsNothing(h);
    AddsCall(h, h, [], h1, first);
    t := [first];
    assert [] + [first] == t;
    if Captured(env, h, Key(address, s)) != "" {
      var second := Got(Key(address, s'), Reply(env, h1, Key(address, s')));
      AddsCall(h, h1, t, ReadDone(env, h1, Key(address, s')), second);
      t := t + [second];
    }
  }

  lemma {:induction false} AlphasAdd(env: IoEnv, h: Host, cap: WindowCapture, dim: string) returns (t: seq<IoCall>)
    ensures Adds(h, AlphasApplied(env, h, cap, dim).host, t) && |t| == 2
    ensures Paints(t[0], cap.ref.address, Slot.Alpha, dim) && Paints(t[1], cap.ref.address, AlphaInactive, dim)
  {
    var a, i := Key(cap.ref.address, Slot.Alpha), Key(cap.ref.address, AlphaInactive);
    t := TwoPaints(env, h, a, i, dim);
  }

  lemma {:induction false} TwoPaints(env: IoEnv, h: Host, a: Key, i: Key, value: string) returns (t: seq<IoCall>)
    ensures Adds(h, Written(env, Written(env, h, a, value, Override), i, value, Override), t) && |t| == 2
    ensures Paints(t[0], a.address, a.slot, value) && Paints(t[1], i.address, i.slot, value)
  {
    var h1 := Written(env, h, a, value, Override);
    var first := Put(a, value, Override, WriteOk(env, h, a, Override));
    var second := Put(i, value, Override, WriteOk(env, h1, i, Override));
    AddsNothing(h);
    AddsCall(h, h, [], h1, first);
    assert [] + [first] == [first];
    AddsCall(h, h1, [first], Written(env, h1, i, value, Override), second);
    t := [first, second];
    assert [first] + [second] == t;
  }

  /** One ring window. */
  lemma {:induction false} VisitAdds(env: IoEnv, u: Ui, ref: WindowRef, dim: string) returns (t: seq<IoCall>)
    ensures Adds(u.host, RingDimmed(env, u, ref, dim).host, t) && VisitCalls(env.alphaOk, t, ref, dim)
  {
    var valid := env.isValid(|u.host.trace|, ref);
    var h := Highlight.Logged(u.host, Asked(ref, valid));
    AddsNothing(u.host);
    AddsCall(u.host, u.host, [], h, Asked(ref, valid));
    t := [Asked(ref, valid)];
    assert [] + t == t;
    if valid {
      var more := TriedAdds(env, u.(host := h), ref, dim);
      AddsMore(u.host, h, RingDimmed(env, u, ref, dim).host, t, more);
      t := t + more;
      assert t[1..] == more;
      if |more| == 4 { assert t[1..3] == more[..2] && t[3] == more[2] && t[4] == more[3]; }
    }
  }

  lemma {:induction false} TriedAdds(env: IoEnv, u: Ui, ref: WindowRef, dim: string) returns (t: seq<IoCall>)
    ensures Adds(u.host, RingTried(env, u, ref, dim).host, t)
    ensures || PairCalls(env.alphaOk, t, ref.address, Slot.Alpha, AlphaInactive, false)
            || (&& |t| == 4 && PairCalls(env.alphaOk, t[..2], ref.address, Slot.Alpha, AlphaInactive, true)
                && Paints(t[2], ref.address, Slot.Alpha, dim) && Paints(t[3], ref.address, AlphaInactive, dim))
  {
    var p := PairRead(env, u.host, ref.address, Slot.Alpha, AlphaInactive);
    t := PairAdds(env, u.host, ref.address, Slot.Alpha, AlphaInactive);
    if p.first != "" && p.second != "" {
      var cap :=
        NewCapture(ref).(alpha := SlotCapture(p.first, false), alphaInactive := SlotCapture(p.second, false));
      var more := AlphasAdd(env, p.host, cap, dim);
      AddsMore(u.host, p.host, AlphasApplied(env, p.host, cap, dim).host, t, more);
      assert (t + more)[..2] == t;
      t := t + more;
    }
  }

  /** The ring among the first `n` windows. */
  function RingPart(windows: seq<WindowRef>, selected: nat, n: nat): seq<WindowRef>
    requires selected < |windows| && n <= |windows|
  {
    if n <= selected then windows[..n] else windows[..selected] + windows[selected + 1..n]
  }

  lemma {:induction false} RingAdds(env: IoEnv, u: Ui, windows: seq<WindowRef>, selected: nat, n: nat, dim: string)
    returns (t: seq<IoCall>)
    requires selected < |windows| && n <= |windows|
    ensures Adds(u.host, RingUpTo(env, u, windows, selected, n, dim).host, t)
    ensures RingCalls(env.alphaOk, t, RingPart(windows, selected, n), dim)
  {
    if n == 0 {
      AddsNothing(u.host);
      t := [];
    } else {
      var u' := RingUpTo(env, u, windows, selected, n - 1, dim);
      t := RingAdds(env, u, windows, selected, n - 1, dim);
      RingPartMore(windows, selected, n);
      t := VisitedMore(env, u, u', windows, selected, n, dim, t);
    }
  }

  lemma {:induction false} VisitedMore(env: IoEnv, u: Ui, u': Ui, windows: seq<WindowRef>, selected: nat, n: nat,
                                       dim: string, t: seq<IoCall>)
    returns (t': seq<IoCall>)
    requires selected < |windows| && 0 < n <= |windows|
    requires Adds(u.host, u'.host, t) && RingCalls(env.alphaOk, t, RingPart(windows, selected, n - 1), dim)
    ensures Adds(u.host, RingVisited(env, u', windows, selected, n, dim).host, t')
    ensures RingCalls(env.alphaOk, t', RingPart(windows, selected, n), dim)
  {
    RingPartMore(windows, selected, n);
    t' := t;
    if n - 1 != selected { t' := VisitMore(env, u, u', RingPart(windows, selected, n - 1), windows[n - 1], dim, t); }
  }

  lemma {:induction false} RingPartMore(windows: seq<WindowRef>, selected: nat, n: nat)
    requires selected < |windows| && 0 < n <= |windows|
    ensures RingPart(windows, selected, n)
         == if n - 1 == selected then RingPart(windows, selected, n - 1)
            else RingPart(windows, selected, n - 1) + [windows[n - 1]]
  {
  }

  lemma {:induction false} VisitMore(env: IoEnv, u: Ui, u': Ui, ring: seq<WindowRef>, ref: WindowRef, dim: string,
                                     t: seq<IoCall>)
    returns (t': seq<IoCall>)
    requires Adds(u.host, u'.host, t) && RingCalls(env.alphaOk, t, ring, dim)
    ensures Adds(u.host, RingDimmed(env, u', ref, dim).host, t')
    ensures RingCalls(env.alphaOk, t', ring + [ref], dim)
  {
    var visit := VisitAdds(env, u', ref, dim);
    AddsMore(u.host, u'.host, RingDimmed(env, u', ref, dim).host, t, visit);
    RingMore(env.alphaOk, t, visit, ring, ref, dim);
    t' := t + visit;
  }

  lemma {:induction false} RingMore(alphaOk: string -> bool, t: seq<IoCall>, visit: seq<IoCall>, ring: seq<WindowRef>,
                                    ref: WindowRef, dim: string)
    requires RingCalls(alphaOk, t, ring, dim) && VisitCalls(alphaOk, visit, ref, dim)
    ensures RingCalls(alphaOk, t + visit, ring + [ref], dim)
  {
    assert (t + visit)[..|t|] == t && (t + visit)[|t|..] == visit;
    assert (ring + [ref])[..|ring|] == ring;
    assert RingCut(alphaOk, t + visit, ring + [ref], dim, |t|);
  }

  lemma {:induction false} BorderAdds(env: IoEnv, cfg: Config, u: Ui, cap: WindowCapture) returns (t: seq<IoCall>)
    ensures Adds(u.host, Overridden(env, cfg, u, cap).host, t) && BorderCalls(cfg, t, cap.ref)
  {
    var h := Highlight.Logged(u.host, NavShow(cap.ref));
    var colors := ColorsApplied(env, cfg, h, cap);
    AddsNothing(u.host);
    AddsCall(u.host, u.host, [], h, NavShow(cap.ref));
    assert [] + [NavShow(cap.ref)] == [NavShow(cap.ref)];
    var paints := TwoPaints(env, h, Key(cap.ref.address, ActiveColor), Key(cap.ref.address, InactiveColor), cfg.color);
    AddsMore(u.host, h, colors.host, [NavShow(cap.ref)], paints);
    t := [NavShow(cap.ref)] + paints;
    if cfg.size.Some? {
      var size := SizeAdds(env, cfg, colors.host, colors.cap);
      AddsMore(u.host, colors.host, SizeApplied(env, cfg, colors.host, colors.cap).host, t, size);
      t := t + size;
    }
  }

  lemma {:induction false} SizeAdds(env: IoEnv, cfg: Config, h: Host, cap: WindowCapture) returns (t: seq<IoCall>)
    requires cfg.size.Some?
    ensures Adds(h, SizeApplied(env, cfg, h, cap).host, t) && |t| == 2
    ensures t[0].Got? && t[0].key == Key(cap.ref.address, Slot.Size)
    ensures Paints(t[1], cap.ref.address, Slot.Size, cfg.size.value)
  {
    var k := Key(cap.ref.address, Slot.Size);
    var h1 := ReadDone(env, h, k);
    var got := Got(k, Reply(env, h, k));
    var put := Put(k, cfg.size.value, Override, WriteOk(env, h1, k, Override));
    AddsNothing(h);
    AddsCall(h, h, [], h1, got);
    assert [] + [got] == [got];
    AddsCall(h, h1, [got], Written(env, h1, k, cfg.size.value, Override), put);
    t := [got, put];
    assert [got] + [put] == t;
  }

  lemma {:induction false} StyleAdds(env: IoEnv, cfg: Config, u: Ui, windows: seq<WindowRef>, index: nat)
    returns (t: seq<IoCall>)
    requires index < |windows|
    ensures var u' := StyleApplied(env, cfg, u, windows, index);
            && Adds(u.host, u'.host, t) && StyleCalls(env.alphaOk, cfg, t, windows, index)
            && (cfg.style == Pulse ==> u'.host.armed == t[0].armed && !u'.pulseDark)
  {
    AddsNothing(u.host);
    t := [];
    match cfg.style
    case Solid =>
    case Pulse =>
      var ok := env.timerOk(|u.host.trace|);
      AddsCall(u.host, u.host, [], StyleApplied(env, cfg, u, windows, index).host, Timer(ok));
      t := [Timer(ok)];
      assert [] + t == t;
    case Dim =>
      if cfg.dim.Some? {
        t := RingAdds(env, u, windows, index, |windows|, cfg.dim.value);
        assert RingPart(windows, index, |windows|) == Ring(windows, index);
      }
  }

  lemma {:induction false} CutsAt(first: seq<IoCall>, pair: seq<IoCall>, border: seq<IoCall>, style: seq<IoCall>)
    requires |first| == 1 && |pair| == 2
    ensures var t, n := first + (pair + (border + style)), 3 + |border|;
            t[0] == first[0] && t[1..3] == pair && t[3..n] == border && t[n..] == style
  {
    var rest := border + style;
    assert rest[..|border|] == border && rest[|border|..] == style;
    var all := pair + rest;
    assert all[..2] == pair && all[2..] == rest;
    var t := first + all;
    assert t[1..] == all;
    assert t[1..3] == all[..2] && t[3..] == all[2..];
    assert t[3..3 + |border|] == rest[..|border|] && t[3 + |border|..] == rest[|border|..];
  }

  lemma {:induction false} DrawnIs(alphaOk: string -> bool, cfg: Config, windows: seq<WindowRef>, index: nat,
                                   pair: seq<IoCall>, border: seq<IoCall>, style: seq<IoCall>)
    requires index < |windows| && PairCalls(alphaOk, pair, windows[index].address, ActiveColor, InactiveColor, true)
    requires BorderCalls(cfg, border, windows[index]) && StyleCalls(alphaOk, cfg, style, windows, index)
    ensures HighlightCalls(alphaOk, cfg, [Asked(windows[index], true)] + (pair + (border + style)), windows, index)
  {
    var t := [Asked(windows[index], true)] + (pair + (border + style));
    var n := 3 + |border|;
    CutsAt([Asked(windows[index], true)], pair, border, style);
    assert DrawnCalls(alphaOk, cfg, t, windows, index, n);
  }

  lemma {:induction false} HighlightAdds(env: IoEnv, cfg: Config, u: Ui, index: nat) returns (t: seq<IoCall>)
    ensures Adds(u.host, Highlighted(env, cfg, u, index).host, t)
    ensures if u.degraded || u.snapshot.None? then t == []
            else HighlightCalls(env.alphaOk, cfg, t, u.snapshot.value.windows, index)
  {
    AddsNothing(u.host);
    t := [];
    if !u.degraded && u.snapshot.Some? && index < |u.snapshot.value.windows| {
      var ref := u.snapshot.value.windows[index];
      var valid := env.isValid(|u.host.trace|, ref);
      var h := Highlight.Logged(u.host, Asked(ref, valid));
      AddsCall(u.host, u.host, [], h, Asked(ref, valid));
      t := [Asked(ref, valid)];
      assert [] + t == t;
      if valid {
        var more := DrawAdds(env, cfg, u.(host := h), index);
        AddsMore(u.host, h, Highlighted(env, cfg, u, index).host, t, more);
        t := t + more;
        assert t[1..] == more;
      }
    }
  }

  /** What follows the question about the selected window when it is valid. */
  lemma {:induction false} DrawAdds(env: IoEnv, cfg: Config, u: Ui, index: nat) returns (t: seq<IoCall>)
    requires u.snapshot.Some? && index < |u.snapshot.value.windows|
    ensures var windows := u.snapshot.value.windows;
            var try := OverrideTried(env, cfg, u, windows[index]);
            && Adds(u.host, (if try.done then StyleApplied(env, cfg, try.ui, windows, index) else try.ui).host, t)
            && (|| PairCalls(env.alphaOk, t, windows[index].address, ActiveColor, InactiveColor, false)
                || HighlightCalls(env.alphaOk, cfg, [Asked(windows[index], true)] + t, windows, index))
  {
    var windows := u.snapshot.value.windows;
    var ref := windows[index];
    var p := PairRead(env, u.host, ref.address, ActiveColor, InactiveColor);
    t := PairAdds(env, u.host, ref.address, ActiveColor, InactiveColor);
    if p.first != "" && p.second != "" {
      var cap := NewCapture(ref).(active := SlotCapture(p.first, false), inactive := SlotCapture(p.second, false));
      var u1 := u.(host := p.host);
      var u2 := Overridden(env, cfg, u1, cap);
      var border := BorderAdds(env, cfg, u1, cap);
      var style := StyleAdds(env, cfg, u2, windows, index);
      AddsMore(p.host, u2.host, StyleApplied(env, cfg, u2, windows, index).host, border, style);
      AddsMore(u.host, p.host, StyleApplied(env, cfg, u2, windows, index).host, t, border + style);
      DrawnIs(env.alphaOk, cfg, windows, index, t, border, style);
      t := t + (border + style);
    }
  }

  lemma {:induction false} ProbeAdds(env: IoEnv, h: Host, windows: seq<WindowRef>) returns (t: seq<IoCall>)
    ensures Adds(h, Probed(env, h, windows).host, t) && ProbeCalls(t, windows, Probed(env, h, windows).available)
    decreases |windows|
  {
    AddsNothing(h);
    t := [];
    if windows != [] {
      var ref := windows[0];
      var valid := env.isValid(|h.trace|, ref);
      var h1 := Highlight.Logged(h, Asked(ref, valid));
      AddsCall(h, h, [], h1, Asked(ref, valid));
      t := [Asked(ref, valid)];
      assert [] + t == t;
      if valid {
        var key := Key(ref.address, ActiveColor);
        AddsCall(h, h1, t, ReadDone(env, h1, key), Got(key, Reply(env, h1, key)));
        t := t + [Got(key, Reply(env, h1, key))];
      } else {
        var more := ProbeAdds(env, h1, windows[1..]);
        AddsMore(h, h1, Probed(env, h, windows).host, t, more);
        t := t + more;
        assert t[1..] == more;
      }
    }
  }

  lemma {:induction false} BackAdds(env: IoEnv, h: Host, marks: seq<Mark>) returns (t: seq<IoCall>)
    ensures Adds(h, PutBack(env, h, marks), t) && OnlyRestores(t)
  {
    AddsNothing(h);
    t := [];
    if marks != [] {
      var front, last := marks[..|marks| - 1], marks[|marks| - 1];
      var h' := PutBack(env, h, front);
      t := BackAdds(env, h, front);
      var put := Put(last.key, last.back, Restore, WriteOk(env, h', last.key, Restore));
      AddsCall(h, h', t, PutBack(env, h, marks), put);
      t := t + [put];
    }
  }

  lemma {:induction false} RestoredAdds(env: IoEnv, u: Ui) returns (t: seq<IoCall>)
    ensures Adds(u.host, RestoredAll(env, u).host, t) && OnlyRestores(t)
    ensures var u' := RestoredAll(env, u);
            && u'.captures == [] && !u'.pulseDark && u'.snapshot == u.snapshot && u'.degraded == u.degraded
  {
    t := BackAdds(env, TimerCancelled(u).host, AllMarks(u.captures));
  }

  // ---- main results ----------------------------------------------------------------------

  /** A session start restores, begins the navigator and probes. When the probe succeeds it highlights;
      when it fails the session is degraded and nothing is read or painted. The store is what the
      writes leave, whatever the ports answer. */
  lemma {:induction false} StartCalls(env: IoEnv, cfg: Config, u: Ui, snapshot: Snapshot, index: nat)
    returns (back: seq<IoCall>, probe: seq<IoCall>, draw: seq<IoCall>)
    ensures var u' := Step(env, cfg, u, Start(snapshot, index));
            && Adds(u.host, u'.host, back + [NavBegin] + (probe + draw)) && OnlyRestores(back)
            && ProbeCalls(probe, snapshot.windows, !u'.degraded)
            && u'.snapshot == Some(snapshot) && !u'.pulseDark
            && (if u'.degraded then draw == []
                else HighlightCalls(env.alphaOk, cfg, draw, snapshot.windows, index))
  {
    var u1 := RestoredAll(env, u);
    var h := Highlight.Logged(u1.host, NavBegin);
    back := RestoredAdds(env, u);
    AddsCall(u.host, u1.host, back, h, NavBegin);
    probe, draw := StartedAdds(env, cfg, u1, h, snapshot, index);
    AddsMore(u.host, h, Step(env, cfg, u, Start(snapshot, index)).host, back + [NavBegin], probe + draw);
  }

  /** A change restores and then highlights; in a degraded session it only restores. */
  lemma {:induction false} ChangeCalls(env: IoEnv, cfg: Config, u: Ui, index: nat)
    returns (back: seq<IoCall>, draw: seq<IoCall>)
    ensures var u' := Step(env, cfg, u, Change(index));
            && Adds(u.host, u'.host, back + draw) && OnlyRestores(back)
            && u'.snapshot == u.snapshot && u'.degraded == u.degraded && !u'.pulseDark
            && (if u.degraded || u.snapshot.None? then draw == []
                else HighlightCalls(env.alphaOk, cfg, draw, u.snapshot.value.windows, index))
  {
    var u1 := RestoredAll(env, u);
    back := RestoredAdds(env, u);
    draw := HighlightAdds(env, cfg, u1, index);
    AddsMore(u.host, u1.host, Step(env, cfg, u, Change(index)).host, back, draw);
    HighlightedKeeps(env, cfg, u1, index);
  }

  /** An end restores and then ends the navigator; nothing of the session is left. */
  lemma {:induction false} EndCalls(env: IoEnv, cfg: Config, u: Ui, reason: UiEndReason) returns (back: seq<IoCall>)
    ensures var u' := Step(env, cfg, u, End(reason));
            && Adds(u.host, u'.host, back + [NavEnd(reason)]) && OnlyRestores(back)
            && u'.snapshot == None && !u'.degraded && u'.captures == [] && !u'.host.armed
  {
    back := RestoredAdds(env, u);
    AddsCall(u.host, RestoredAll(env, u).host, back, Step(env, cfg, u, End(reason)).host, NavEnd(reason));
    HighlightRuns.PutBackArmed(env, TimerCancelled(u).host, AllMarks(u.captures));
  }

  lemma {:induction false} HighlightedKeeps(env: IoEnv, cfg: Config, u: Ui, index: nat)
    ensures var u' := Highlighted(env, cfg, u, index);
            u'.snapshot == u.snapshot && u'.degraded == u.degraded && (u'.pulseDark ==> u.pulseDark)
  {
    if cfg.style == Dim && cfg.dim.Some? && u.snapshot.Some? && index < |u.snapshot.value.windows| {
      var windows := u.snapshot.value.windows;
      var h := Highlight.Logged(u.host, Asked(windows[index], env.isValid(|u.host.trace|, windows[index])));
      var try := OverrideTried(env, cfg, u.(host := h), windows[index]);
      RingDark(env, try.ui, windows, index, |windows|, cfg.dim.value);
    }
  }

  lemma {:induction false} RingDark(env: IoEnv, u: Ui, windows: seq<WindowRef>, selected: nat, n: nat, dim: string)
    requires n <= |windows|
    ensures RingUpTo(env, u, windows, selected, n, dim).pulseDark == u.pulseDark
  {
    if n > 0 { RingDark(env, u, windows, selected, n - 1, dim); }
  }

  lemma {:induction false} StartedAdds(env: IoEnv, cfg: Config, u: Ui, h: Host, snapshot: Snapshot, index: nat)
    returns (probe: seq<IoCall>, draw: seq<IoCall>)
    ensures var p := Probed(env, h, snapshot.windows);
            var u2 := u.(snapshot := Some(snapshot), degraded := !p.available, host := p.host);
            var u' := if !p.available then u2 else Highlighted(env, cfg, u2, index);
            && Adds(h, u'.host, probe + draw) && ProbeCalls(probe, snapshot.windows, p.available)
            && u'.snapshot == Some(snapshot) && u'.degraded == !p.available && (u'.pulseDark ==> u.pulseDark)
            && (if p.available then HighlightCalls(env.alphaOk, cfg, draw, snapshot.windows, index) else draw == [])
  {
    var p := Probed(env, h, snapshot.windows);
    var u2 := u.(snapshot := Some(snapshot), degraded := !p.available, host := p.host);
    probe := ProbeAdds(env, h, snapshot.windows);
    draw := [];
    if p.available {
      draw := HighlightAdds(env, cfg, u2, index);
      HighlightedKeeps(env, cfg, u2, index);
      AddsMore(h, p.host, Highlighted(env, cfg, u2, index).host, probe, draw);
    } else {
      assert probe + [] == probe;
    }
  }

  /** A tick of an armed pulse paints both colours of the first capture, the darker colour and the
      plain one by turns; any other tick does nothing. */
  lemma {:induction false} TickCalls(env: IoEnv, cfg: Config, u: Ui) returns (t: seq<IoCall>)
    ensures var u' := Step(env, cfg, u, Tick);
            && Adds(u.host, u'.host, t)
            && (if u.host.armed && cfg.style == Pulse && !u.degraded && u.captures != [] then
                  var address := u.captures[0].ref.address;
                  var color := if u.pulseDark then cfg.color else cfg.darker;
                  && |t| == 2 && u'.pulseDark == !u.pulseDark
                  && t[0].Put? && t[0] == Put(Key(address, ActiveColor), color, Throb, t[0].ok)
                  && t[1].Put? && t[1] == Put(Key(address, InactiveColor), color, Throb, t[1].ok)
                else t == [] && u' == u)
  {
    AddsNothing(u.host);
    t := [];
    if u.host.armed && cfg.style == Pulse && !u.degraded && u.captures != [] {
      var address := u.captures[0].ref.address;
      var color := if u.pulseDark then cfg.color else cfg.darker;
      var a, i := Key(address, ActiveColor), Key(address, InactiveColor);
      var h1 := Written(env, u.host, a, color, Throb);
      var first := Put(a, color, Throb, WriteOk(env, u.host, a, Throb));
      var second := Put(i, color, Throb, WriteOk(env, h1, i, Throb));
      AddsCall(u.host, u.host, [], h1, first);
      assert [] + [first] == [first];
      AddsCall(u.host, h1, [first], Written(env, h1, i, color, Throb), second);
      t := [first, second];
      assert [first] + [second] == t;
    }
  }
}
