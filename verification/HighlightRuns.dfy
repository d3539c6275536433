// The laws of HighlightLaws carried over whole runs of the backend.

module HighlightRuns {
  import opened Wrappers
  import opened Domain
  import opened Capture
  import opened Highlight
  import opened HighlightLaws

  /** The capture says that our override of this slot was written. */
  predicate AppliedAt(cap: WindowCapture, key: Key) {
    && cap.ref.address == key.address
    && match key.slot
       case ActiveColor => cap.active.applied
       case InactiveColor => cap.inactive.applied
       case Alpha => cap.alpha.applied
       case AlphaInactive => cap.alphaInactive.applied
       case Size => cap.sizeApplied
  }

  ghost predicate DistinctAddresses(windows: seq<WindowRef>) {
    forall i, j :: 0 <= i < j < |windows| ==> windows[i].address != windows[j].address
  }

  predicate OnlyBorder(cap: WindowCapture) { !cap.alpha.applied && !cap.alphaInactive.applied }

  predicate OnlyAlpha(cap: WindowCapture) { !cap.active.applied && !cap.inactive.applied && !cap.sizeApplied }

  /** The selected window first, with border overrides only; then ring windows, with alpha only. */
  ghost predicate Shape(captures: seq<WindowCapture>, windows: seq<WindowRef>, selected: nat, n: nat) {
    && captures != [] && selected < |windows|
    && captures[0].ref == windows[selected] && OnlyBorder(captures[0])
    && forall c :: 1 <= c < |captures| ==> OnlyAlpha(captures[c]) && RingMember(windows, selected, n, captures[c].ref)
  }

  /** `ref` is one of the first `n` windows, and not the selected one. */
  ghost predicate RingMember(windows: seq<WindowRef>, selected: nat, n: nat, ref: WindowRef) {
    exists j :: 0 <= j < n && j < |windows| && j != selected && ref == windows[j]
  }

  /** Both colours of the highlighted window were read since they were last put back. */
  predicate HeadRead(env: IoEnv, u: Ui) {
    u.captures != [] ==> ChannelsFresh(env, u.host.trace, Key(u.captures[0].ref.address, ActiveColor))
  }

  /** `selected`: the index told last. */
  ghost predicate Inv(env: IoEnv, cfg: Config, w: Watch, u: Ui, selected: nat) {
    && Accounts(env, w, u.host, AllMarks(u.captures))
    && (u.snapshot.Some? ==> DistinctAddresses(u.snapshot.value.windows))
    && (u.captures != [] ==>
          && u.snapshot.Some? && !u.degraded
          && Shape(u.captures, u.snapshot.value.windows, selected, |u.snapshot.value.windows|))
    && HeadRead(env, u)
    && (u.host.armed ==> cfg.style == Pulse && u.captures != [])
  }

  // ---- marks of captures -----------------------------------------------------------------

  lemma {:induction false} HasKeyAppend(a: seq<Mark>, b: seq<Mark>)
    ensures forall key :: HasKey(a + b, key) <==> HasKey(a, key) || HasKey(b, key)
  {
    forall key | HasKey(a, key) ensures HasKey(a + b, key) {
      var i :| 0 <= i < |a| && a[i].key == key;
      assert (a + b)[i] == a[i];
    }
    forall key | HasKey(b, key) ensures HasKey(a + b, key) {
      var i :| 0 <= i < |b| && b[i].key == key;
      assert (a + b)[|a| + i] == b[i];
    }
  }

  lemma {:induction false} SlotMarkKey(ref: WindowRef, slot: Slot, cap: SlotCapture)
    ensures forall key :: HasKey(SlotMark(ref, slot, cap), key) <==> cap.applied && key == Key(ref.address, slot)
  {
    if cap.applied { assert SlotMark(ref, slot, cap)[0].key == Key(ref.address, slot); }
  }

  lemma {:induction false} MarksAre(cap: WindowCapture, key: Key)
    ensures HasKey(Marks(cap), key) <==> AppliedAt(cap, key)
  {
    var a, b := SlotMark(cap.ref, ActiveColor, cap.active), SlotMark(cap.ref, InactiveColor, cap.inactive);
    var c, d := SlotMark(cap.ref, Slot.Alpha, cap.alpha), SlotMark(cap.ref, AlphaInactive, cap.alphaInactive);
    var size := SlotCapture(if cap.sizeCaptured then cap.sizeValue else UNSET, cap.sizeApplied);
    var e := SlotMark(cap.ref, Slot.Size, size);
    HasKeyAppend(a, b);
    HasKeyAppend(a + b, c);
    HasKeyAppend(a + b + c, d);
    HasKeyAppend(a + b + c + d, e);
    SlotMarkKey(cap.ref, ActiveColor, cap.active);
    SlotMarkKey(cap.ref, InactiveColor, cap.inactive);
    SlotMarkKey(cap.ref, Slot.Alpha, cap.alpha);
    SlotMarkKey(cap.ref, AlphaInactive, cap.alphaInactive);
    SlotMarkKey(cap.ref, Slot.Size, size);
  }

  lemma {:induction false} AllMarksAre(captures: seq<WindowCapture>, key: Key)
    ensures HasKey(AllMarks(captures), key) <==> exists c :: 0 <= c < |captures| && AppliedAt(captures[c], key)
  {
    if captures != [] {
      var front, last := captures[..|captures| - 1], captures[|captures| - 1];
      AllMarksAre(front, key);
      MarksAre(last, key);
      HasKeyAppend(AllMarks(front), Marks(last));
      assert forall c :: 0 <= c < |front| ==> front[c] == captures[c];
    }
  }

  lemma {:induction false} AllMarksSnoc(captures: seq<WindowCapture>, cap: WindowCapture)
    ensures AllMarks(captures + [cap]) == AllMarks(captures) + Marks(cap)
  {
    assert (captures + [cap])[..|captures|] == captures;
  }

  // ---- reading and overriding a pair of channels -----------------------------------------

  lemma {:induction false} PairReadKeeps(env: IoEnv, w: Watch, h: Host, marks: seq<Mark>, a: nat, s: Slot, t: Slot)
    requires Accounts(env, w, h, marks) && Ready(env, w)
    requires !HasKey(marks, Key(a, s)) && !HasKey(marks, Key(a, t)) && Partner(s) == t && Partner(t) == s
    ensures var p := PairRead(env, h, a, s, t);
            && Accounts(env, w, p.host, marks) && p.host.armed == h.armed && NoRestores(h.trace, p.host.trace)
            && (p.first != "" && p.second != "" ==>
                  && BackOk(env, w, p.host.trace, Mark(Key(a, s), p.first))
                  && BackOk(env, w, p.host.trace, Mark(Key(a, t), p.second))
                  && ChannelsFresh(env, p.host.trace, Key(a, s)) && ChannelsFresh(env, p.host.trace, Key(a, t)))
  {
    var k, l := Key(a, s), Key(a, t);
    ReadKeeps(env, w, h, marks, k);
    var first, h1 := Captured(env, h, k), ReadDone(env, h, k);
    if first != "" {
      ReadKeeps(env, w, h1, marks, l);
      ReadsRemain(env, h1.trace, Got(l, Reply(env, h1, l)));
      FreshRemains(env, h1.trace, ReadDone(env, h1, l).trace, k);
    }
  }

  lemma {:induction false} PairWrittenKeeps(env: IoEnv, w: Watch, h: Host, marks: seq<Mark>, ref: WindowRef,
                                            s: Slot, t: Slot, first: string, second: string, value: string)
    requires Accounts(env, w, h, marks) && s != t
    requires !HasKey(marks, Key(ref.address, s)) && !HasKey(marks, Key(ref.address, t))
    requires BackOk(env, w, h.trace, Mark(Key(ref.address, s), first))
    requires BackOk(env, w, h.trace, Mark(Key(ref.address, t), second))
    requires ChannelsFresh(env, h.trace, Key(ref.address, s)) && ChannelsFresh(env, h.trace, Key(ref.address, t))
    ensures var k, l := Key(ref.address, s), Key(ref.address, t);
            var h1 := Written(env, h, k, value, Override);
            var h2 := Written(env, h1, l, value, Override);
            && h2.armed == h.armed && NoRestores(h.trace, h2.trace)
            && Accounts(env, w, h2, marks + SlotMark(ref, s, SlotCapture(first, WriteOk(env, h, k, Override)))
                                          + SlotMark(ref, t, SlotCapture(second, WriteOk(env, h1, l, Override))))
  {
    var k, l := Key(ref.address, s), Key(ref.address, t);
    var h1 := Written(env, h, k, value, Override);
    OverrideKeeps(env, w, h, marks, Mark(k, first), value);
    var marks1 := marks + SlotMark(ref, s, SlotCapture(first, WriteOk(env, h, k, Override)));
    assert marks1 == if WriteOk(env, h, k, Override) then marks + [Mark(k, first)] else marks;
    HasKeySnoc(marks, Mark(k, first));
    ReadsRemain(env, h.trace, Put(k, value, Override, WriteOk(env, h, k, Override)));
    ChannelsRemain(env, h.trace, h1.trace, l);
    OverrideKeeps(env, w, h1, marks1, Mark(l, second), value);
    var ok := WriteOk(env, h1, l, Override);
    assert marks1 + SlotMark(ref, t, SlotCapture(second, ok)) == if ok then marks1 + [Mark(l, second)] else marks1;
  }

  /** What the size capture puts back. */
  function SizeBack(cap: WindowCapture): SlotCapture {
    SlotCapture(if cap.sizeCaptured then cap.sizeValue else UNSET, cap.sizeApplied)
  }

  lemma {:induction false} SizeKeeps(env: IoEnv, cfg: Config, w: Watch, h: Host, marks: seq<Mark>, cap: WindowCapture)
    requires Accounts(env, w, h, marks) && Ready(env, w)
    requires !HasKey(marks, Key(cap.ref.address, Slot.Size)) && !cap.sizeApplied && !cap.sizeCaptured
    ensures var e := SizeApplied(env, cfg, h, cap);
            && e.host.armed == h.armed && NoRestores(h.trace, e.host.trace)
            && e.cap.ref == cap.ref && e.cap.active == cap.active && e.cap.inactive == cap.inactive
            && e.cap.alpha == cap.alpha && e.cap.alphaInactive == cap.alphaInactive
            && Accounts(env, w, e.host, marks + SlotMark(cap.ref, Slot.Size, SizeBack(e.cap)))
  {
    var e := SizeApplied(env, cfg, h, cap);
    var k, back := Key(cap.ref.address, Slot.Size), SizeBack(e.cap);
    if cfg.size.None? {
      assert marks + SlotMark(cap.ref, Slot.Size, back) == marks;
    } else {
      ReadKeeps(env, w, h, marks, k);
      var prior, h1 := Captured(env, h, k), ReadDone(env, h, k);
      OverrideKeeps(env, w, h1, marks, Mark(k, if prior != "" then prior else UNSET), cfg.size.value);
      assert marks + SlotMark(cap.ref, Slot.Size, back)
          == if back.applied then marks + [Mark(k, if prior != "" then prior else UNSET)] else marks;
    }
  }

  /** The border overrides of one window, starting from balanced and empty books. */
  lemma {:induction false} OverriddenKeeps(env: IoEnv, cfg: Config, w: Watch, u: Ui, ref: WindowRef,
                                           first: string, second: string)
    requires Accounts(env, w, u.host, []) && Ready(env, w) && u.captures == []
    requires BackOk(env, w, u.host.trace, Mark(Key(ref.address, ActiveColor), first))
    requires BackOk(env, w, u.host.trace, Mark(Key(ref.address, InactiveColor), second))
    requires ChannelsFresh(env, u.host.trace, Key(ref.address, ActiveColor))
    ensures var cap := NewCapture(ref).(active := SlotCapture(first, false), inactive := SlotCapture(second, false));
            var u' := Overridden(env, cfg, u, cap);
            && |u'.captures| == 1 && u'.captures[0].ref == ref && OnlyBorder(u'.captures[0])
            && Accounts(env, w, u'.host, AllMarks(u'.captures)) && HeadRead(env, u')
            && u'.host.armed == u.host.armed
  {
    var cap := NewCapture(ref).(active := SlotCapture(first, false), inactive := SlotCapture(second, false));
    var show := NavShow(ref);
    QuietCall(env, w, u.host, [], show);
    ReadsRemain(env, u.host.trace, show);
    ChannelsRemain(env, u.host.trace, u.host.trace + [show], Key(ref.address, ActiveColor));
    BorderKeeps(env, cfg, w, Logged(u.host, show), cap);
    var colors := ColorsApplied(env, cfg, Logged(u.host, show), cap);
    var e := SizeApplied(env, cfg, colors.host, colors.cap);
    assert u.captures + [e.cap] == [e.cap];
  }

  /** The colours and the size of a capture that holds the prior colours. */
  lemma {:induction false} BorderKeeps(env: IoEnv, cfg: Config, w: Watch, h: Host, cap: WindowCapture)
    requires Accounts(env, w, h, []) && Ready(env, w)
    requires OnlyBorder(cap) && !cap.sizeApplied && !cap.sizeCaptured
    requires BackOk(env, w, h.trace, Mark(Key(cap.ref.address, ActiveColor), cap.active.value))
    requires BackOk(env, w, h.trace, Mark(Key(cap.ref.address, InactiveColor), cap.inactive.value))
    requires ChannelsFresh(env, h.trace, Key(cap.ref.address, ActiveColor))
    ensures var colors := ColorsApplied(env, cfg, h, cap);
            var e := SizeApplied(env, cfg, colors.host, colors.cap);
            && e.cap.ref == cap.ref && OnlyBorder(e.cap) && e.host.armed == h.armed
            && Accounts(env, w, e.host, AllMarks([e.cap]))
            && ChannelsFresh(env, e.host.trace, Key(cap.ref.address, ActiveColor))
  {
    ColorsKeep(env, cfg, w, h, cap);
    var colors := ColorsApplied(env, cfg, h, cap);
    var c := colors.cap;
    var a, i := SlotMark(cap.ref, ActiveColor, c.active), SlotMark(cap.ref, InactiveColor, c.inactive);
    var marks := a + i;
    SizeKeeps(env, cfg, w, colors.host, marks, colors.cap);
    var e := SizeApplied(env, cfg, colors.host, colors.cap);
    ChannelsRemain(env, h.trace, e.host.trace, Key(cap.ref.address, ActiveColor));
    BorderMarks(e.cap);
  }

  lemma {:induction false} ColorsKeep(env: IoEnv, cfg: Config, w: Watch, h: Host, cap: WindowCapture)
    requires Accounts(env, w, h, [])
    requires BackOk(env, w, h.trace, Mark(Key(cap.ref.address, ActiveColor), cap.active.value))
    requires BackOk(env, w, h.trace, Mark(Key(cap.ref.address, InactiveColor), cap.inactive.value))
    requires ChannelsFresh(env, h.trace, Key(cap.ref.address, ActiveColor))
    ensures var e := ColorsApplied(env, cfg, h, cap);
            var a, i := SlotMark(cap.ref, ActiveColor, e.cap.active), SlotMark(cap.ref, InactiveColor, e.cap.inactive);
            var marks := a + i;
            && Accounts(env, w, e.host, marks) && e.host.armed == h.armed && NoRestores(h.trace, e.host.trace)
            && !HasKey(marks, Key(cap.ref.address, Slot.Size))
  {
    var none: seq<Mark> := [];
    var e := ColorsApplied(env, cfg, h, cap);
    FreshChannels(env, h.trace, Key(cap.ref.address, ActiveColor));
    PairWrittenKeeps(env, w, h, none, cap.ref, ActiveColor, InactiveColor, cap.active.value, cap.inactive.value,
                     cfg.color);
    var a, i := SlotMark(cap.ref, ActiveColor, e.cap.active), SlotMark(cap.ref, InactiveColor, e.cap.inactive);
    assert none + a + i == a + i;
    HasKeyAppend(a, i);
    SlotMarkKey(cap.ref, ActiveColor, e.cap.active);
    SlotMarkKey(cap.ref, InactiveColor, e.cap.inactive);
  }

  lemma {:induction false} BorderMarks(cap: WindowCapture)
    requires OnlyBorder(cap)
    ensures AllMarks([cap])
         == SlotMark(cap.ref, ActiveColor, cap.active) + SlotMark(cap.ref, InactiveColor, cap.inactive)
          + SlotMark(cap.ref, Slot.Size, SizeBack(cap))
  {
    AllMarksSnoc([], cap);
    assert [] + [cap] == [cap];
  }

  // ---- the ring --------------------------------------------------------------------------

  /** In the middle of dimming: the first `n` windows of the ring are done. */
  ghost predicate Dimming(env: IoEnv, w: Watch, u: Ui, windows: seq<WindowRef>, selected: nat, n: nat) {
    Accounts(env, w, u.host, AllMarks(u.captures)) && Shape(u.captures, windows, selected, n) && HeadRead(env, u)
  }

  lemma {:induction false} FreshRingKey(captures: seq<WindowCapture>, windows: seq<WindowRef>, selected: nat, n: nat,
                                        slot: Slot)
    requires Shape(captures, windows, selected, n) && DistinctAddresses(windows) && n < |windows| && n != selected
    ensures !HasKey(AllMarks(captures), Key(windows[n].address, slot))
  {
    AllMarksAre(captures, Key(windows[n].address, slot));
  }

  lemma {:induction false} DimmedOne(env: IoEnv, w: Watch, u: Ui, windows: seq<WindowRef>, selected: nat, n: nat,
                                     dim: string)
    requires 0 < n <= |windows| && n - 1 != selected
    requires Dimming(env, w, u, windows, selected, n - 1) && Ready(env, w)
    requires DistinctAddresses(windows)
    ensures Dimming(env, w, RingDimmed(env, u, windows[n - 1], dim), windows, selected, n)
  {
    FreshRingKey(u.captures, windows, selected, n - 1, Slot.Alpha);
    FreshRingKey(u.captures, windows, selected, n - 1, AlphaInactive);
    var added := DimmedAccounts(env, w, u, windows[n - 1], dim);
    DimmedShape(u.captures, windows, selected, n, added);
    DimmedHead(env, w, u, RingDimmed(env, u, windows[n - 1], dim), windows[n - 1], added);
  }

  /** What a ring step leaves: balanced books, and at most one more capture, for alphas only. */
  ghost predicate RingGrown(env: IoEnv, w: Watch, u: Ui, u': Ui, ref: WindowRef, added: seq<WindowCapture>) {
    && Accounts(env, w, u'.host, AllMarks(u'.captures))
    && u'.captures == u.captures + added
    && NoRestores(u.host.trace, u'.host.trace)
    && forall i :: 0 <= i < |added| ==> added[i].ref == ref && OnlyAlpha(added[i])
  }

  lemma {:induction false} DimmedHead(env: IoEnv, w: Watch, u: Ui, u': Ui, ref: WindowRef, added: seq<WindowCapture>)
    requires RingGrown(env, w, u, u', ref, added) && HeadRead(env, u) && u.captures != []
    ensures HeadRead(env, u')
  {
    ChannelsRemain(env, u.host.trace, u'.host.trace, Key(u.captures[0].ref.address, ActiveColor));
  }

  lemma {:induction false} DimmedAccounts(env: IoEnv, w: Watch, u: Ui, ref: WindowRef, dim: string)
    returns (added: seq<WindowCapture>)
    requires Accounts(env, w, u.host, AllMarks(u.captures)) && Ready(env, w)
    requires !HasKey(AllMarks(u.captures), Key(ref.address, Slot.Alpha))
    requires !HasKey(AllMarks(u.captures), Key(ref.address, AlphaInactive))
    ensures RingGrown(env, w, u, RingDimmed(env, u, ref, dim), ref, added)
  {
    var valid := env.isValid(|u.host.trace|, ref);
    var asked := u.(host := Logged(u.host, Asked(ref, valid)));
    QuietCall(env, w, u.host, AllMarks(u.captures), Asked(ref, valid));
    if valid {
      added := RingTriedKeeps(env, w, asked, ref, dim);
    } else {
      added := [];
      assert u.captures + added == u.captures;
    }
  }

  lemma {:induction false} RingTriedKeeps(env: IoEnv, w: Watch, u: Ui, ref: WindowRef, dim: string)
    returns (added: seq<WindowCapture>)
    requires Accounts(env, w, u.host, AllMarks(u.captures)) && Ready(env, w)
    requires !HasKey(AllMarks(u.captures), Key(ref.address, Slot.Alpha))
    requires !HasKey(AllMarks(u.captures), Key(ref.address, AlphaInactive))
    ensures RingGrown(env, w, u, RingTried(env, u, ref, dim), ref, added)
  {
    PairReadKeeps(env, w, u.host, AllMarks(u.captures), ref.address, Slot.Alpha, AlphaInactive);
    var p := PairRead(env, u.host, ref.address, Slot.Alpha, AlphaInactive);
    if p.first != "" && p.second != "" {
      added := RingOverriddenKeeps(env, w, u.(host := p.host), ref, p.first, p.second, dim);
    } else {
      added := [];
      assert u.captures + added == u.captures;
    }
  }

  lemma {:induction false} RingOverriddenKeeps(env: IoEnv, w: Watch, u: Ui, ref: WindowRef,
                                               first: string, second: string, dim: string)
    returns (added: seq<WindowCapture>)
    requires Accounts(env, w, u.host, AllMarks(u.captures))
    requires var k := Key(ref.address, Slot.Alpha);
             && !HasKey(AllMarks(u.captures), k)
             && BackOk(env, w, u.host.trace, Mark(k, first)) && ChannelsFresh(env, u.host.trace, k)
    requires var k := Key(ref.address, AlphaInactive);
             && !HasKey(AllMarks(u.captures), k)
             && BackOk(env, w, u.host.trace, Mark(k, second)) && ChannelsFresh(env, u.host.trace, k)
    ensures RingGrown(env, w, u, RingOverridden(env, u, ref, first, second, dim), ref, added)
  {
    var cap := NewCapture(ref).(alpha := SlotCapture(first, false), alphaInactive := SlotCapture(second, false));
    var e := AlphasApplied(env, u.host, cap, dim);
    PairWrittenKeeps(env, w, u.host, AllMarks(u.captures), ref, Slot.Alpha, AlphaInactive, first, second, dim);
    AlphaMarks(u.captures, e.cap);
    added := [e.cap];
  }

  lemma {:induction false} AlphaMarks(captures: seq<WindowCapture>, cap: WindowCapture)
    requires OnlyAlpha(cap)
    ensures AllMarks(captures + [cap])
         == AllMarks(captures) + SlotMark(cap.ref, Slot.Alpha, cap.alpha)
          + SlotMark(cap.ref, AlphaInactive, cap.alphaInactive)
  {
    assert Marks(cap) == SlotMark(cap.ref, Slot.Alpha, cap.alpha) + SlotMark(cap.ref, AlphaInactive, cap.alphaInactive);
    AllMarksSnoc(captures, cap);
  }

  lemma {:induction false} DimmedShape(captures: seq<WindowCapture>, windows: seq<WindowRef>, selected: nat, n: nat,
                                       added: seq<WindowCapture>)
    requires 0 < n <= |windows| && n - 1 != selected && Shape(captures, windows, selected, n - 1)
    requires forall i :: 0 <= i < |added| ==> added[i].ref == windows[n - 1] && OnlyAlpha(added[i])
    ensures Shape(captures + added, windows, selected, n)
  {
    ShapeMore(captures, windows, selected, n);
    assert RingMember(windows, selected, n, windows[n - 1]);
  }

  lemma {:induction false} RingKeeps(env: IoEnv, w: Watch, u: Ui, windows: seq<WindowRef>, selected: nat, n: nat,
                                     dim: string)
    requires Dimming(env, w, u, windows, selected, 0) && Ready(env, w)
    requires DistinctAddresses(windows) && n <= |windows|
    ensures Dimming(env, w, RingUpTo(env, u, windows, selected, n, dim), windows, selected, n)
    decreases n
  {
    if n > 0 {
      RingKeeps(env, w, u, windows, selected, n - 1, dim);
      VisitedKeeps(env, w, RingUpTo(env, u, windows, selected, n - 1, dim), windows, selected, n, dim);
    }
  }

  lemma {:induction false} VisitedKeeps(env: IoEnv, w: Watch, u: Ui, windows: seq<WindowRef>, selected: nat, n: nat,
                                        dim: string)
    requires 0 < n <= |windows| && Dimming(env, w, u, windows, selected, n - 1)
    requires Ready(env, w) && DistinctAddresses(windows)
    ensures Dimming(env, w, RingVisited(env, u, windows, selected, n, dim), windows, selected, n)
  {
    if n - 1 == selected {
      ShapeMore(u.captures, windows, selected, n);
    } else {
      DimmedOne(env, w, u, windows, selected, n, dim);
    }
  }

  lemma {:induction false} ShapeMore(captures: seq<WindowCapture>, windows: seq<WindowRef>, selected: nat, n: nat)
    requires n > 0 && Shape(captures, windows, selected, n - 1)
    ensures Shape(captures, windows, selected, n)
  {
    forall c | 1 <= c < |captures| ensures RingMember(windows, selected, n, captures[c].ref) {
      RingMore(windows, selected, n - 1, captures[c].ref);
    }
  }

  lemma {:induction false} RingMore(windows: seq<WindowRef>, selected: nat, n: nat, ref: WindowRef)
    requires RingMember(windows, selected, n, ref)
    ensures RingMember(windows, selected, n + 1, ref)
  {
    var j :| 0 <= j < n && j < |windows| && j != selected && ref == windows[j];
    assert j < n + 1;
  }

  // ---- steps -----------------------------------------------------------------------------

  lemma {:induction false} RestoredKeeps(env: IoEnv, cfg: Config, w: Watch, u: Ui, selected: nat, next: nat)
    requires Inv(env, cfg, w, u, selected) && Restorable(env, w)
    ensures Inv(env, cfg, w, RestoredAll(env, u), next)
    ensures RestoredAll(env, u).captures == [] && !RestoredAll(env, u).host.armed
    ensures RestoredAll(env, u).snapshot == u.snapshot && RestoredAll(env, u).degraded == u.degraded
  {
    var marks := AllMarks(u.captures);
    var h := u.host.(armed := false);
    assert Accounts(env, w, h, marks);
    PutBackKeeps(env, w, h, marks, |marks|);
    assert marks[..|marks|] == marks && marks[|marks|..] == [];
    PutBackArmed(env, h, marks);
  }

  lemma {:induction false} PutBackArmed(env: IoEnv, h: Host, marks: seq<Mark>)
    ensures PutBack(env, h, marks).armed == h.armed
  {
    if marks != [] { PutBackArmed(env, h, marks[..|marks| - 1]); }
  }

  lemma {:induction false} PulseKeeps(env: IoEnv, w: Watch, u: Ui)
    requires Accounts(env, w, u.host, AllMarks(u.captures)) && HeadRead(env, u)
    ensures var armed := env.timerOk(|u.host.trace|);
            var u' := u.(pulseDark := false, host := Logged(u.host, Timer(armed)).(armed := armed));
            Accounts(env, w, u'.host, AllMarks(u'.captures)) && HeadRead(env, u')
  {
    var timer := Timer(env.timerOk(|u.host.trace|));
    QuietCall(env, w, u.host, AllMarks(u.captures), timer);
    if u.captures != [] {
      ChannelsRemain(env, u.host.trace, u.host.trace + [timer], Key(u.captures[0].ref.address, ActiveColor));
    }
  }

  lemma {:induction false} StyleKeeps(env: IoEnv, cfg: Config, w: Watch, u: Ui, index: nat)
    requires Accounts(env, w, u.host, AllMarks(u.captures)) && Ready(env, w) && HeadRead(env, u)
    requires u.snapshot.Some? && !u.degraded && DistinctAddresses(u.snapshot.value.windows) && !u.host.armed
    requires Shape(u.captures, u.snapshot.value.windows, index, 0)
    ensures Inv(env, cfg, w, StyleApplied(env, cfg, u, u.snapshot.value.windows, index), index)
    ensures StyleApplied(env, cfg, u, u.snapshot.value.windows, index).snapshot == u.snapshot
  {
    var windows := u.snapshot.value.windows;
    match cfg.style
    case Solid =>
    case Pulse =>
      assert u.host.(armed := false) == u.host;
      PulseKeeps(env, w, u);
    case Dim => if cfg.dim.Some? { RingKeeps(env, w, u, windows, index, |windows|, cfg.dim.value); }
  }

  lemma {:induction false} HighlightedKeeps(env: IoEnv, cfg: Config, w: Watch, u: Ui, index: nat)
    requires Inv(env, cfg, w, u, index) && Ready(env, w) && u.captures == []
    ensures Inv(env, cfg, w, Highlighted(env, cfg, u, index), index)
    ensures Highlighted(env, cfg, u, index).snapshot == u.snapshot
  {
    if !u.degraded && u.snapshot.Some? && index < |u.snapshot.value.windows| {
      var ref := u.snapshot.value.windows[index];
      var valid := env.isValid(|u.host.trace|, ref);
      QuietCall(env, w, u.host, [], Asked(ref, valid));
      if valid { TriedKeeps(env, cfg, w, u.(host := Logged(u.host, Asked(ref, valid))), index); }
    }
  }

  lemma {:induction false} TriedKeeps(env: IoEnv, cfg: Config, w: Watch, u: Ui, index: nat)
    requires Inv(env, cfg, w, u, index) && Ready(env, w) && u.captures == []
    requires !u.degraded && u.snapshot.Some? && index < |u.snapshot.value.windows|
    ensures var windows := u.snapshot.value.windows;
            var t := OverrideTried(env, cfg, u, windows[index]);
            var u' := if t.done then StyleApplied(env, cfg, t.ui, windows, index) else t.ui;
            Inv(env, cfg, w, u', index) && u'.snapshot == u.snapshot
  {
    var ref := u.snapshot.value.windows[index];
    PairReadKeeps(env, w, u.host, [], ref.address, ActiveColor, InactiveColor);
    var p := PairRead(env, u.host, ref.address, ActiveColor, InactiveColor);
    if p.first != "" && p.second != "" {
      OverriddenKeeps(env, cfg, w, u.(host := p.host), ref, p.first, p.second);
      StyleKeeps(env, cfg, w, OverrideTried(env, cfg, u, ref).ui, index);
    }
  }

  lemma {:induction false} ProbedKeeps(env: IoEnv, w: Watch, h: Host, windows: seq<WindowRef>)
    requires Accounts(env, w, h, [])
    ensures Accounts(env, w, Probed(env, h, windows).host, []) && Probed(env, h, windows).host.armed == h.armed
    decreases |windows|
  {
    if windows != [] {
      var ref := windows[0];
      var valid := env.isValid(|h.trace|, ref);
      var h1 := Logged(h, Asked(ref, valid));
      QuietCall(env, w, h, [], Asked(ref, valid));
      if valid {
        QuietCall(env, w, h1, [], Got(Key(ref.address, ActiveColor), Reply(env, h1, Key(ref.address, ActiveColor))));
      } else {
        ProbedKeeps(env, w, h1, windows[1..]);
      }
    }
  }

  lemma {:induction false} StartKeeps(env: IoEnv, cfg: Config, w: Watch, u: Ui, selected: nat, snapshot: Snapshot,
                                      index: nat)
    requires Inv(env, cfg, w, u, selected) && Ready(env, w)
    requires DistinctAddresses(snapshot.windows)
    ensures Inv(env, cfg, w, SessionStarted(env, cfg, u, snapshot, index), index)
    ensures SessionStarted(env, cfg, u, snapshot, index).snapshot == Some(snapshot)
  {
    RestoredKeeps(env, cfg, w, u, selected, index);
    var u1 := RestoredAll(env, u);
    QuietCall(env, w, u1.host, [], NavBegin);
    ProbedKeeps(env, w, Logged(u1.host, NavBegin), snapshot.windows);
    var p := Probed(env, Logged(u1.host, NavBegin), snapshot.windows);
    if p.available {
      HighlightedKeeps(env, cfg, w, u1.(snapshot := Some(snapshot), degraded := false, host := p.host), index);
    }
  }

  // ---- ticks -----------------------------------------------------------------------------

  function ThrobColor(cfg: Config, u: Ui): string { if u.pulseDark then cfg.color else cfg.darker }

  /** The next tick writes to the slot, successfully. */
  predicate ThrobLands(env: IoEnv, cfg: Config, u: Ui, key: Key) {
    && u.host.armed && u.captures != [] && key.address == u.captures[0].ref.address
    && match key.slot
       case ActiveColor => WriteOk(env, u.host, key, Throb)
       case InactiveColor =>
         WriteOk(env, Written(env, u.host, Key(key.address, ActiveColor), ThrobColor(cfg, u), Throb), key, Throb)
       case _ => false
  }

  /** Where a tick may write: to a slot whose override was applied, or with a clean value. */
  predicate TickFits(env: IoEnv, cfg: Config, w: Watch, u: Ui) {
    ThrobLands(env, cfg, u, w.key) ==>
      AppliedAt(u.captures[0], w.key) || (!w.strict && (w.values ==> CleanValue(env, w, ThrobColor(cfg, u))))
  }

  lemma {:induction false} HeadMarks(captures: seq<WindowCapture>, key: Key)
    requires captures != [] && AppliedAt(captures[0], key)
    ensures HasKey(AllMarks(captures), key)
  {
    AllMarksAre(captures, key);
  }

  lemma {:induction false} TickKeeps(env: IoEnv, cfg: Config, w: Watch, u: Ui, selected: nat)
    requires Inv(env, cfg, w, u, selected) && TickFits(env, cfg, w, u)
    ensures Inv(env, cfg, w, Step(env, cfg, u, Tick), selected)
    ensures Step(env, cfg, u, Tick).snapshot == u.snapshot && Step(env, cfg, u, Tick).captures == u.captures
  {
    if u.host.armed {
      var address, marks, color := u.captures[0].ref.address, AllMarks(u.captures), ThrobColor(cfg, u);
      var a, i := Key(address, ActiveColor), Key(address, InactiveColor);
      if AppliedAt(u.captures[0], w.key) { HeadMarks(u.captures, w.key); }
      ThrobKeeps(env, w, u.host, marks, a, color);
      var h := Written(env, u.host, a, color, Throb);
      ChannelsRemain(env, u.host.trace, h.trace, a);
      FreshChannels(env, h.trace, a);
      ThrobKeeps(env, w, h, marks, i, color);
      ChannelsRemain(env, h.trace, Written(env, h, i, color, Throb).trace, a);
    }
  }

  // ---- runs ------------------------------------------------------------------------------

  /** The index of the latest start or change. */
  function Told(ops: seq<Op>): nat {
    if ops == [] then 0
    else match ops[|ops| - 1]
      case Start(_, index) => index
      case Change(index) => index
      case _ => Told(ops[..|ops| - 1])
  }

  ghost predicate DistinctStarts(ops: seq<Op>) {
    forall n :: 0 <= n < |ops| && ops[n].Start? ==> DistinctAddresses(ops[n].snapshot.windows)
  }

  ghost predicate TicksFit(env: IoEnv, cfg: Config, orig: Store, w: Watch, ops: seq<Op>) {
    forall n :: 0 <= n < |ops| && ops[n].Tick? ==> TickFits(env, cfg, w, Run(env, cfg, Fresh(orig), ops[..n]))
  }

  lemma {:induction false} FreshInv(env: IoEnv, cfg: Config, orig: Store, w: Watch)
    requires w.original == At(orig, w.key)
    ensures Inv(env, cfg, w, Fresh(orig), 0)
  {
  }

  lemma {:induction false} StepInv(env: IoEnv, cfg: Config, w: Watch, u: Ui, selected: nat, op: Op)
    requires Inv(env, cfg, w, u, selected) && Ready(env, w)
    requires op.Start? ==> DistinctAddresses(op.snapshot.windows)
    requires op.Tick? ==> TickFits(env, cfg, w, u)
    ensures Inv(env, cfg, w, Step(env, cfg, u, op), if op.Start? || op.Change? then op.index else selected)
  {
    match op
    case Start(snapshot, index) => StartKeeps(env, cfg, w, u, selected, snapshot, index);
    case Change(index) =>
      RestoredKeeps(env, cfg, w, u, selected, index);
      HighlightedKeeps(env, cfg, w, RestoredAll(env, u), index);
    case End(reason) =>
      RestoredKeeps(env, cfg, w, u, selected, selected);
      QuietCall(env, w, RestoredAll(env, u).host, [], NavEnd(reason));
    case Tick => TickKeeps(env, cfg, w, u, selected);
  }

  lemma {:induction false} RunKeeps(env: IoEnv, cfg: Config, orig: Store, w: Watch, ops: seq<Op>)
    requires w.original == At(orig, w.key) && Ready(env, w)
    requires DistinctStarts(ops) && TicksFit(env, cfg, orig, w, ops)
    ensures Inv(env, cfg, w, Run(env, cfg, Fresh(orig), ops), Told(ops))
  {
    if ops == [] {
      FreshInv(env, cfg, orig, w);
    } else {
      var front, op := ops[..|ops| - 1], ops[|ops| - 1];
      forall n | 0 <= n < |front| ensures ops[..n] == front[..n] && front[n] == ops[n] {}
      RunKeeps(env, cfg, orig, w, front);
      StepInv(env, cfg, w, Run(env, cfg, Fresh(orig), front), Told(front), op);
    }
  }

  lemma {:induction false} EndKeeps(env: IoEnv, cfg: Config, w: Watch, u: Ui, selected: nat, reason: UiEndReason)
    requires Inv(env, cfg, w, u, selected) && Restorable(env, w)
    ensures var u' := Step(env, cfg, u, End(reason));
            && u'.captures == [] && !u'.host.armed
            && (w.values ==> Clean(env, w, u'.host.trace, u'.host.store))
            && (w.books ==> !CarriesOverride(u'.host.trace, w.key))
            && (w.books && w.strict ==> !Overriding(u'.host.trace, w.key))
  {
    RestoredKeeps(env, cfg, w, u, selected, selected);
    QuietCall(env, w, RestoredAll(env, u).host, [], NavEnd(reason));
    NoMarks(w.key);
  }

  lemma {:induction false} NoMarks(key: Key)
    ensures !HasKey(AllMarks([]), key)
  {
  }

  // ---- main results ----------------------------------------------------------------------

  /** Exact restore of one slot: after a session end it holds its original value or the captured form
      of it, and "unset" only for a size that could not be read. Any number of sessions, changes and
      ticks; any failing reads, override writes and throb writes; restore writes of this slot
      succeed, its original value is stable, and no tick writes an unclean value to it while its
      override is not applied. Nothing is asked of other slots. */
  lemma {:induction false} ExactRestore(env: IoEnv, cfg: Config, orig: Store, ops: seq<Op>, reason: UiEndReason,
                                        key: Key)
    requires Stable(env.alphaOk, At(orig, key), key.slot) && RestoresHold(env, key) && DistinctStarts(ops)
    requires TicksFit(env, cfg, orig, Watch(key, At(orig, key), true, true, false), ops)
    ensures var u := Run(env, cfg, Fresh(orig), ops + [End(reason)]);
            && Clean(env, Watch(key, At(orig, key), true, true, false), u.host.trace, u.host.store)
            && !CarriesOverride(u.host.trace, key)
            && (TicksFit(env, cfg, orig, Watch(key, At(orig, key), true, true, true), ops) ==>
                  !Overriding(u.host.trace, key))
            && u.captures == [] && !u.host.armed
  {
    var all := ops + [End(reason)];
    assert all[..|ops|] == ops;
    var w, s := Watch(key, At(orig, key), true, true, false), Watch(key, At(orig, key), true, true, true);
    var u := Run(env, cfg, Fresh(orig), ops);
    RunKeeps(env, cfg, orig, w, ops);
    EndKeeps(env, cfg, w, u, Told(ops), reason);
    if TicksFit(env, cfg, orig, s, ops) {
      RunKeeps(env, cfg, orig, s, ops);
      EndKeeps(env, cfg, s, u, Told(ops), reason);
    }
  }

  /** The books about one slot: it carries an override exactly when a capture says so, and a throb
      counts as one if every tick that reached the slot found its override applied. Colours and sizes
      are overridden on the window selected last only, alphas never there. */
  ghost predicate Booked(env: IoEnv, cfg: Config, orig: Store, ops: seq<Op>, key: Key) {
    var u := Run(env, cfg, Fresh(orig), ops);
    && (CarriesOverride(u.host.trace, key) <==> exists c :: 0 <= c < |u.captures| && AppliedAt(u.captures[c], key))
    && (TicksFit(env, cfg, orig, Watch(key, At(orig, key), true, false, true), ops) ==>
          (Overriding(u.host.trace, key) <==> CarriesOverride(u.host.trace, key)))
    && (CarriesOverride(u.host.trace, key) ==>
          && u.captures != [] && u.snapshot.Some? && Told(ops) < |u.snapshot.value.windows|
          && var selected := u.snapshot.value.windows[Told(ops)].address;
             if key.slot.Alpha? || key.slot.AlphaInactive? then key.address != selected else key.address == selected)
  }

  lemma {:induction false} SlotBooked(env: IoEnv, cfg: Config, orig: Store, ops: seq<Op>, key: Key)
    requires RestoresHold(env, key) && DistinctStarts(ops)
    ensures Booked(env, cfg, orig, ops, key)
  {
    var w, s := Watch(key, At(orig, key), true, false, false), Watch(key, At(orig, key), true, false, true);
    var u := Run(env, cfg, Fresh(orig), ops);
    RunKeeps(env, cfg, orig, w, ops);
    AllMarksAre(u.captures, key);
    if TicksFit(env, cfg, orig, s, ops) { RunKeeps(env, cfg, orig, s, ops); }
    if CarriesOverride(u.host.trace, key) { AddressOf(u, Told(ops), key); }
  }

  /** Override accounting, between any two calls: the books are right about every slot whose restore
      writes succeed; no override or throb was written before both of its channels were read since
      either was last put back; a highlighted window is in range; an armed timer means a pulse
      style, a highlighted window and a session that is not degraded. */
  lemma {:induction false} OverrideAccounting(env: IoEnv, cfg: Config, orig: Store, ops: seq<Op>)
    requires DistinctStarts(ops)
    ensures forall key :: RestoresHold(env, key) ==> Booked(env, cfg, orig, ops, key)
    ensures var u := Run(env, cfg, Fresh(orig), ops);
            && WrittenAfterReads(env, u.host.trace)
            && (u.captures != [] ==> u.snapshot.Some? && Told(ops) < |u.snapshot.value.windows|)
            && (u.host.armed ==> cfg.style == Pulse && !u.degraded && u.captures != [])
  {
    forall key | RestoresHold(env, key) ensures Booked(env, cfg, orig, ops, key) {
      SlotBooked(env, cfg, orig, ops, key);
    }
    var key := Key(0, Slot.Size);
    RunKeeps(env, cfg, orig, Watch(key, At(orig, key), false, false, false), ops);
  }

  lemma {:induction false} AddressOf(u: Ui, selected: nat, key: Key)
    requires u.snapshot.Some? && DistinctAddresses(u.snapshot.value.windows)
    requires Shape(u.captures, u.snapshot.value.windows, selected, |u.snapshot.value.windows|)
    requires exists c :: 0 <= c < |u.captures| && AppliedAt(u.captures[c], key)
    ensures var a := u.snapshot.value.windows[selected].address;
            if key.slot.Alpha? || key.slot.AlphaInactive? then key.address != a else key.address == a
  {
    var c :| 0 <= c < |u.captures| && AppliedAt(u.captures[c], key);
  }
}
