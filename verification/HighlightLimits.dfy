// Where exact restore stops: what `HighlightRuns.ExactRestore` asks of a tick is exactly what the end
// of the session needs, and a colour that is not stable is altered by two ordinary sessions.

module HighlightLimits {
  import opened Wrappers
  import opened Domain
  import opened Capture
  import opened Highlight
  import opened HighlightLaws
  import opened HighlightRuns

  // ---- ticks without both overrides ------------------------------------------------------

  lemma {:induction false} PutBackOther(env: IoEnv, h: Host, marks: seq<Mark>, key: Key)
    requires !HasKey(marks, key)
    ensures At(PutBack(env, h, marks).store, key) == At(h.store, key)
  {
    if marks != [] {
      var front := marks[..|marks| - 1];
      assert marks == front + [marks[|marks| - 1]];
      HasKeySnoc(front, marks[|marks| - 1]);
      PutBackOther(env, h, front, key);
    }
  }

  lemma {:induction false} NoSecondBorder(captures: seq<WindowCapture>, windows: seq<WindowRef>, selected: nat,
                                          key: Key)
    requires Shape(captures, windows, selected, |windows|) && IsColor(key.slot) && !AppliedAt(captures[0], key)
    ensures !exists c :: 0 <= c < |captures| && AppliedAt(captures[c], key)
  {
  }

  lemma {:induction false} Unmarked(captures: seq<WindowCapture>, windows: seq<WindowRef>, selected: nat, key: Key)
    requires Shape(captures, windows, selected, |windows|) && IsColor(key.slot) && !AppliedAt(captures[0], key)
    ensures !HasKey(AllMarks(captures), key)
  {
    AllMarksAre(captures, key);
    NoSecondBorder(captures, windows, selected, key);
  }

  /** The slot holds the throb colour after a tick that lands there. */
  lemma {:induction false} TickWrites(env: IoEnv, cfg: Config, w: Watch, u: Ui, selected: nat)
    requires Inv(env, cfg, w, u, selected) && ThrobLands(env, cfg, u, w.key)
    ensures At(Step(env, cfg, u, Tick).host.store, w.key) == ThrobColor(cfg, u)
  {
  }

  /** A tick that does not fit strands the throb colour: the session end does not touch that slot. */
  lemma {:induction false} UnappliedTickStrands(env: IoEnv, cfg: Config, w: Watch, u: Ui, selected: nat,
                                            reason: UiEndReason)
    requires Inv(env, cfg, w, u, selected) && w.values && !w.strict && !TickFits(env, cfg, w, u)
    ensures var u' := Step(env, cfg, Step(env, cfg, u, Tick), End(reason));
            At(u'.host.store, w.key) == ThrobColor(cfg, u) && !Clean(env, w, u'.host.trace, u'.host.store)
  {
    TickWrites(env, cfg, w, u, selected);
    Unmarked(u.captures, u.snapshot.value.windows, selected, w.key);
    EndSkips(env, cfg, Step(env, cfg, u, Tick), reason, w.key);
  }

  /** The end of a session leaves an unmarked slot as it is. */
  lemma {:induction false} EndSkips(env: IoEnv, cfg: Config, u: Ui, reason: UiEndReason, key: Key)
    requires !HasKey(AllMarks(u.captures), key)
    ensures At(Step(env, cfg, u, End(reason)).host.store, key) == At(u.host.store, key)
  {
    PutBackOther(env, u.host.(armed := false), AllMarks(u.captures), key);
  }

  /** A tick followed by the session end leaves a slot clean iff its override was applied, or the
      tick's write there failed, or the written colour is a clean value of the slot. */
  lemma {:induction false} TickFitsExactly(env: IoEnv, cfg: Config, w: Watch, u: Ui, selected: nat, reason: UiEndReason)
    requires Inv(env, cfg, w, u, selected) && Restorable(env, w) && w.values && !w.strict
    ensures var u' := Step(env, cfg, Step(env, cfg, u, Tick), End(reason));
            Clean(env, w, u'.host.trace, u'.host.store) <==> TickFits(env, cfg, w, u)
  {
    if TickFits(env, cfg, w, u) {
      TickKeeps(env, cfg, w, u, selected);
      EndKeeps(env, cfg, w, Step(env, cfg, u, Tick), selected, reason);
    } else {
      UnappliedTickStrands(env, cfg, w, u, selected, reason);
    }
  }

  function ValueWatch(orig: Store, key: Key): Watch { Watch(key, At(orig, key), true, true, false) }

  ghost predicate AllClean(env: IoEnv, orig: Store, u: Ui) {
    forall key :: Clean(env, ValueWatch(orig, key), u.host.trace, u.host.store)
  }

  /** For all slots at once: everything is clean after the tick and the end iff the tick fits at both
      colours of the highlighted window. */
  lemma {:induction false} TickThenEnd(env: IoEnv, cfg: Config, orig: Store, u: Ui, selected: nat, reason: UiEndReason)
    requires u.host.armed && u.captures != []
    requires forall key :: Inv(env, cfg, ValueWatch(orig, key), u, selected) && RestoresHold(env, key)
    ensures AllClean(env, orig, Step(env, cfg, Step(env, cfg, u, Tick), End(reason)))
       <==> (&& TickFits(env, cfg, ValueWatch(orig, Key(u.captures[0].ref.address, ActiveColor)), u)
             && TickFits(env, cfg, ValueWatch(orig, Key(u.captures[0].ref.address, InactiveColor)), u))
  {
    var address := u.captures[0].ref.address;
    var u' := Step(env, cfg, Step(env, cfg, u, Tick), End(reason));
    forall key ensures Clean(env, ValueWatch(orig, key), u'.host.trace, u'.host.store)
                  <==> TickFits(env, cfg, ValueWatch(orig, key), u)
    {
      TickFitsExactly(env, cfg, ValueWatch(orig, key), u, selected, reason);
    }
    assert forall key: Key :: key.address != address || !IsColor(key.slot) ==>
             TickFits(env, cfg, ValueWatch(orig, key), u);
    var a, i := Key(address, ActiveColor), Key(address, InactiveColor);
    assert Clean(env, ValueWatch(orig, a), u'.host.trace, u'.host.store)
      <==> TickFits(env, cfg, ValueWatch(orig, a), u);
    assert Clean(env, ValueWatch(orig, i), u'.host.trace, u'.host.store)
      <==> TickFits(env, cfg, ValueWatch(orig, i), u);
  }

  // ---- a run that strands a colour -------------------------------------------------------

  /** Everything works but the override of inactive colours. */
  const HALF_BROKEN := IoEnv(
    (n, ref) => true,
    (n, key) => true,
    (n: nat, key: Key, purpose: Purpose) => !key.slot.InactiveColor? || purpose != Override,
    n => true,
    s => true)

  const PULSING := Config(Pulse, "0xc1", "0xd1", None, None)
  const ONE_WINDOW := Snapshot([WindowRef(7, 1)], Global)
  const ACTIVE := Key(7, ActiveColor)
  const INACTIVE := Key(7, InactiveColor)
  const COLORED: Store := map[ACTIVE := "0xa1", INACTIVE := "0xb1"]

  lemma {:induction false} ShortHex(alphaOk: string -> bool, slot: Slot)
    requires IsColor(slot)
    ensures Normalized(alphaOk, "0xa1", slot) == "0xa1" && Normalized(alphaOk, "0xb1", slot) == "0xb1"
  {
    NoSpaceColor(alphaOk, "0xa1", slot);
    NoSpaceColor(alphaOk, "0xb1", slot);
    assert "0xa1"[2..] == "a1" && "0xb1"[2..] == "b1";
  }

  lemma {:induction false} StrandingStart()
    ensures var u := Step(HALF_BROKEN, PULSING, Fresh(COLORED), Start(ONE_WINDOW, 0));
            && u.host.armed && !u.pulseDark
            && |u.captures| == 1 && u.captures[0].ref.address == 7 && !u.captures[0].inactive.applied
  {
    var h := Fresh(COLORED).host;
    var u1 := RestoredAll(HALF_BROKEN, Fresh(COLORED));
    assert u1.host == h;
    var h1 := Logged(h, NavBegin);
    var p := Probed(HALF_BROKEN, h1, ONE_WINDOW.windows);
    assert p.available && p.host.store == COLORED;
    var h2 := Logged(p.host, Asked(WindowRef(7, 1), true));
    ShortHex(HALF_BROKEN.alphaOk, ActiveColor);
    ShortHex(HALF_BROKEN.alphaOk, InactiveColor);
    PlainPair(HALF_BROKEN, h2, 7);
  }

  lemma {:induction false} StrandingInv()
    ensures var u := Step(HALF_BROKEN, PULSING, Fresh(COLORED), Start(ONE_WINDOW, 0));
            Inv(HALF_BROKEN, PULSING, ValueWatch(COLORED, INACTIVE), u, 0)
  {
    var w := ValueWatch(COLORED, INACTIVE);
    ShortHex(HALF_BROKEN.alphaOk, InactiveColor);
    FreshInv(HALF_BROKEN, PULSING, COLORED, w);
    assert DistinctAddresses(ONE_WINDOW.windows);
    StepInv(HALF_BROKEN, PULSING, w, Fresh(COLORED), 0, Start(ONE_WINDOW, 0));
  }

  lemma {:induction false} ThreeSteps(env: IoEnv, cfg: Config, u: Ui, a: Op, b: Op, c: Op)
    ensures Run(env, cfg, u, [a, b, c]) == Step(env, cfg, Step(env, cfg, Step(env, cfg, u, a), b), c)
  {
    var three, two, one := [a, b, c], [a, b], [a];
    assert three[..2] == two && two[..1] == one;
    var none := one[..0];
    assert Run(env, cfg, u, none) == u;
    assert Run(env, cfg, u, one) == Step(env, cfg, u, a);
    assert Run(env, cfg, u, two) == Step(env, cfg, Run(env, cfg, u, one), b);
  }

  /** Such a run exists: the override of the inactive colour fails, one tick writes the throb colour
      there, and after the session the slot holds that colour, neither its original value nor its
      captured form. */
  lemma {:induction false} StrandingRun(reason: UiEndReason)
    ensures var u := Run(HALF_BROKEN, PULSING, Fresh(COLORED), [Start(ONE_WINDOW, 0), Tick, End(reason)]);
            && At(u.host.store, INACTIVE) == "0xd1"
            && At(COLORED, INACTIVE) == Normalized(HALF_BROKEN.alphaOk, "0xb1", InactiveColor) == "0xb1"
            && !Clean(HALF_BROKEN, ValueWatch(COLORED, INACTIVE), u.host.trace, u.host.store)
  {
    ThreeSteps(HALF_BROKEN, PULSING, Fresh(COLORED), Start(ONE_WINDOW, 0), Tick, End(reason));
    ShortHex(HALF_BROKEN.alphaOk, InactiveColor);
    StrandingStart();
    StrandingInv();
    StrandedEnd(Step(HALF_BROKEN, PULSING, Fresh(COLORED), Start(ONE_WINDOW, 0)), reason);
  }

  lemma {:induction false} StrandedEnd(u: Ui, reason: UiEndReason)
    requires Inv(HALF_BROKEN, PULSING, ValueWatch(COLORED, INACTIVE), u, 0)
    requires u.host.armed && !u.pulseDark
    requires |u.captures| == 1 && u.captures[0].ref.address == 7 && !u.captures[0].inactive.applied
    ensures var u' := Step(HALF_BROKEN, PULSING, Step(HALF_BROKEN, PULSING, u, Tick), End(reason));
            && At(u'.host.store, INACTIVE) == "0xd1"
            && !Clean(HALF_BROKEN, ValueWatch(COLORED, INACTIVE), u'.host.trace, u'.host.store)
  {
    ShortHex(HALF_BROKEN.alphaOk, InactiveColor);
    assert "0xd1"[2] != "0xb1"[2];
    UnappliedTickStrands(HALF_BROKEN, PULSING, ValueWatch(COLORED, INACTIVE), u, 0, reason);
  }

  // ---- values that drift -----------------------------------------------------------------

  ghost predicate ReadsGoWell(env: IoEnv) {
    (forall n, ref :: env.isValid(n, ref)) && (forall n, key :: env.readOk(n, key))
  }

  ghost predicate AllGoesWell(env: IoEnv) {
    && ReadsGoWell(env)
    && (forall n, key, purpose :: env.writeOk(n, key, purpose))
  }

  function Form(env: IoEnv, store: Store, key: Key): string { Normalized(env.alphaOk, At(store, key), key.slot) }

  /** Start of a plain session on one window: both colours captured and overridden. */
  lemma {:induction false} PlainStart(env: IoEnv, cfg: Config, u: Ui, ref: WindowRef, scope: Scope)
    requires AllGoesWell(env) && cfg.style == Solid && cfg.size.None? && u.captures == []
    requires Form(env, u.host.store, Key(ref.address, ActiveColor)) != ""
    requires Form(env, u.host.store, Key(ref.address, InactiveColor)) != ""
    ensures var a, i := Key(ref.address, ActiveColor), Key(ref.address, InactiveColor);
            var u' := Step(env, cfg, u, Start(Snapshot([ref], scope), 0));
            && AllMarks(u'.captures) == [Mark(a, Form(env, u.host.store, a)), Mark(i, Form(env, u.host.store, i))]
            && u'.host.store == u.host.store[a := cfg.color][i := cfg.color]
  {
    var a, i := Key(ref.address, ActiveColor), Key(ref.address, InactiveColor);
    UnsetIsNoSize(env.alphaOk);
    var u1 := RestoredAll(env, u);
    assert u1.host == u.host.(armed := false);
    var h1 := Logged(u1.host, NavBegin);
    var p := Probed(env, h1, [ref]);
    assert p.available && p.host.store == u.host.store;
    var u2 := u1.(snapshot := Some(Snapshot([ref], scope)), degraded := false, host := p.host);
    PlainHighlight(env, cfg, u2, ref);
  }

  lemma {:induction false} PlainHighlight(env: IoEnv, cfg: Config, u: Ui, ref: WindowRef)
    requires AllGoesWell(env) && cfg.style == Solid && cfg.size.None? && u.captures == [] && !u.degraded
    requires u.snapshot.Some? && u.snapshot.value.windows == [ref]
    requires Form(env, u.host.store, Key(ref.address, ActiveColor)) != ""
    requires Form(env, u.host.store, Key(ref.address, InactiveColor)) != ""
    ensures var a, i := Key(ref.address, ActiveColor), Key(ref.address, InactiveColor);
            var u' := Highlighted(env, cfg, u, 0);
            && AllMarks(u'.captures) == [Mark(a, Form(env, u.host.store, a)), Mark(i, Form(env, u.host.store, i))]
            && u'.host.store == u.host.store[a := cfg.color][i := cfg.color]
  {
    PlainTried(env, cfg, u.(host := Logged(u.host, Asked(ref, true))), ref);
  }

  lemma {:induction false} PlainTried(env: IoEnv, cfg: Config, u: Ui, ref: WindowRef)
    requires AllGoesWell(env) && cfg.size.None? && u.captures == []
    requires Form(env, u.host.store, Key(ref.address, ActiveColor)) != ""
    requires Form(env, u.host.store, Key(ref.address, InactiveColor)) != ""
    ensures var a, i := Key(ref.address, ActiveColor), Key(ref.address, InactiveColor);
            var t := OverrideTried(env, cfg, u, ref);
            && t.done
            && AllMarks(t.ui.captures) == [Mark(a, Form(env, u.host.store, a)), Mark(i, Form(env, u.host.store, i))]
            && t.ui.host.store == u.host.store[a := cfg.color][i := cfg.color]
  {
    var a, i := Key(ref.address, ActiveColor), Key(ref.address, InactiveColor);
    var p := PairRead(env, u.host, ref.address, ActiveColor, InactiveColor);
    PlainPair(env, u.host, ref.address);
    var cap := NewCapture(ref).(active := SlotCapture(p.first, false), inactive := SlotCapture(p.second, false));
    PlainColors(env, cfg, Logged(p.host, NavShow(ref)), cap);
    var e := ColorsApplied(env, cfg, Logged(p.host, NavShow(ref)), cap);
    BorderMarks(e.cap);
    assert [] + [e.cap] == [e.cap];
  }

  lemma {:induction false} PlainPair(env: IoEnv, h: Host, address: nat)
    requires ReadsGoWell(env) && Form(env, h.store, Key(address, ActiveColor)) != ""
    ensures var p := PairRead(env, h, address, ActiveColor, InactiveColor);
            && p.first == Form(env, h.store, Key(address, ActiveColor))
            && p.second == Form(env, h.store, Key(address, InactiveColor))
            && p.host.store == h.store
  {
  }

  lemma {:induction false} PlainColors(env: IoEnv, cfg: Config, h: Host, cap: WindowCapture)
    requires AllGoesWell(env)
    ensures var e := ColorsApplied(env, cfg, h, cap);
            var a, i := Key(cap.ref.address, ActiveColor), Key(cap.ref.address, InactiveColor);
            && e.cap == cap.(active := SlotCapture(cap.active.value, true),
                             inactive := SlotCapture(cap.inactive.value, true))
            && e.host.store == h.store[a := cfg.color][i := cfg.color]
  {
  }

  lemma {:induction false} PlainSession(env: IoEnv, cfg: Config, u: Ui, ref: WindowRef, scope: Scope,
                                        reason: UiEndReason)
    requires AllGoesWell(env) && cfg.style == Solid && cfg.size.None? && u.captures == []
    requires Form(env, u.host.store, Key(ref.address, ActiveColor)) != ""
    requires Form(env, u.host.store, Key(ref.address, InactiveColor)) != ""
    ensures var a, i := Key(ref.address, ActiveColor), Key(ref.address, InactiveColor);
            var u' := Step(env, cfg, Step(env, cfg, u, Start(Snapshot([ref], scope), 0)), End(reason));
            && u'.captures == []
            && At(u'.host.store, a) == Form(env, u.host.store, a)
            && At(u'.host.store, i) == Form(env, u.host.store, i)
  {
    var a, i := Key(ref.address, ActiveColor), Key(ref.address, InactiveColor);
    PlainStart(env, cfg, u, ref, scope);
    var u1 := Step(env, cfg, u, Start(Snapshot([ref], scope), 0));
    TwoPutBack(env, u1.host.(armed := false), Mark(a, Form(env, u.host.store, a)), Mark(i, Form(env, u.host.store, i)));
  }

  lemma {:induction false} TwoPutBack(env: IoEnv, h: Host, first: Mark, second: Mark)
    requires AllGoesWell(env) && first.key != second.key
    ensures var store := PutBack(env, h, [first, second]).store;
            At(store, first.key) == first.back && At(store, second.key) == second.back
  {
    var marks := [first, second];
    var one, none := [first], marks[..0];
    assert marks[..1] == one && one[..0] == none;
    assert PutBack(env, h, none) == h;
    assert PutBack(env, h, one) == Written(env, h, first.key, first.back, Restore);
  }

  /** A colour that is not stable (`Capture.StableExactly`: its captured form drifts) is altered by two
      ordinary sessions on its window: it ends up neither as it was nor in its captured form. */
  lemma {:induction false} UnstableColorDrifts(env: IoEnv, cfg: Config, orig: Store, ref: WindowRef, slot: Slot,
                                               scope: Scope, reason: UiEndReason)
    requires AllGoesWell(env) && cfg.style == Solid && cfg.size.None? && IsColor(slot)
    requires var k := Key(ref.address, slot);
             && Drifts(Form(env, orig, k))
             && Form(env, orig, PartnerKey(k)) != "" && !HasSpace(Form(env, orig, PartnerKey(k)))
    ensures var k := Key(ref.address, slot);
            var session := [Start(Snapshot([ref], scope), 0), End(reason)];
            var final := At(Run(env, cfg, Fresh(orig), session + session).host.store, k);
            final != At(orig, k) && final != Form(env, orig, k)
  {
    var k := Key(ref.address, slot);
    var start, end := Start(Snapshot([ref], scope), 0), End(reason);
    StableExactly(env.alphaOk, At(orig, k), slot);
    StableExactly(env.alphaOk, At(orig, PartnerKey(k)), Partner(slot));
    UnsetIsNoSize(env.alphaOk);
    var u0 := Fresh(orig);
    PlainSession(env, cfg, u0, ref, scope, reason);
    var u2 := Step(env, cfg, Step(env, cfg, u0, start), end);
    PlainSession(env, cfg, u2, ref, scope, reason);
    FourSteps(env, cfg, u0, start, end);
  }

  lemma {:induction false} FourSteps(env: IoEnv, cfg: Config, u: Ui, a: Op, b: Op)
    ensures Run(env, cfg, u, [a, b] + [a, b])
         == Step(env, cfg, Step(env, cfg, Step(env, cfg, Step(env, cfg, u, a), b), a), b)
  {
    var ops := [a, b] + [a, b];
    var three, two, one := [a, b, a], [a, b], [a];
    assert ops[..3] == three && three[..2] == two && two[..1] == one;
    var none := one[..0];
    assert Run(env, cfg, u, none) == u;
    assert Run(env, cfg, u, one) == Step(env, cfg, u, a);
    assert Run(env, cfg, u, two) == Step(env, cfg, Run(env, cfg, u, one), b);
    assert Run(env, cfg, u, three) == Step(env, cfg, Run(env, cfg, u, two), a);
  }
}
