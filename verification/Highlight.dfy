// `BorderHighlightUI` (src/plugin/border_highlight_ui.cpp): per-window properties of a shared store
// are read, overridden while a window is selected, and put back. `Ui` is the backend with the
// store, the pulse timer and the trace of port calls; the class performs the calls in place.
// Reads, override writes, restore writes, validity and the timer answer from oracles that get the
// number of calls made so far. Warnings are not modelled.

module Highlight {
  import opened Wrappers
  import opened Domain
  import opened Capture

  datatype Style = Solid | Pulse | Dim

  /** `darker`: the darker variant of `color`; `size`: none when the configured size is negative;
      `dim`: none when the dim strength is 1 or more. Numbers are given as they are written. */
  datatype Config = Config(style: Style, color: string, darker: string, size: Option<string>, dim: Option<string>)

  datatype Key = Key(address: nat, slot: Slot)

  type Store = map<Key, string>

  /** Why a write is made: the oracle may fail override writes and restore writes separately. */
  datatype Purpose = Override | Restore | Throb

  datatype IoCall =
    | Asked(ref: WindowRef, valid: bool)
    | Got(key: Key, reply: string)
    | Put(key: Key, value: string, purpose: Purpose, ok: bool)
    | Timer(armed: bool)
    | NavBegin
    | NavShow(ref: WindowRef)
    | NavEnd(reason: UiEndReason)

  datatype IoEnv = IoEnv(
    isValid: (nat, WindowRef) -> bool,
    readOk: (nat, Key) -> bool,
    writeOk: (nat, Key, Purpose) -> bool,
    timerOk: nat -> bool,
    alphaOk: string -> bool)

  datatype Host = Host(store: Store, trace: seq<IoCall>, armed: bool)

  datatype SlotCapture = SlotCapture(value: string, applied: bool)

  datatype WindowCapture = WindowCapture(
    ref: WindowRef, active: SlotCapture, inactive: SlotCapture, alpha: SlotCapture, alphaInactive: SlotCapture,
    sizeApplied: bool, sizeCaptured: bool, sizeValue: string)

  datatype Ui = Ui(
    snapshot: Option<Snapshot>, captures: seq<WindowCapture>, degraded: bool, pulseDark: bool, host: Host)

  const UNSET := "unset"
  const NO_SLOT := SlotCapture("", false)

  function NewCapture(ref: WindowRef): WindowCapture {
    WindowCapture(ref, NO_SLOT, NO_SLOT, NO_SLOT, NO_SLOT, false, false, "")
  }

  function At(store: Store, key: Key): string { if key in store then store[key] else "" }

  // ---- single port calls -----------------------------------------------------------------

  function Logged(h: Host, call: IoCall): Host { h.(trace := h.trace + [call]) }

  function Reply(env: IoEnv, h: Host, key: Key): string {
    if env.readOk(|h.trace|, key) then At(h.store, key) else ""
  }

  function ReadDone(env: IoEnv, h: Host, key: Key): Host { Logged(h, Got(key, Reply(env, h, key))) }

  /** What a read captures: the normalized reply, empty when the slot could not be read. */
  function Captured(env: IoEnv, h: Host, key: Key): string {
    Normalized(env.alphaOk, Reply(env, h, key), key.slot)
  }

  function WriteOk(env: IoEnv, h: Host, key: Key, purpose: Purpose): bool { env.writeOk(|h.trace|, key, purpose) }

  function Written(env: IoEnv, h: Host, key: Key, value: string, purpose: Purpose): Host {
    var ok := WriteOk(env, h, key, purpose);
    Host(if ok then h.store[key := value] else h.store, h.trace + [Put(key, value, purpose, ok)], h.armed)
  }

  // ---- restoring -------------------------------------------------------------------------

  /** A slot that carries an override, and the value that puts it back. */
  datatype Mark = Mark(key: Key, back: string)

  function SlotMark(ref: WindowRef, slot: Slot, cap: SlotCapture): seq<Mark> {
    if cap.applied then [Mark(Key(ref.address, slot), cap.value)] else []
  }

  /** What the capture of one window puts back, in order. */
  function Marks(cap: WindowCapture): seq<Mark> {
    SlotMark(cap.ref, ActiveColor, cap.active) + SlotMark(cap.ref, InactiveColor, cap.inactive)
    + SlotMark(cap.ref, Slot.Alpha, cap.alpha) + SlotMark(cap.ref, AlphaInactive, cap.alphaInactive)
    + SlotMark(cap.ref, Slot.Size, SlotCapture(if cap.sizeCaptured then cap.sizeValue else UNSET, cap.sizeApplied))
  }

  function AllMarks(captures: seq<WindowCapture>): seq<Mark> {
    if captures == [] then [] else AllMarks(captures[..|captures| - 1]) + Marks(captures[|captures| - 1])
  }

  function PutBack(env: IoEnv, h: Host, marks: seq<Mark>): Host {
    if marks == [] then h
    else
      var last := marks[|marks| - 1];
      Written(env, PutBack(env, h, marks[..|marks| - 1]), last.key, last.back, Restore)
  }

  lemma {:induction false} PutBackAppend(env: IoEnv, h: Host, a: seq<Mark>, b: seq<Mark>)
    ensures PutBack(env, h, a + b) == PutBack(env, PutBack(env, h, a), b)
    decreases |b|
  {
    if b == [] {
      assert a + b == a;
    } else {
      assert (a + b)[..|a + b| - 1] == a + b[..|b| - 1];
      PutBackAppend(env, h, a, b[..|b| - 1]);
    }
  }

  function TimerCancelled(u: Ui): Ui { u.(pulseDark := false, host := u.host.(armed := false)) }

  function RestoredAll(env: IoEnv, u: Ui): Ui {
    var u := TimerCancelled(u);
    u.(captures := [], host := PutBack(env, u.host, AllMarks(u.captures)))
  }

  // ---- highlighting ----------------------------------------------------------------------

  datatype Edit = Edit(host: Host, cap: WindowCapture)

  /** The two colour overrides, then the size override with its capture. */
  function ColorsApplied(env: IoEnv, cfg: Config, h: Host, cap: WindowCapture): Edit {
    var a, i := Key(cap.ref.address, ActiveColor), Key(cap.ref.address, InactiveColor);
    var h1 := Written(env, h, a, cfg.color, Override);
    var h2 := Written(env, h1, i, cfg.color, Override);
    Edit(h2, cap.(active := cap.active.(applied := WriteOk(env, h, a, Override)),
                     inactive := cap.inactive.(applied := WriteOk(env, h1, i, Override))))
  }

  function SizeApplied(env: IoEnv, cfg: Config, h: Host, cap: WindowCapture): Edit {
    if cfg.size.None? then Edit(h, cap)
    else
      var k := Key(cap.ref.address, Slot.Size);
      var prior := Captured(env, h, k);
      var h1 := ReadDone(env, h, k);
      var ok := WriteOk(env, h1, k, Override);
      Edit(Written(env, h1, k, cfg.size.value, Override),
              if ok && prior != "" then cap.(sizeApplied := ok, sizeCaptured := true, sizeValue := prior)
              else cap.(sizeApplied := ok))
  }

  function AlphasApplied(env: IoEnv, h: Host, cap: WindowCapture, dim: string): Edit {
    var a, i := Key(cap.ref.address, Slot.Alpha), Key(cap.ref.address, AlphaInactive);
    var h1 := Written(env, h, a, dim, Override);
    var h2 := Written(env, h1, i, dim, Override);
    Edit(h2, cap.(alpha := cap.alpha.(applied := WriteOk(env, h, a, Override)),
                     alphaInactive := cap.alphaInactive.(applied := WriteOk(env, h1, i, Override))))
  }

  datatype Pair = Pair(host: Host, first: string, second: string)

  /** Read two channels of a window; the second only when the first could be read. */
  function PairRead(env: IoEnv, h: Host, address: nat, s: Slot, t: Slot): Pair {
    var first := Captured(env, h, Key(address, s));
    var h1 := ReadDone(env, h, Key(address, s));
    if first == "" then Pair(h1, "", "")
    else Pair(ReadDone(env, h1, Key(address, t)), first, Captured(env, h1, Key(address, t)))
  }

  /** One ring window of the dim style. */
  function RingDimmed(env: IoEnv, u: Ui, ref: WindowRef, dim: string): (r: Ui)
    ensures r.snapshot == u.snapshot && r.degraded == u.degraded && r.host.armed == u.host.armed
  {
    var valid := env.isValid(|u.host.trace|, ref);
    var h := Logged(u.host, Asked(ref, valid));
    if !valid then u.(host := h) else RingTried(env, u.(host := h), ref, dim)
  }

  /** Dim only once both prior alphas were read back. */
  function RingTried(env: IoEnv, u: Ui, ref: WindowRef, dim: string): (r: Ui)
    ensures r.snapshot == u.snapshot && r.degraded == u.degraded && r.host.armed == u.host.armed
  {
    var p := PairRead(env, u.host, ref.address, Slot.Alpha, AlphaInactive);
    if p.first == "" || p.second == "" then u.(host := p.host)
    else RingOverridden(env, u.(host := p.host), ref, p.first, p.second, dim)
  }

  function RingOverridden(env: IoEnv, u: Ui, ref: WindowRef, first: string, second: string, dim: string): Ui {
    var cap := NewCapture(ref).(alpha := SlotCapture(first, false), alphaInactive := SlotCapture(second, false));
    var a := AlphasApplied(env, u.host, cap, dim);
    u.(host := a.host, captures := u.captures + [a.cap])
  }

  /** The n-th window of the ring; the selected one is skipped. */
  function RingVisited(env: IoEnv, u: Ui, windows: seq<WindowRef>, selected: nat, n: nat, dim: string): (r: Ui)
    requires 0 < n <= |windows|
    ensures r.snapshot == u.snapshot && r.degraded == u.degraded && r.host.armed == u.host.armed
  {
    if n - 1 == selected then u else RingDimmed(env, u, windows[n - 1], dim)
  }

  function RingUpTo(env: IoEnv, u: Ui, windows: seq<WindowRef>, selected: nat, n: nat, dim: string): (r: Ui)
    requires n <= |windows|
    ensures r.snapshot == u.snapshot && r.degraded == u.degraded && r.host.armed == u.host.armed
  {
    if n == 0 then u else RingVisited(env, RingUpTo(env, u, windows, selected, n - 1, dim), windows, selected, n, dim)
  }

  function StyleApplied(env: IoEnv, cfg: Config, u: Ui, windows: seq<WindowRef>, index: nat): Ui {
    match cfg.style
    case Solid => u
    case Pulse =>
      var u := TimerCancelled(u);
      var ok := env.timerOk(|u.host.trace|);
      u.(host := Logged(u.host, Timer(ok)).(armed := ok))
    case Dim => if cfg.dim.None? then u else RingUpTo(env, u, windows, index, |windows|, cfg.dim.value)
  }

  function Overridden(env: IoEnv, cfg: Config, u: Ui, cap: WindowCapture): Ui {
    var h := Logged(u.host, NavShow(cap.ref));
    var colors := ColorsApplied(env, cfg, h, cap);
    var size := SizeApplied(env, cfg, colors.host, colors.cap);
    u.(host := size.host, captures := u.captures + [size.cap])
  }

  datatype Try = Try(ui: Ui, done: bool)

  /** Override only once both prior colours were read back. */
  function OverrideTried(env: IoEnv, cfg: Config, u: Ui, ref: WindowRef): Try {
    var p := PairRead(env, u.host, ref.address, ActiveColor, InactiveColor);
    if p.first == "" || p.second == "" then Try(u.(host := p.host), false)
    else
      var cap := NewCapture(ref).(active := SlotCapture(p.first, false), inactive := SlotCapture(p.second, false));
      Try(Overridden(env, cfg, u.(host := p.host), cap), true)
  }

  function Highlighted(env: IoEnv, cfg: Config, u: Ui, index: nat): Ui {
    if u.degraded || u.snapshot.None? || index >= |u.snapshot.value.windows| then u
    else
      var windows := u.snapshot.value.windows;
      var ref := windows[index];
      var valid := env.isValid(|u.host.trace|, ref);
      var h := Logged(u.host, Asked(ref, valid));
      if !valid then u.(host := h)
      else
        var t := OverrideTried(env, cfg, u.(host := h), ref);
        if t.done then StyleApplied(env, cfg, t.ui, windows, index) else t.ui
  }

  datatype Probe = Probe(host: Host, available: bool)

  /** Ask window after window until one is valid; the interface is available iff its active colour
      can be read, or no window is valid. */
  function Probed(env: IoEnv, h: Host, windows: seq<WindowRef>): Probe
    decreases |windows|
  {
    if windows == [] then Probe(h, true)
    else
      var ref := windows[0];
      var valid := env.isValid(|h.trace|, ref);
      var h1 := Logged(h, Asked(ref, valid));
      var key := Key(ref.address, ActiveColor);
      if valid then Probe(ReadDone(env, h1, key), Reply(env, h1, key) != "")
      else Probed(env, h1, windows[1..])
  }

  // ---- the UI port and the timer ---------------------------------------------------------

  function SessionStarted(env: IoEnv, cfg: Config, u: Ui, snapshot: Snapshot, index: nat): Ui {
    var u1 := RestoredAll(env, u);
    var p := Probed(env, Logged(u1.host, NavBegin), snapshot.windows);
    var u2 := u1.(snapshot := Some(snapshot), degraded := !p.available, host := p.host);
    if !p.available then u2 else Highlighted(env, cfg, u2, index)
  }

  function SelectionChanged(env: IoEnv, cfg: Config, u: Ui, index: nat): Ui {
    Highlighted(env, cfg, RestoredAll(env, u), index)
  }

  function SessionEnded(env: IoEnv, u: Ui, reason: UiEndReason): Ui {
    var u := RestoredAll(env, u);
    u.(snapshot := None, degraded := false, host := Logged(u.host, NavEnd(reason)))
  }

  function Throbbed(env: IoEnv, cfg: Config, u: Ui): Ui {
    if cfg.style != Pulse || u.degraded || u.captures == [] then u
    else
      var dark := !u.pulseDark;
      var color := if dark then cfg.darker else cfg.color;
      var address := u.captures[0].ref.address;
      var h := Written(env, u.host, Key(address, ActiveColor), color, Throb);
      u.(pulseDark := dark, host := Written(env, h, Key(address, InactiveColor), color, Throb))
  }

  datatype Op = Start(snapshot: Snapshot, index: nat) | Change(index: nat) | End(reason: UiEndReason) | Tick

  function Step(env: IoEnv, cfg: Config, u: Ui, op: Op): Ui {
    match op
    case Start(snapshot, index) => SessionStarted(env, cfg, u, snapshot, index)
    case Change(index) => SelectionChanged(env, cfg, u, index)
    case End(reason) => SessionEnded(env, u, reason)
    case Tick => if u.host.armed then Throbbed(env, cfg, u) else u
  }

  function Fresh(store: Store): Ui { Ui(None, [], false, false, Host(store, [], false)) }

  function Run(env: IoEnv, cfg: Config, u: Ui, ops: seq<Op>): Ui {
    if ops == [] then u else Step(env, cfg, Run(env, cfg, u, ops[..|ops| - 1]), ops[|ops| - 1])
  }

  // ---- the backend itself ----------------------------------------------------------------

  class PropertyHost {
    const env: IoEnv
    var store: Store
    var trace: seq<IoCall>
    var armed: bool

    ghost function Abs(): Host
      reads this
    {
      Host(store, trace, armed)
    }

    constructor (env: IoEnv, store: Store)
      ensures this.env == env && Abs() == Host(store, [], false)
    {
      this.env, this.store, trace, armed := env, store, [], false;
    }

    method IsValid(ref: WindowRef) returns (valid: bool)
      modifies this
      ensures valid == env.isValid(|old(trace)|, ref) && Abs() == Logged(old(Abs()), Asked(ref, valid))
    {
      valid := env.isValid(|trace|, ref);
      trace := trace + [Asked(ref, valid)];
    }

    method Get(key: Key) returns (reply: string)
      modifies this
      ensures reply == Reply(env, old(Abs()), key) && Abs() == ReadDone(env, old(Abs()), key)
    {
      reply := if env.readOk(|trace|, key) then At(store, key) else "";
      trace := trace + [Got(key, reply)];
    }

    method Set(key: Key, value: string, purpose: Purpose) returns (ok: bool)
      modifies this
      ensures ok == WriteOk(env, old(Abs()), key, purpose) && Abs() == Written(env, old(Abs()), key, value, purpose)
    {
      ok := env.writeOk(|trace|, key, purpose);
      if ok { store := store[key := value]; }
      trace := trace + [Put(key, value, purpose, ok)];
    }

    method CancelTimer()
      modifies this
      ensures Abs() == old(Abs()).(armed := false)
    {
      armed := false;
    }

    method ScheduleTimer()
      modifies this
      ensures Abs() == Logged(old(Abs()), Timer(env.timerOk(|old(trace)|))).(armed := env.timerOk(|old(trace)|))
    {
      armed := env.timerOk(|trace|);
      trace := trace + [Timer(armed)];
    }

    method Navigate(call: IoCall)
      requires call.NavBegin? || call.NavShow? || call.NavEnd?
      modifies this
      ensures Abs() == Logged(old(Abs()), call)
    {
      trace := trace + [call];
    }
  }

  class BorderHighlightUI {
    const cfg: Config
    const io: PropertyHost
    var snapshot: Option<Snapshot>
    var captures: seq<WindowCapture>
    var degraded: bool
    var pulseDark: bool

    ghost function Abs(): Ui
      reads this, io
    {
      Ui(snapshot, captures, degraded, pulseDark, io.Abs())
    }

    constructor (cfg: Config, io: PropertyHost)
      ensures this.cfg == cfg && this.io == io && Abs() == Ui(None, [], false, false, io.Abs())
    {
      this.cfg, this.io := cfg, io;
      snapshot, captures, degraded, pulseDark := None, [], false, false;
    }

    method OnSessionStart(snap: Snapshot, index: nat)
      modifies this, io
      ensures Abs() == SessionStarted(io.env, cfg, old(Abs()), snap, index)
    {
      RestoreAll();
      snapshot := Some(snap);
      degraded := false;
      io.Navigate(NavBegin);
      var available := ProbeAvailable();
      if !available {
        degraded := true;
        return;
      }
      DoHighlight(index);
    }

    method OnSelectionChanged(index: nat)
      modifies this, io
      ensures Abs() == SelectionChanged(io.env, cfg, old(Abs()), index)
    {
      RestoreAll();
      DoHighlight(index);
    }

    method OnSessionEnd(reason: UiEndReason)
      modifies this, io
      ensures Abs() == SessionEnded(io.env, old(Abs()), reason)
    {
      RestoreAll();
      io.Navigate(NavEnd(reason));
      snapshot := None;
      degraded := false;
    }

    method ProbeAvailable() returns (available: bool)
      modifies io
      ensures snapshot.Some? ==>
                var p := Probed(io.env, old(io.Abs()), snapshot.value.windows);
                io.Abs() == p.host && available == p.available
      ensures snapshot.None? ==> available && io.Abs() == old(io.Abs())
    {
      if snapshot.None? { return true; }
      var windows := snapshot.value.windows;
      for i := 0 to |windows|
        invariant Probed(io.env, old(io.Abs()), windows) == Probed(io.env, io.Abs(), windows[i..])
      {
        var ref := windows[i];
        assert windows[i..][1..] == windows[i + 1..];
        var valid := io.IsValid(ref);
        if !valid { continue; }
        var reply := io.Get(Key(ref.address, ActiveColor));
        return reply != "";
      }
      return true;
    }

    method ReadSlot(address: nat, slot: Slot) returns (value: string)
      modifies io
      ensures value == Captured(io.env, old(io.Abs()), Key(address, slot))
      ensures io.Abs() == ReadDone(io.env, old(io.Abs()), Key(address, slot))
    {
      var reply := io.Get(Key(address, slot));
      return Normalized(io.env.alphaOk, reply, slot);
    }

    method ReadPair(address: nat, s: Slot, t: Slot) returns (first: string, second: string)
      modifies io
      ensures Pair(io.Abs(), first, second) == PairRead(io.env, old(io.Abs()), address, s, t)
    {
      first := ReadSlot(address, s);
      if first == "" { return "", ""; }
      second := ReadSlot(address, t);
    }

    method DoHighlight(index: nat)
      modifies this, io
      ensures Abs() == Highlighted(io.env, cfg, old(Abs()), index)
    {
      if degraded || snapshot.None? || index >= |snapshot.value.windows| { return; }
      var ref := snapshot.value.windows[index];
      var valid := io.IsValid(ref);
      if !valid { return; }
      var done := TryOverride(ref);
      if done { ApplyStyle(index); }
    }

    method TryOverride(ref: WindowRef) returns (done: bool)
      modifies this, io
      ensures Try(Abs(), done) == OverrideTried(io.env, cfg, old(Abs()), ref)
    {
      var active, inactive := ReadPair(ref.address, ActiveColor, InactiveColor);
      if active == "" || inactive == "" { return false; }
      ApplyOverrides(NewCapture(ref).(active := SlotCapture(active, false), inactive := SlotCapture(inactive, false)));
      return true;
    }

    method ApplyOverrides(prior: WindowCapture)
      modifies this, io
      ensures Abs() == Overridden(io.env, cfg, old(Abs()), prior)
    {
      var cap := prior;
      io.Navigate(NavShow(cap.ref));
      var a := io.Set(Key(cap.ref.address, ActiveColor), cfg.color, Override);
      var i := io.Set(Key(cap.ref.address, InactiveColor), cfg.color, Override);
      cap := cap.(active := cap.active.(applied := a), inactive := cap.inactive.(applied := i));
      if cfg.size.Some? {
        var value := ReadSlot(cap.ref.address, Slot.Size);
        var ok := io.Set(Key(cap.ref.address, Slot.Size), cfg.size.value, Override);
        cap := cap.(sizeApplied := ok);
        if ok && value != "" { cap := cap.(sizeCaptured := true, sizeValue := value); }
      }
      captures := captures + [cap];
    }

    method ApplyStyle(index: nat)
      requires snapshot.Some?
      modifies this, io
      ensures Abs() == StyleApplied(io.env, cfg, old(Abs()), old(snapshot).value.windows, index)
    {
      match cfg.style
      case Solid =>
      case Pulse =>
        CancelPulse();
        io.ScheduleTimer();
      case Dim => DimRing(index);
    }

    method DimRing(selected: nat)
      requires snapshot.Some?
      modifies this, io
      ensures Abs() == if cfg.dim.None? then old(Abs()) else
                         RingUpTo(io.env, old(Abs()), old(snapshot).value.windows, selected,
                                  |old(snapshot).value.windows|, cfg.dim.value)
    {
      if cfg.dim.None? { return; }
      var windows := snapshot.value.windows;
      for i := 0 to |windows|
        invariant Abs() == RingUpTo(io.env, old(Abs()), windows, selected, i, cfg.dim.value)
        invariant snapshot == old(snapshot)
      {
        if i == selected { continue; }
        DimOne(windows[i], cfg.dim.value);
      }
    }

    method DimOne(ref: WindowRef, dim: string)
      modifies this, io
      ensures Abs() == RingDimmed(io.env, old(Abs()), ref, dim)
    {
      var valid := io.IsValid(ref);
      if !valid { return; }
      var alpha, inactive := ReadPair(ref.address, Slot.Alpha, AlphaInactive);
      if alpha == "" || inactive == "" { return; }
      var a := io.Set(Key(ref.address, Slot.Alpha), dim, Override);
      var i := io.Set(Key(ref.address, AlphaInactive), dim, Override);
      var cap := NewCapture(ref).(alpha := SlotCapture(alpha, a), alphaInactive := SlotCapture(inactive, i));
      captures := captures + [cap];
    }

    method CancelPulse()
      modifies this, io
      ensures Abs() == TimerCancelled(old(Abs()))
    {
      io.CancelTimer();
      pulseDark := false;
    }

    method PulseTick()
      modifies this, io
      ensures Abs() == Throbbed(io.env, cfg, old(Abs()))
    {
      if cfg.style != Pulse || degraded { return; }
      if captures == [] { return; }
      pulseDark := !pulseDark;
      var toggled := if pulseDark then cfg.darker else cfg.color;
      var head := captures[0];
      var _ := io.Set(Key(head.ref.address, ActiveColor), toggled, Throb);
      var _ := io.Set(Key(head.ref.address, InactiveColor), toggled, Throb);
    }

    method RestoreSlot(ref: WindowRef, slot: Slot, cap: SlotCapture)
      modifies io
      ensures io.Abs() == PutBack(io.env, old(io.Abs()), SlotMark(ref, slot, cap))
    {
      if cap.applied {
        var _ := io.Set(Key(ref.address, slot), cap.value, Restore);
        ghost var none := SlotMark(ref, slot, cap)[..0];
        assert PutBack(io.env, old(io.Abs()), none) == old(io.Abs());
      }
    }

    method RestoreWindow(cap: WindowCapture)
      modifies io
      ensures io.Abs() == PutBack(io.env, old(io.Abs()), Marks(cap))
    {
      ghost var h := io.Abs();
      ghost var a := SlotMark(cap.ref, ActiveColor, cap.active);
      ghost var b := SlotMark(cap.ref, InactiveColor, cap.inactive);
      ghost var c := SlotMark(cap.ref, Slot.Alpha, cap.alpha);
      ghost var d := SlotMark(cap.ref, AlphaInactive, cap.alphaInactive);
      RestoreSlot(cap.ref, ActiveColor, cap.active);
      RestoreSlot(cap.ref, InactiveColor, cap.inactive);
      PutBackAppend(io.env, h, a, b);
      RestoreSlot(cap.ref, Slot.Alpha, cap.alpha);
      PutBackAppend(io.env, h, a + b, c);
      RestoreSlot(cap.ref, AlphaInactive, cap.alphaInactive);
      PutBackAppend(io.env, h, a + b + c, d);
      var size := SlotCapture(if cap.sizeCaptured then cap.sizeValue else UNSET, cap.sizeApplied);
      RestoreSlot(cap.ref, Slot.Size, size);
      PutBackAppend(io.env, h, a + b + c + d, SlotMark(cap.ref, Slot.Size, size));
    }

    method RestoreAll()
      modifies this, io
      ensures Abs() == RestoredAll(io.env, old(Abs()))
    {
      CancelPulse();
      ghost var h := io.Abs();
      for i := 0 to |captures|
        invariant captures == old(captures) && snapshot == old(snapshot) && degraded == old(degraded) && !pulseDark
        invariant io.Abs() == PutBack(io.env, h, AllMarks(captures[..i]))
      {
        assert captures[..i + 1][..i] == captures[..i];
        RestoreWindow(captures[i]);
        PutBackAppend(io.env, h, AllMarks(captures[..i]), Marks(captures[i]));
      }
      assert captures[..|captures|] == captures;
      captures := [];
    }
  }
}
