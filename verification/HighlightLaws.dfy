// Restore and accounting laws of the border highlight, with any pattern of failed reads and failed
// override writes. The laws are about one slot at a time, the watched one: nothing is asked of the
// values or of the writes of any other slot.

module HighlightLaws {
  import opened Blanks
  import opened Capture
  import opened Highlight

  /** What a law is about: the order of reads and writes; with `books`, also which slot carries an
      override; with `values`, also the slot's value. With `strict`, a throb counts as an override. */
  datatype Watch = Watch(key: Key, original: string, books: bool, values: bool, strict: bool)

  // ---- what a trace says -----------------------------------------------------------------

  /** The call read the slot and its value could be captured. */
  predicate Captures(env: IoEnv, call: IoCall, key: Key) {
    call.Got? && call.key == key && Normalized(env.alphaOk, call.reply, key.slot) != ""
  }

  ghost predicate Readable(env: IoEnv, t: seq<IoCall>, key: Key) {
    exists i :: 0 <= i < |t| && Captures(env, t[i], key)
  }

  /** The slot was read and its value could not be captured. */
  ghost predicate Unreadable(env: IoEnv, t: seq<IoCall>, key: Key) {
    exists i :: 0 <= i < |t| && t[i].Got? && t[i].key == key && Normalized(env.alphaOk, t[i].reply, key.slot) == ""
  }

  function Partner(slot: Slot): Slot {
    match slot
    case ActiveColor => InactiveColor
    case InactiveColor => ActiveColor
    case Alpha => AlphaInactive
    case AlphaInactive => Slot.Alpha
    case Size => Slot.Size
  }

  function PartnerKey(key: Key): Key { Key(key.address, Partner(key.slot)) }

  /** Both channels of a colour or alpha slot were read; sizes need no read. */
  ghost predicate ChannelsRead(env: IoEnv, t: seq<IoCall>, key: Key) {
    key.slot.Size? || (Readable(env, t, key) && Readable(env, t, PartnerKey(key)))
  }

  /** A write that puts the slot or its partner back. */
  predicate PutsBack(call: IoCall, key: Key) {
    call.Put? && call.purpose == Restore && (call.key == key || call.key == PartnerKey(key))
  }

  /** The slot was read since it or its partner was last put back. */
  predicate FreshlyRead(env: IoEnv, t: seq<IoCall>, key: Key) {
    if t == [] then false
    else if Captures(env, t[|t| - 1], key) then true
    else !PutsBack(t[|t| - 1], key) && FreshlyRead(env, t[..|t| - 1], key)
  }

  /** Both channels were read since either was last put back. */
  predicate ChannelsFresh(env: IoEnv, t: seq<IoCall>, key: Key) {
    key.slot.Size? || (FreshlyRead(env, t, key) && FreshlyRead(env, t, PartnerKey(key)))
  }

  /** No override or throb before both channels were read since either was last put back, and no
      restore of a slot that was never read. */
  ghost predicate WrittenAfterReads(env: IoEnv, t: seq<IoCall>) {
    forall j :: 0 <= j < |t| && t[j].Put? ==> WriteAllowed(env, t[..j], t[j].key, t[j].purpose)
  }

  ghost predicate WriteAllowed(env: IoEnv, t: seq<IoCall>, key: Key, purpose: Purpose) {
    ChannelsRead(env, t, key) && (purpose != Restore ==> ChannelsFresh(env, t, key))
  }

  /** The latest successful write of the slot, throbs aside, was an override. */
  predicate CarriesOverride(t: seq<IoCall>, key: Key) {
    if t == [] then false
    else
      var last := t[|t| - 1];
      if last.Put? && last.key == key && last.ok && last.purpose != Throb then last.purpose == Override
      else CarriesOverride(t[..|t| - 1], key)
  }

  /** The latest successful write of the slot was not a restore. */
  predicate Overriding(t: seq<IoCall>, key: Key) {
    if t == [] then false
    else
      var last := t[|t| - 1];
      if last.Put? && last.key == key && last.ok then last.purpose != Restore
      else Overriding(t[..|t| - 1], key)
  }

  /** The original value, or its captured form. */
  predicate CleanValue(env: IoEnv, w: Watch, value: string) {
    value == w.original || value == Normalized(env.alphaOk, w.original, w.key.slot)
  }

  /** A clean value, or "unset" for a size that could not be read. */
  ghost predicate Clean(env: IoEnv, w: Watch, t: seq<IoCall>, store: Store) {
    || CleanValue(env, w, At(store, w.key))
    || (w.key.slot.Size? && At(store, w.key) == UNSET && Unreadable(env, t, w.key))
  }

  predicate StableWatch(env: IoEnv, w: Watch) { Stable(env.alphaOk, w.original, w.key.slot) }

  ghost predicate RestoresHold(env: IoEnv, key: Key) { forall n :: env.writeOk(n, key, Restore) }

  /** What putting back asks of the watched slot: restore writes that succeed. */
  ghost predicate Restorable(env: IoEnv, w: Watch) {
    (w.books ==> RestoresHold(env, w.key)) && (w.values ==> w.books)
  }

  /** What reading it asks besides: a stable original value. */
  ghost predicate Ready(env: IoEnv, w: Watch) { Restorable(env, w) && (w.values ==> StableWatch(env, w)) }

  ghost predicate HasKey(marks: seq<Mark>, key: Key) { exists i :: 0 <= i < |marks| && marks[i].key == key }

  /** The mark of the watched slot puts back the captured form, or "unset" for an unreadable size. */
  ghost predicate BackOk(env: IoEnv, w: Watch, t: seq<IoCall>, mark: Mark) {
    mark.key == w.key && w.values ==>
      || (mark.back == Normalized(env.alphaOk, w.original, w.key.slot) && mark.back != "")
      || (w.key.slot.Size? && mark.back == UNSET && Unreadable(env, t, w.key))
  }

  ghost predicate DistinctKeys(marks: seq<Mark>) {
    forall i, j :: 0 <= i < j < |marks| ==> marks[i].key != marks[j].key
  }

  /** The books are balanced: the watched slot carries an override exactly when it is marked, with a
      value that puts it back, and is clean otherwise. */
  ghost predicate Accounts(env: IoEnv, w: Watch, h: Host, marks: seq<Mark>) {
    && DistinctKeys(marks)
    && (forall i :: 0 <= i < |marks| ==> BackOk(env, w, h.trace, marks[i]) && ChannelsRead(env, h.trace, marks[i].key))
    && (w.books ==> (CarriesOverride(h.trace, w.key) <==> HasKey(marks, w.key)))
    && (w.books && w.strict ==> (Overriding(h.trace, w.key) <==> HasKey(marks, w.key)))
    && (w.values ==> HasKey(marks, w.key) || Clean(env, w, h.trace, h.store))
    && WrittenAfterReads(env, h.trace)
  }

  // ---- longer traces ---------------------------------------------------------------------

  lemma {:induction false} ReadsRemain(env: IoEnv, t: seq<IoCall>, call: IoCall)
    ensures forall key :: Readable(env, t, key) ==> Readable(env, t + [call], key)
    ensures forall key :: Unreadable(env, t, key) ==> Unreadable(env, t + [call], key)
    ensures forall key :: ChannelsRead(env, t, key) ==> ChannelsRead(env, t + [call], key)
  {
    assert forall i :: 0 <= i < |t| ==> (t + [call])[i] == t[i];
  }

  lemma {:induction false} FreshIsRead(env: IoEnv, t: seq<IoCall>, key: Key)
    requires FreshlyRead(env, t, key)
    ensures Readable(env, t, key)
  {
    var front, last := t[..|t| - 1], t[|t| - 1];
    if !Captures(env, last, key) {
      FreshIsRead(env, front, key);
      ReadsRemain(env, front, last);
      assert t == front + [last];
    }
  }

  lemma {:induction false} FreshChannels(env: IoEnv, t: seq<IoCall>, key: Key)
    requires ChannelsFresh(env, t, key)
    ensures ChannelsRead(env, t, key) && ChannelsFresh(env, t, PartnerKey(key))
  {
    if !key.slot.Size? {
      FreshIsRead(env, t, key);
      FreshIsRead(env, t, PartnerKey(key));
    }
  }

  lemma {:induction false} FreshSnoc(env: IoEnv, t: seq<IoCall>, call: IoCall, key: Key)
    ensures FreshlyRead(env, t + [call], key)
       <==> Captures(env, call, key) || (!PutsBack(call, key) && FreshlyRead(env, t, key))
  {
    assert (t + [call])[..|t|] == t;
  }

  /** Only putting a channel back makes its reads stale. */
  ghost predicate NoRestores(t: seq<IoCall>, t': seq<IoCall>) {
    t <= t' && forall i :: |t| <= i < |t'| && t'[i].Put? ==> t'[i].purpose != Restore
  }

  lemma {:induction false} FreshRemains(env: IoEnv, t: seq<IoCall>, t': seq<IoCall>, key: Key)
    requires NoRestores(t, t') && FreshlyRead(env, t, key)
    ensures FreshlyRead(env, t', key)
    decreases |t'|
  {
    if |t'| == |t| {
      assert t' == t;
    } else {
      FreshRemains(env, t, t'[..|t'| - 1], key);
    }
  }

  lemma {:induction false} ChannelsRemain(env: IoEnv, t: seq<IoCall>, t': seq<IoCall>, key: Key)
    requires NoRestores(t, t') && ChannelsFresh(env, t, key)
    ensures ChannelsFresh(env, t', key)
  {
    if !key.slot.Size? {
      FreshRemains(env, t, t', key);
      FreshRemains(env, t, t', PartnerKey(key));
    }
  }

  lemma {:induction false} OverrideSnoc(t: seq<IoCall>, call: IoCall, key: Key)
    ensures CarriesOverride(t + [call], key)
         == if call.Put? && call.key == key && call.ok && call.purpose != Throb then call.purpose == Override
            else CarriesOverride(t, key)
    ensures Overriding(t + [call], key)
         == if call.Put? && call.key == key && call.ok then call.purpose != Restore else Overriding(t, key)
  {
    assert (t + [call])[..|t|] == t;
  }

  lemma {:induction false} WrittenAfterSnoc(env: IoEnv, t: seq<IoCall>, call: IoCall)
    requires WrittenAfterReads(env, t) && (call.Put? ==> WriteAllowed(env, t, call.key, call.purpose))
    ensures WrittenAfterReads(env, t + [call])
  {
    var t' := t + [call];
    forall j | 0 <= j < |t'| && t'[j].Put? ensures WriteAllowed(env, t'[..j], t'[j].key, t'[j].purpose) {
      assert t'[..j] == if j < |t| then t[..j] else t;
    }
  }

  // ---- calls that write nothing ----------------------------------------------------------

  /** What a call that leaves the watched slot alone keeps of the books. */
  lemma {:induction false} OtherCall(env: IoEnv, w: Watch, h: Host, marks: seq<Mark>, call: IoCall, h': Host)
    requires Accounts(env, w, h, marks)
    requires call.Put? ==> WriteAllowed(env, h.trace, call.key, call.purpose) && (call.key != w.key || !call.ok)
    requires h'.trace == h.trace + [call] && At(h'.store, w.key) == At(h.store, w.key)
    ensures Accounts(env, w, h', marks)
  {
    ReadsRemain(env, h.trace, call);
    WrittenAfterSnoc(env, h.trace, call);
    OverrideSnoc(h.trace, call, w.key);
  }

  lemma {:induction false} QuietCall(env: IoEnv, w: Watch, h: Host, marks: seq<Mark>, call: IoCall)
    requires Accounts(env, w, h, marks) && !call.Put?
    ensures Accounts(env, w, Logged(h, call), marks)
    ensures forall armed :: Accounts(env, w, Logged(h, call).(armed := armed), marks)
  {
    OtherCall(env, w, h, marks, call, Logged(h, call));
  }

  lemma {:induction false} UnsetIsNoSize(alphaOk: string -> bool)
    ensures Normalized(alphaOk, UNSET, Slot.Size) == ""
    ensures forall slot :: Normalized(alphaOk, "", slot) == ""
  {
    TrimKeeps(UNSET);
    assert !('0' <= UNSET[0] <= '9');
  }

  /** A read of an unmarked slot keeps the books; what it captures puts the slot back. */
  lemma {:induction false} ReadKeeps(env: IoEnv, w: Watch, h: Host, marks: seq<Mark>, key: Key)
    requires Accounts(env, w, h, marks) && Ready(env, w) && !HasKey(marks, key)
    ensures Accounts(env, w, ReadDone(env, h, key), marks)
    ensures var v, t := Captured(env, h, key), ReadDone(env, h, key).trace;
            && NoRestores(h.trace, t)
            && (v != "" ==> BackOk(env, w, t, Mark(key, v)) && FreshlyRead(env, t, key))
            && (v == "" && key.slot.Size? ==> BackOk(env, w, t, Mark(key, UNSET)))
  {
    var call := Got(key, Reply(env, h, key));
    QuietCall(env, w, h, marks, call);
    FreshSnoc(env, h.trace, call, key);
    var t := h.trace + [call];
    assert t[|h.trace|] == call;
    if key == w.key && w.values { CapturedForm(env, w, h); }
  }

  /** A read of the watched slot while it is clean captures its captured form, or nothing. */
  lemma {:induction false} CapturedForm(env: IoEnv, w: Watch, h: Host)
    requires StableWatch(env, w) && Clean(env, w, h.trace, h.store)
    ensures var v := Captured(env, h, w.key);
            v == "" || v == Normalized(env.alphaOk, w.original, w.key.slot)
  {
    UnsetIsNoSize(env.alphaOk);
  }

  // ---- writes ----------------------------------------------------------------------------

  lemma {:induction false} HasKeySnoc(marks: seq<Mark>, mark: Mark)
    ensures forall key :: HasKey(marks + [mark], key) <==> HasKey(marks, key) || key == mark.key
  {
    forall key | HasKey(marks, key) ensures HasKey(marks + [mark], key) {
      var i :| 0 <= i < |marks| && marks[i].key == key;
      assert (marks + [mark])[i].key == key;
    }
    assert (marks + [mark])[|marks|] == mark;
  }

  /** An override of an unmarked slot: marked when the write succeeded, untouched when it failed. */
  lemma {:induction false} OverrideKeeps(env: IoEnv, w: Watch, h: Host, marks: seq<Mark>, mark: Mark, value: string)
    requires Accounts(env, w, h, marks) && !HasKey(marks, mark.key)
    requires BackOk(env, w, h.trace, mark) && ChannelsFresh(env, h.trace, mark.key)
    ensures var h' := Written(env, h, mark.key, value, Override);
            Accounts(env, w, h', if WriteOk(env, h, mark.key, Override) then marks + [mark] else marks)
    ensures NoRestores(h.trace, Written(env, h, mark.key, value, Override).trace)
  {
    FreshChannels(env, h.trace, mark.key);
    var ok := WriteOk(env, h, mark.key, Override);
    var h' := Written(env, h, mark.key, value, Override);
    if ok {
      OverrideWritten(env, w, h, marks, mark, value);
    } else {
      OtherCall(env, w, h, marks, Put(mark.key, value, Override, false), h');
    }
  }

  lemma {:induction false} OverrideWritten(env: IoEnv, w: Watch, h: Host, marks: seq<Mark>, mark: Mark, value: string)
    requires Accounts(env, w, h, marks) && !HasKey(marks, mark.key) && BackOk(env, w, h.trace, mark)
    requires WriteAllowed(env, h.trace, mark.key, Override) && WriteOk(env, h, mark.key, Override)
    ensures Accounts(env, w, Written(env, h, mark.key, value, Override), marks + [mark])
  {
    var call := Put(mark.key, value, Override, true);
    ReadsRemain(env, h.trace, call);
    WrittenAfterSnoc(env, h.trace, call);
    HasKeySnoc(marks, mark);
    OverrideSnoc(h.trace, call, w.key);
    assert DistinctKeys(marks + [mark]);
  }

  /** A throb that lands on an unmarked watched slot needs a clean value. */
  ghost predicate ThrobFits(env: IoEnv, w: Watch, h: Host, marks: seq<Mark>, key: Key, value: string) {
    key == w.key && WriteOk(env, h, key, Throb) ==>
      HasKey(marks, key) || (!w.strict && (w.values ==> CleanValue(env, w, value)))
  }

  lemma {:induction false} ThrobKeeps(env: IoEnv, w: Watch, h: Host, marks: seq<Mark>, key: Key, value: string)
    requires Accounts(env, w, h, marks) && ChannelsFresh(env, h.trace, key)
    requires ThrobFits(env, w, h, marks, key, value)
    ensures Accounts(env, w, Written(env, h, key, value, Throb), marks)
    ensures NoRestores(h.trace, Written(env, h, key, value, Throb).trace)
  {
    FreshChannels(env, h.trace, key);
    var call := Put(key, value, Throb, WriteOk(env, h, key, Throb));
    if key == w.key && call.ok {
      ReadsRemain(env, h.trace, call);
      WrittenAfterSnoc(env, h.trace, call);
      OverrideSnoc(h.trace, call, key);
    } else {
      OtherCall(env, w, h, marks, call, Written(env, h, key, value, Throb));
    }
  }

  /** Putting one marked slot back takes its mark away, and cleans it if it is the watched one. */
  lemma {:induction false} RestoreKeeps(env: IoEnv, w: Watch, h: Host, marks: seq<Mark>)
    requires Accounts(env, w, h, marks) && Restorable(env, w) && marks != []
    ensures Accounts(env, w, Written(env, h, marks[0].key, marks[0].back, Restore), marks[1..])
  {
    var mark, rest := marks[0], marks[1..];
    var call := Put(mark.key, mark.back, Restore, WriteOk(env, h, mark.key, Restore));
    var h' := Written(env, h, mark.key, mark.back, Restore);
    HasKeyTail(marks);
    if mark.key == w.key {
      assert (w.books ==> call.ok) && BackOk(env, w, h.trace, mark);
      ReadsRemain(env, h.trace, call);
      WrittenAfterSnoc(env, h.trace, call);
      OverrideSnoc(h.trace, call, w.key);
    } else {
      OtherCall(env, w, h, marks, call, h');
    }
  }

  lemma {:induction false} HasKeyTail(marks: seq<Mark>)
    requires marks != [] && DistinctKeys(marks)
    ensures forall key :: HasKey(marks[1..], key) <==> HasKey(marks, key) && key != marks[0].key
  {
    forall key | HasKey(marks, key) && key != marks[0].key ensures HasKey(marks[1..], key) {
      var i :| 0 <= i < |marks| && marks[i].key == key;
      assert marks[1..][i - 1] == marks[i];
    }
    forall key | HasKey(marks[1..], key) ensures HasKey(marks, key) && key != marks[0].key {
      var i :| 0 <= i < |marks[1..]| && marks[1..][i].key == key;
      assert marks[i + 1].key == key;
    }
  }

  /** Putting everything back leaves the watched slot clean. */
  lemma {:induction false} PutBackKeeps(env: IoEnv, w: Watch, h: Host, marks: seq<Mark>, n: nat)
    requires Accounts(env, w, h, marks) && Restorable(env, w) && n <= |marks|
    ensures Accounts(env, w, PutBack(env, h, marks[..n]), marks[n..])
  {
    if n == 0 {
      assert marks[0..] == marks;
    } else {
      PutBackKeeps(env, w, h, marks, n - 1);
      assert marks[..n][..n - 1] == marks[..n - 1];
      RestoreKeeps(env, w, PutBack(env, h, marks[..n - 1]), marks[n - 1..]);
      assert marks[n - 1..][1..] == marks[n..];
    }
  }
}
