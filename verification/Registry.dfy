// src/plugin/hypr/identity_registry.cpp: address + generation identities. A compositor window is
// an object with an address; a weak reference locks to the object exactly while it is alive.

module Registry {
  import opened Wrappers
  import opened Domain
  import opened Sequences

  type Window = nat

  /** What the candidate rules read of a window. `special`: it is on a special workspace. */
  datatype Look = Look(mapped: bool, hiddenFlag: bool, monitor: nat, workspace: nat, special: bool, appClass: string)

  datatype Desktop = Desktop(address: map<Window, nat>, alive: set<Window>, look: map<Window, Look>)

  predicate WellFormed(d: Desktop) {
    && d.alive <= d.address.Keys
    && d.alive <= d.look.Keys
    && (forall v, w :: v in d.alive && w in d.alive && d.address[v] == d.address[w] ==> v == w)
  }

  datatype Entry = Entry(ref: WindowRef, nextGeneration: nat, seqNo: nat, closed: bool, window: Option<Window>)

  datatype State = State(byAddress: map<nat, Entry>, seqCounter: nat)

  const NEW_ENTRY := Entry(WindowRef(0, 0), 1, 0, false, None)

  function Lock(d: Desktop, weak: Option<Window>): Option<Window> {
    if weak.Some? && weak.value in d.alive then weak else None
  }

  // ---- operations ------------------------------------------------------------------------

  function EntryAt(r: State, address: nat): Entry {
    if address in r.byAddress then r.byAddress[address] else NEW_ENTRY
  }

  /** The identity at this address already belongs to the live window `w`. */
  predicate Settled(r: State, d: Desktop, address: nat, w: Window) {
    var e := EntryAt(r, address);
    e.ref.address == address && !e.closed && Lock(d, e.window) == Some(w)
  }

  function Registered(r: State, d: Desktop, w: Window): State
    requires w in d.alive && w in d.address
  {
    var a := d.address[w];
    var e := EntryAt(r, a);
    if Settled(r, d, a, w) then r.(byAddress := r.byAddress[a := e])
    else State(r.byAddress[a := Entry(WindowRef(a, e.nextGeneration), e.nextGeneration + 1,
                                      r.seqCounter + 1, false, Some(w))],
               r.seqCounter + 1)
  }

  function Resolve(r: State, d: Desktop, ref: WindowRef): Option<Window> {
    if ref.address !in r.byAddress then None
    else
      var e := r.byAddress[ref.address];
      if e.closed || e.ref.generation != ref.generation then None else Lock(d, e.window)
  }

  predicate Dead(d: Desktop, e: Entry) {
    e.closed && Lock(d, e.window).None?
  }

  function PrunedClosed(r: State, d: Desktop): State {
    r.(byAddress := map a | a in r.byAddress && !Dead(d, r.byAddress[a]) :: r.byAddress[a])
  }

  /** The ref of the open entry at the address of `w`, whichever window it was handed out for. */
  function LiveRefOf(r: State, d: Desktop, w: Window): Option<WindowRef>
    requires w in d.address
  {
    if d.address[w] !in r.byAddress || r.byAddress[d.address[w]].closed then None
    else Some(r.byAddress[d.address[w]].ref)
  }

  function ClosedAt(r: State, address: nat): State {
    if address in r.byAddress then r.(byAddress := r.byAddress[address := r.byAddress[address].(closed := true)]) else r
  }

  function WindowClosed(r: State, d: Desktop, w: Window): State
    requires w in d.address
  {
    PrunedClosed(ClosedAt(r, d.address[w]), d)
  }

  /** The refs of the entries that are not closed, latest registration first. */
  ghost predicate NewestFirst(r: State, refs: seq<WindowRef>) {
    && (forall i :: 0 <= i < |refs| ==>
          && refs[i].address in r.byAddress
          && !r.byAddress[refs[i].address].closed
          && r.byAddress[refs[i].address].ref == refs[i])
    && (forall i, j :: 0 <= i < j < |refs| ==>
          r.byAddress[refs[i].address].seqNo > r.byAddress[refs[j].address].seqNo)
    && (forall a :: a in r.byAddress && !r.byAddress[a].closed ==> r.byAddress[a].ref in refs)
  }

  /** Facts about the stored entries alone. */
  ghost predicate Sound(r: State, d: Desktop) {
    && (forall a :: a in r.byAddress ==>
          var e := r.byAddress[a];
          && e.ref.address == a && 1 <= e.ref.generation < e.nextGeneration
          && 1 <= e.seqNo <= r.seqCounter
          && e.window.Some? && e.window.value in d.address && d.address[e.window.value] == a)
    && (forall a, b :: a in r.byAddress && b in r.byAddress && r.byAddress[a].seqNo == r.byAddress[b].seqNo ==> a == b)
  }

  lemma {:induction false} RegisteredSound(r: State, d: Desktop, w: Window)
    requires WellFormed(d) && Sound(r, d) && w in d.alive
    ensures Sound(Registered(r, d, w), d)
  {
    var a, r' := d.address[w], Registered(r, d, w);
    forall b | b in r'.byAddress && b != a ensures b in r.byAddress && r'.byAddress[b] == r.byAddress[b] {}
  }

  /** A ref that resolves to `w` is the one found for `w`. The ref found for a live window resolves to
      it exactly if that window was registered; it never resolves to another window. */
  lemma {:induction false} LiveRefResolves(r: State, d: Desktop, w: Window, ref: WindowRef)
    requires WellFormed(d) && Sound(r, d) && w in d.alive
    ensures Resolve(r, d, ref) == Some(w) ==> LiveRefOf(r, d, w) == Some(ref)
    ensures LiveRefOf(r, d, w) == Some(ref) ==>
              Resolve(r, d, ref) == if r.byAddress[d.address[w]].window == Some(w) then Some(w) else None
  {
    if LiveRefOf(r, d, w) == Some(ref) {
      var v := r.byAddress[d.address[w]].window.value;
      assert d.address[v] == d.address[w];
    }
  }

  /** Erasing dead entries changes no answer. */
  lemma {:induction false} PruneIsInvisible(r: State, d: Desktop, ref: WindowRef)
    ensures Resolve(PrunedClosed(r, d), d, ref) == Resolve(r, d, ref)
  {
    if ref.address in r.byAddress && !Dead(d, r.byAddress[ref.address]) {
      assert PrunedClosed(r, d).byAddress[ref.address] == r.byAddress[ref.address];
    }
  }

  /** A registration that changes anything leads the newest-first list; the ref that the address had
      leaves it, and the others keep their order. */
  lemma {:induction false} LatestRegistrationLeads(r: State, d: Desktop, w: Window, before: seq<WindowRef>,
                                                   after: seq<WindowRef>)
    requires WellFormed(d) && Sound(r, d) && w in d.alive && !Settled(r, d, d.address[w], w)
    requires NewestFirst(r, before) && NewestFirst(Registered(r, d, w), after)
    ensures var a := d.address[w];
            after == [EntryAt(Registered(r, d, w), a).ref] + Without(before, EntryAt(r, a).ref)
  {
    var a, r' := d.address[w], Registered(r, d, w);
    var rest := Without(before, EntryAt(r, a).ref);
    WithoutDescends(r, before, EntryAt(r, a).ref);
    forall ref | ref in rest ensures OpenRef(r, ref) && ref.address != a {
      assert ref in before;
    }
    LedNewest(r, r', a, before, rest);
    NewestFirstUnique(r', after, [EntryAt(r', a).ref] + rest);
  }

  /** The refs stand in descending order of their registration. */
  ghost predicate LatestFirst(r: State, refs: seq<WindowRef>) {
    forall i, j :: 0 <= i < j < |refs| ==> EntryAt(r, refs[i].address).seqNo > EntryAt(r, refs[j].address).seqNo
  }

  lemma {:induction false} WithoutDescends(r: State, refs: seq<WindowRef>, x: WindowRef)
    requires LatestFirst(r, refs)
    ensures LatestFirst(r, Without(refs, x))
  {
    if refs != [] {
      var front, last := refs[..|refs| - 1], refs[|refs| - 1];
      WithoutDescends(r, front, x);
      var s := Without(front, x);
      forall i | 0 <= i < |s| ensures EntryAt(r, s[i].address).seqNo > EntryAt(r, last.address).seqNo {
        assert s[i] in front;
        var m :| 0 <= m < |front| && front[m] == s[i];
        assert refs[m] == front[m];
      }
      DescendsSnoc(r, s, last);
    }
  }

  lemma {:induction false} DescendsSnoc(r: State, s: seq<WindowRef>, last: WindowRef)
    requires LatestFirst(r, s)
    requires forall i :: 0 <= i < |s| ==> EntryAt(r, s[i].address).seqNo > EntryAt(r, last.address).seqNo
    ensures LatestFirst(r, s + [last])
  {
  }

  lemma {:induction false} LedNewest(r: State, r': State, a: nat, before: seq<WindowRef>, rest: seq<WindowRef>)
    requires NewestFirst(r, before) && rest == Without(before, EntryAt(r, a).ref) && a in r'.byAddress
    requires LatestFirst(r, rest)
    requires forall ref :: ref in rest ==> OpenRef(r, ref) && ref.address != a
    requires forall b :: b != a ==> (b in r'.byAddress <==> b in r.byAddress)
    requires forall b :: b != a && b in r.byAddress ==>
               r'.byAddress[b] == r.byAddress[b] && r'.byAddress[a].seqNo > r.byAddress[b].seqNo
               && r.byAddress[b].ref != EntryAt(r, a).ref
    requires !r'.byAddress[a].closed && r'.byAddress[a].ref.address == a
    ensures NewestFirst(r', [r'.byAddress[a].ref] + rest)
  {
    forall i | 0 <= i < |rest|
      ensures EntryAt(r', rest[i].address) == EntryAt(r, rest[i].address) && OpenRef(r', rest[i])
    {
      assert rest[i] in rest;
    }
    LedOrdered(r', r'.byAddress[a].ref, rest);
    LedCovers(r, r', a, before, rest);
  }

  predicate OpenRef(r: State, ref: WindowRef) {
    ref.address in r.byAddress && !r.byAddress[ref.address].closed && r.byAddress[ref.address].ref == ref
  }

  lemma {:induction false} LedOrdered(r: State, head: WindowRef, rest: seq<WindowRef>)
    requires OpenRef(r, head) && LatestFirst(r, rest)
    requires forall i :: 0 <= i < |rest| ==>
               OpenRef(r, rest[i]) && EntryAt(r, head.address).seqNo > EntryAt(r, rest[i].address).seqNo
    ensures var led := [head] + rest;
            && (forall i :: 0 <= i < |led| ==> OpenRef(r, led[i]))
            && forall i, j :: 0 <= i < j < |led| ==>
                 r.byAddress[led[i].address].seqNo > r.byAddress[led[j].address].seqNo
  {
    var led := [head] + rest;
    assert led[0] == head && forall i :: 0 < i < |led| ==> led[i] == rest[i - 1];
  }

  lemma {:induction false} LedCovers(r: State, r': State, a: nat, before: seq<WindowRef>, rest: seq<WindowRef>)
    requires NewestFirst(r, before) && rest == Without(before, EntryAt(r, a).ref) && a in r'.byAddress
    requires forall b :: b != a ==> (b in r'.byAddress <==> b in r.byAddress)
    requires forall b :: b != a && b in r.byAddress ==>
               r'.byAddress[b] == r.byAddress[b] && r.byAddress[b].ref != EntryAt(r, a).ref
    ensures forall b :: b in r'.byAddress && !r'.byAddress[b].closed ==>
              r'.byAddress[b].ref in [r'.byAddress[a].ref] + rest
  {
    forall b | b in r'.byAddress && !r'.byAddress[b].closed && b != a ensures r'.byAddress[b].ref in rest {
      assert r.byAddress[b].ref in before;
    }
  }

  /** Insertion into a list sorted by descending sequence number (the comparator of the sort). */
  function InsertNewest(tmp: seq<(nat, WindowRef)>, e: (nat, WindowRef)): seq<(nat, WindowRef)> {
    if tmp == [] || e.0 > tmp[0].0 then [e] + tmp else [tmp[0]] + InsertNewest(tmp[1..], e)
  }

  function SortNewest(tmp: seq<(nat, WindowRef)>): seq<(nat, WindowRef)> {
    if tmp == [] then [] else InsertNewest(SortNewest(tmp[..|tmp| - 1]), tmp[|tmp| - 1])
  }

  ghost predicate Descending(tmp: seq<(nat, WindowRef)>) {
    forall i, j :: 0 <= i < j < |tmp| ==> tmp[i].0 > tmp[j].0
  }

  lemma {:induction false} InsertNewestSorts(tmp: seq<(nat, WindowRef)>, e: (nat, WindowRef))
    requires Descending(tmp) && forall i :: 0 <= i < |tmp| ==> tmp[i].0 != e.0
    ensures Descending(InsertNewest(tmp, e))
    ensures forall x :: x in InsertNewest(tmp, e) <==> x in tmp || x == e
  {
    if tmp != [] && e.0 <= tmp[0].0 {
      InsertNewestSorts(tmp[1..], e);
      var r := InsertNewest(tmp[1..], e);
      forall k | 0 <= k < |r| ensures tmp[0].0 > r[k].0 { assert r[k] in r; }
    }
  }

  lemma {:induction false} SortNewestSorts(tmp: seq<(nat, WindowRef)>)
    requires forall i, j :: 0 <= i < j < |tmp| ==> tmp[i].0 != tmp[j].0
    ensures Descending(SortNewest(tmp))
    ensures forall x :: x in SortNewest(tmp) <==> x in tmp
  {
    if tmp != [] {
      var front, last := tmp[..|tmp| - 1], tmp[|tmp| - 1];
      SortNewestSorts(front);
      var s := SortNewest(front);
      forall k | 0 <= k < |s| ensures s[k].0 != last.0 { assert s[k] in front; }
      InsertNewestSorts(s, last);
    }
  }

  lemma {:induction false} DescendingTail(a: seq<(nat, WindowRef)>)
    requires Descending(a) && a != []
    ensures Descending(a[1..])
    ensures forall x :: x in a[1..] <==> x in a && x != a[0]
    ensures forall x :: x in a ==> x.0 <= a[0].0
  {
  }

  /** Two lists in strictly descending order with the same elements are the same list. */
  lemma {:induction false} DescendingUnique(a: seq<(nat, WindowRef)>, b: seq<(nat, WindowRef)>)
    requires Descending(a) && Descending(b) && forall x :: x in a <==> x in b
    ensures a == b
  {
    if a == [] {
      if b != [] { FirstIn(b); }
    } else {
      assert a[0] in b && b != [] && b[0] in a;
      DescendingTail(a);
      DescendingTail(b);
      DescendingUnique(a[1..], b[1..]);
      assert a == [a[0]] + a[1..] && b == [b[0]] + b[1..];
    }
  }

  /** The newest-first list is determined by the entries, so no iteration order can show in it. */
  lemma {:induction false} NewestFirstUnique(r: State, a: seq<WindowRef>, b: seq<WindowRef>)
    requires NewestFirst(r, a) && NewestFirst(r, b)
    ensures a == b
  {
    var x, y := Keyed(r, a), Keyed(r, b);
    KeyedSame(r, a, b);
    KeyedSame(r, b, a);
    DescendingUnique(x, y);
    assert forall i :: 0 <= i < |a| ==> a[i] == x[i].1 == y[i].1 == b[i];
  }

  ghost function Keyed(r: State, a: seq<WindowRef>): (s: seq<(nat, WindowRef)>)
    requires NewestFirst(r, a)
    ensures |s| == |a| && forall i :: 0 <= i < |a| ==> s[i] == (r.byAddress[a[i].address].seqNo, a[i])
  {
    seq(|a|, i requires 0 <= i < |a| => (r.byAddress[a[i].address].seqNo, a[i]))
  }

  lemma {:induction false} KeyedSame(r: State, a: seq<WindowRef>, b: seq<WindowRef>)
    requires NewestFirst(r, a) && NewestFirst(r, b)
    ensures forall e :: e in Keyed(r, a) ==> e in Keyed(r, b)
  {
    forall i | 0 <= i < |a| ensures Keyed(r, a)[i] in Keyed(r, b) {
      assert a[i] in b;
      var j :| 0 <= j < |b| && b[j] == a[i];
      assert Keyed(r, b)[j] == Keyed(r, a)[i];
    }
  }

  // ---- the registry itself ---------------------------------------------------------------

  class WindowIdentityRegistry {
    var byAddress: map<nat, Entry>
    var seqCounter: nat

    ghost function Abs(): State
      reads this
    {
      State(byAddress, seqCounter)
    }

    constructor ()
      ensures Abs() == State(map[], 0)
    {
      byAddress, seqCounter := map[], 0;
    }

    method RegisterWindow(d: Desktop, w: Window) returns (ref: WindowRef)
      requires w in d.alive && w in d.address
      modifies this
      ensures Abs() == Registered(old(Abs()), d, w)
      ensures d.address[w] in byAddress && ref == byAddress[d.address[w]].ref
    {
      var addr := d.address[w];
      if addr !in byAddress { byAddress := byAddress[addr := NEW_ENTRY]; }
      var entry := byAddress[addr];
      if entry.ref.address == addr && !entry.closed && Lock(d, entry.window) == Some(w) {
        return entry.ref;
      }
      seqCounter := seqCounter + 1;
      ref := WindowRef(addr, entry.nextGeneration);
      byAddress := byAddress[addr := Entry(ref, entry.nextGeneration + 1, seqCounter, false, Some(w))];
    }

    method ResolveRef(d: Desktop, ref: WindowRef) returns (w: Option<Window>)
      ensures w == Resolve(Abs(), d, ref)
    {
      if ref.address !in byAddress { return None; }
      var entry := byAddress[ref.address];
      if entry.closed || entry.ref.generation != ref.generation { return None; }
      return Lock(d, entry.window);
    }

    method LiveRef(d: Desktop, w: Window) returns (ref: Option<WindowRef>)
      requires w in d.address
      ensures ref == LiveRefOf(Abs(), d, w)
    {
      var addr := d.address[w];
      if addr !in byAddress || byAddress[addr].closed { return None; }
      return Some(byAddress[addr].ref);
    }

    method OnWindowClose(d: Desktop, w: Window)
      requires w in d.address
      modifies this
      ensures Abs() == WindowClosed(old(Abs()), d, w)
    {
      var addr := d.address[w];
      if addr in byAddress { byAddress := byAddress[addr := byAddress[addr].(closed := true)]; }
      PruneClosed(d);
    }

    method PruneClosed(d: Desktop)
      modifies this
      ensures Abs() == PrunedClosed(old(Abs()), d)
    {
      var left := byAddress.Keys;
      while left != {}
        invariant left <= byAddress.Keys <= old(byAddress).Keys
        invariant seqCounter == old(seqCounter)
        invariant forall a :: a in byAddress ==> byAddress[a] == old(byAddress)[a]
        invariant forall a :: a in old(byAddress) && a !in left ==> (a in byAddress <==> !Dead(d, old(byAddress)[a]))
      {
        var a :| a in left;
        left := left - {a};
        if byAddress[a].closed && Lock(d, byAddress[a].window).None? { byAddress := byAddress - {a}; }
      }
    }

    /** The iteration order of the map is arbitrary; the result does not depend on it. */
    method LiveRefsNewestFirst(ghost d: Desktop) returns (out: seq<WindowRef>)
      requires Sound(Abs(), d)
      ensures NewestFirst(Abs(), out)
    {
      var tmp: seq<(nat, WindowRef)> := [];
      var left := byAddress.Keys;
      while left != {}
        invariant left <= byAddress.Keys
        invariant Collected(Abs(), byAddress.Keys - left, tmp)
      {
        var a :| a in left;
        left := left - {a};
        if !byAddress[a].closed { tmp := tmp + [(byAddress[a].seqNo, byAddress[a].ref)]; }
      }
      var sorted := SortNewest(tmp);
      out := [];
      for i := 0 to |sorted|
        invariant |out| == i && forall k :: 0 <= k < i ==> out[k] == sorted[k].1
      {
        out := out + [sorted[i].1];
      }
      CollectedSorted(Abs(), d, tmp, out);
    }
  }

  /** The pairs (sequence number, ref) of the open entries among `done`, each once. */
  ghost predicate Collected(r: State, done: set<nat>, tmp: seq<(nat, WindowRef)>) {
    && (forall i :: 0 <= i < |tmp| ==>
          && tmp[i].1.address in done && tmp[i].1.address in r.byAddress
          && !r.byAddress[tmp[i].1.address].closed
          && tmp[i] == (r.byAddress[tmp[i].1.address].seqNo, r.byAddress[tmp[i].1.address].ref))
    && (forall i, j :: 0 <= i < j < |tmp| ==> tmp[i].1.address != tmp[j].1.address)
    && (forall a :: a in done && a in r.byAddress && !r.byAddress[a].closed ==>
          (r.byAddress[a].seqNo, r.byAddress[a].ref) in tmp)
  }

  lemma {:induction false} CollectedSorted(r: State, d: Desktop, tmp: seq<(nat, WindowRef)>, out: seq<WindowRef>)
    requires Sound(r, d) && Collected(r, r.byAddress.Keys, tmp)
    requires var sorted := SortNewest(tmp);
             |out| == |sorted| && forall k :: 0 <= k < |out| ==> out[k] == sorted[k].1
    ensures NewestFirst(r, out)
  {
    var sorted := SortNewest(tmp);
    assert forall i, j :: 0 <= i < j < |tmp| ==> tmp[i].0 != tmp[j].0;
    SortNewestSorts(tmp);
    assert forall i :: 0 <= i < |sorted| ==> sorted[i] in tmp;
    forall a | a in r.byAddress && !r.byAddress[a].closed ensures r.byAddress[a].ref in out {
      assert (r.byAddress[a].seqNo, r.byAddress[a].ref) in sorted;
      var k :| 0 <= k < |sorted| && sorted[k] == (r.byAddress[a].seqNo, r.byAddress[a].ref);
      assert out[k] == r.byAddress[a].ref;
    }
  }
}

module Identity {
  import opened Wrappers
  import opened Domain
  import opened Registry

  /** A ref that was handed out for a window. */
  datatype Issue = Issue(ref: WindowRef, window: Window)

  /** `issued`: the refs handed out at addresses whose entry has not been erased since. */
  datatype World = World(desk: Desktop, reg: State, issued: set<Issue>)

  datatype Event =
    | Open(w: Window, address: nat, look: Look)   // a new window object is allocated
    | See(w: Window)                              // the plugin registers a live window
    | Close(w: Window)                            // the close event of a window that is still alive
    | Die(w: Window)                              // the object is destroyed
    | Change(w: Window, look: Look)               // a live window is mapped, hidden, moved, renamed
    | Prune

  function Issued(world: World, reg: State): set<Issue> {
    set i | i in world.issued && i.ref.address in reg.byAddress
  }

  function Step(world: World, e: Event): World {
    var d := world.desk;
    match e
    case Open(w, address, look) =>
      if w in d.address || exists v :: v in d.alive && v in d.address && d.address[v] == address then world
      else world.(desk := Desktop(d.address[w := address], d.alive + {w}, d.look[w := look]))
    case See(w) =>
      if w !in d.alive || w !in d.address then world
      else
        var reg := Registered(world.reg, d, w);
        world.(reg := reg, issued := world.issued + {Issue(EntryAt(reg, d.address[w]).ref, w)})
    case Close(w) =>
      if w !in d.alive || w !in d.address then world
      else
        var reg := WindowClosed(world.reg, d, w);
        world.(reg := reg, issued := Issued(world, reg))
    case Die(w) => world.(desk := d.(alive := d.alive - {w}))
    case Change(w, look) => if w in d.alive then world.(desk := d.(look := d.look[w := look])) else world
    case Prune =>
      var reg := PrunedClosed(world.reg, d);
      world.(reg := reg, issued := Issued(world, reg))
  }

  function Run(world: World, es: seq<Event>): World {
    if es == [] then world else Step(Run(world, es[..|es| - 1]), es[|es| - 1])
  }

  const START := World(Desktop(map[], {}, map[]), State(map[], 0), {})

  ghost predicate IssuedSound(world: World) {
    && (forall i, j :: i in world.issued && j in world.issued && i.ref == j.ref ==> i.window == j.window)
    && forall i :: i in world.issued ==>
      && i.ref.address in world.reg.byAddress
      && i.window in world.desk.address && world.desk.address[i.window] == i.ref.address
      && var e := world.reg.byAddress[i.ref.address];
         i.ref.generation <= e.ref.generation && (i.ref == e.ref ==> e.window == Some(i.window))
  }

  ghost predicate Inv(world: World) {
    WellFormed(world.desk) && Sound(world.reg, world.desk) && IssuedSound(world)
  }

  lemma {:induction false} SeeKeeps(world: World, w: Window)
    requires Inv(world) && w in world.desk.alive
    ensures Inv(Step(world, See(w)))
  {
    RegisteredSound(world.reg, world.desk, w);
    SeeIssues(world, w, Registered(world.reg, world.desk, w));
  }

  /** A registration keeps the other entries; at the address of `w` the ref stays, or it is newer than
      every ref handed out there before. */
  lemma {:induction false} SeeIssues(world: World, w: Window, reg: State)
    requires Inv(world) && w in world.desk.alive && reg == Registered(world.reg, world.desk, w)
    ensures var issue := Issue(EntryAt(reg, world.desk.address[w]).ref, w);
            IssuedSound(world.(reg := reg, issued := world.issued + {issue}))
  {
    var a := world.desk.address[w];
    var issue := Issue(EntryAt(reg, a).ref, w);
    forall i | i in world.issued && i.ref == issue.ref ensures i.window == w {}
  }

  lemma {:induction false} PruneKeeps(world: World, reg: State)
    requires Inv(world) && Sound(reg, world.desk)
    requires forall a :: a in reg.byAddress ==>
               && a in world.reg.byAddress
               && reg.byAddress[a].ref == world.reg.byAddress[a].ref
               && reg.byAddress[a].window == world.reg.byAddress[a].window
    ensures Inv(world.(reg := reg, issued := Issued(world, reg)))
  {
  }

  lemma {:induction false} CloseKeeps(world: World, w: Window)
    requires Inv(world)
    ensures Inv(Step(world, Close(w)))
  {
    if w in world.desk.alive { PruneKeeps(world, WindowClosed(world.reg, world.desk, w)); }
  }

  lemma {:induction false} OpenKeeps(world: World, w: Window, address: nat, look: Look)
    requires Inv(world)
    ensures Inv(Step(world, Open(w, address, look)))
  {
  }

  lemma {:induction false} ChangeKeeps(world: World, w: Window, look: Look)
    requires Inv(world)
    ensures Inv(Step(world, Change(w, look)))
  {
  }

  lemma {:induction false} DieKeeps(world: World, w: Window)
    requires Inv(world)
    ensures Inv(Step(world, Die(w)))
  {
  }

  lemma {:induction false} StepKeeps(world: World, e: Event)
    requires Inv(world)
    ensures Inv(Step(world, e))
  {
    match e
    case Open(w, address, look) => OpenKeeps(world, w, address, look);
    case See(w) => if w in world.desk.alive { SeeKeeps(world, w); }
    case Close(w) => CloseKeeps(world, w);
    case Die(w) => DieKeeps(world, w);
    case Change(w, look) => ChangeKeeps(world, w, look);
    case Prune => PruneKeeps(world, PrunedClosed(world.reg, world.desk));
  }

  lemma {:induction false} RunKeeps(es: seq<Event>)
    ensures Inv(Run(START, es))
  {
    if es != [] {
      RunKeeps(es[..|es| - 1]);
      StepKeeps(Run(START, es[..|es| - 1]), es[|es| - 1]);
    }
  }

  // ---- main results ----------------------------------------------------------------------

  /** While an address's entry has not been erased: a ref handed out there resolves to the window it
      was handed out for or to nothing, never to a later window; one ref never stands for two
      windows; and what a later window gets there has a strictly greater generation. */
  lemma {:induction false} RefsNeverChangeHands(es: seq<Event>, i: Issue)
    requires i in Run(START, es).issued
    ensures var world := Run(START, es);
            && WellFormed(world.desk)
            && (Resolve(world.reg, world.desk, i.ref).Some? ==> Resolve(world.reg, world.desk, i.ref).value == i.window)
            && (forall j :: j in world.issued && j.ref == i.ref ==> j.window == i.window)
            && (forall w :: w in world.desk.alive && w != i.window && world.desk.address[w] == i.ref.address ==>
                  EntryAt(Registered(world.reg, world.desk, w), i.ref.address).ref.generation > i.ref.generation)
  {
    RunKeeps(es);
  }

  ghost predicate Holds(world: World, w: Window, ref: WindowRef) {
    && w in world.desk.alive && w in world.desk.address
    && world.desk.address[w] == ref.address
    && ref.address in world.reg.byAddress
    && var e := world.reg.byAddress[ref.address]; e.ref == ref && !e.closed && e.window == Some(w)
  }

  /** A window that stays alive and is not closed keeps its ref through any events, however often
      it and other windows are registered, closed and destroyed. */
  lemma {:induction false} LiveWindowKeepsRef(world: World, es: seq<Event>, w: Window, ref: WindowRef)
    requires Inv(world) && Holds(world, w, ref)
    requires forall i :: 0 <= i < |es| ==> es[i] != Close(w) && es[i] != Die(w)
    ensures Inv(Run(world, es)) && Holds(Run(world, es), w, ref)
    ensures Resolve(Run(world, es).reg, Run(world, es).desk, ref) == Some(w)
  {
    if es != [] {
      LiveWindowKeepsRef(world, es[..|es| - 1], w, ref);
      StepKeeps(Run(world, es[..|es| - 1]), es[|es| - 1]);
      StepHolds(Run(world, es[..|es| - 1]), es[|es| - 1], w, ref);
    }
  }

  lemma {:induction false} StepHolds(world: World, e: Event, w: Window, ref: WindowRef)
    requires Inv(world) && Holds(world, w, ref) && e != Close(w) && e != Die(w)
    ensures Holds(Step(world, e), w, ref)
  {
  }

  // ---- a closed window -------------------------------------------------------------------

  /** While a window is alive, the entry of its issued refs is its own. */
  ghost predicate AliveOwns(world: World) {
    forall i :: i in world.issued && i.window in world.desk.alive && i.ref.address in world.reg.byAddress ==>
      world.reg.byAddress[i.ref.address].window == Some(i.window)
  }

  /** The ref of `i` does not stand for its window any more. */
  ghost predicate Gone(world: World, i: Issue) {
    && i.window in world.desk.address
    && (i !in world.issued ==> i.window !in world.desk.alive)
    && (i in world.issued && i.ref.address in world.reg.byAddress ==>
          var e := world.reg.byAddress[i.ref.address]; e.closed || i.ref.generation < e.ref.generation)
  }

  lemma {:induction false} StepOwns(world: World, e: Event)
    requires Inv(world) && AliveOwns(world)
    ensures AliveOwns(Step(world, e))
  {
  }

  lemma {:induction false} RunOwns(world: World, es: seq<Event>)
    requires Inv(world) && AliveOwns(world)
    ensures Inv(Run(world, es)) && AliveOwns(Run(world, es))
  {
    if es != [] {
      RunOwns(world, es[..|es| - 1]);
      StepKeeps(Run(world, es[..|es| - 1]), es[|es| - 1]);
      StepOwns(Run(world, es[..|es| - 1]), es[|es| - 1]);
    }
  }

  lemma {:induction false} CloseGone(world: World, i: Issue)
    requires Inv(world) && AliveOwns(world) && i in world.issued && i.window in world.desk.alive
    ensures Gone(Step(world, Close(i.window)), i)
  {
  }

  lemma {:induction false} StepGone(world: World, e: Event, i: Issue)
    requires Inv(world) && AliveOwns(world) && Gone(world, i)
    ensures Gone(Step(world, e), i)
  {
  }

  lemma {:induction false} RunGone(world: World, es: seq<Event>, i: Issue)
    requires Inv(world) && AliveOwns(world) && Gone(world, i)
    ensures Inv(Run(world, es)) && Gone(Run(world, es), i)
  {
    if es != [] {
      var front := Run(world, es[..|es| - 1]);
      RunOwns(world, es[..|es| - 1]);
      RunGone(world, es[..|es| - 1], i);
      StepKeeps(front, es[|es| - 1]);
      StepGone(front, es[|es| - 1], i);
    }
  }

  /** After its close event a window is reached by none of the refs it had, whatever follows: not while
      the object lives on, not when it is registered again, not after the entry is erased. */
  lemma {:induction false} ClosedRefStaysGone(before: seq<Event>, after: seq<Event>, i: Issue)
    requires i in Run(START, before).issued && i.window in Run(START, before).desk.alive
    ensures var world := Run(Step(Run(START, before), Close(i.window)), after);
            Resolve(world.reg, world.desk, i.ref) != Some(i.window)
  {
    var world := Run(START, before);
    RunOwns(START, before);
    CloseGone(world, i);
    StepKeeps(world, Close(i.window));
    StepOwns(world, Close(i.window));
    RunGone(Step(world, Close(i.window)), after, i);
  }

  // ---- the limit -------------------------------------------------------------------------

  /** Erasure is the exact limit: once the entry of an address is gone, the next window registered
      there gets generation 1 again, so a ref of generation 1 that an earlier window at this address
      was given now resolves to the new window. */
  lemma {:induction false} ErasureRestarts(world: World, w: Window)
    requires Inv(world) && w in world.desk.alive && world.desk.address[w] !in world.reg.byAddress
    ensures var a := world.desk.address[w];
            var world' := Step(world, See(w));
            && EntryAt(world'.reg, a).ref == WindowRef(a, 1)
            && Resolve(world'.reg, world'.desk, WindowRef(a, 1)) == Some(w)
  {
  }

  /** Such a run exists: window 1 is closed while its object lives on, dies, and is pruned; window 2
      is allocated at the same address and is handed the very ref that window 1 had. */
  lemma {:induction false} ErasureRun(look: Look)
    ensures var ref := WindowRef(7, 1);
            var before := Run(START, [Open(1, 7, look), See(1)]);
            var after := Run(START, [Open(1, 7, look), See(1), Close(1), Die(1), Prune, Open(2, 7, look), See(2)]);
            && Issue(ref, 1) in before.issued && Resolve(before.reg, before.desk, ref) == Some(1)
            && Issue(ref, 2) in after.issued && Resolve(after.reg, after.desk, ref) == Some(2)
  {
    var es := [Open(1, 7, look), See(1), Close(1), Die(1), Prune, Open(2, 7, look), See(2)];
    var ref := WindowRef(7, 1);
    var desk := Desktop(map[1 := 7], {1}, map[1 := look]);
    var w1, w2 := Run(START, es[..1]), Run(START, es[..2]);
    RunUnfold(es, 1);
    assert w1 == World(desk, State(map[], 0), {}) by {
      assert Run(START, es[..0]) == START;
      assert START.desk.address[1 := 7] == map[1 := 7] && START.desk.look[1 := look] == map[1 := look];
    }
    RunUnfold(es, 2);
    assert w2 == World(desk, State(map[7 := Entry(ref, 2, 1, false, Some(1))], 1), {Issue(ref, 1)});
    assert es[..2] == [Open(1, 7, look), See(1)];
    ErasureTail(es, look, w2);
  }

  /** The ref found for a window that was never registered can be an earlier window's: one that died at
      this address without a close event. It resolves to nothing. */
  lemma {:induction false} StaleRun(look: Look)
    ensures var world := Run(START, [Open(1, 7, look), See(1), Die(1), Open(2, 7, look)]);
            && 2 in world.desk.address && LiveRefOf(world.reg, world.desk, 2) == Some(WindowRef(7, 1))
            && Resolve(world.reg, world.desk, WindowRef(7, 1)) == None
  {
    var es := [Open(1, 7, look), See(1), Die(1), Open(2, 7, look)];
    var entry := Entry(WindowRef(7, 1), 2, 1, false, Some(1));
    RunUnfold(es, 1);
    RunUnfold(es, 2);
    RunUnfold(es, 3);
    RunUnfold(es, 4);
    assert es[..0] == [] && es[..4] == es;
    var w1, w2, w3 := Run(START, es[..1]), Run(START, es[..2]), Run(START, es[..3]);
    assert w1.desk.address == map[1 := 7] && w1.desk.alive == {1};
    assert w2.reg.byAddress[7] == entry && w2.desk == w1.desk;
    assert 1 !in w3.desk.alive && w3.reg == w2.reg && w3.desk.alive == {};
  }

  lemma {:induction false} ClosedDiedPruned(es: seq<Event>, w2: World)
    requires |es| == 7 && w2 == Run(START, es[..2]) && es[2] == Close(1) && es[3] == Die(1) && es[4] == Prune
    ensures Run(START, es[..5]) == Step(Step(Step(w2, Close(1)), Die(1)), Prune)
  {
    RunUnfold(es, 3);
    RunUnfold(es, 4);
    RunUnfold(es, 5);
  }

  lemma {:induction false} OpenedSeen(es: seq<Event>, w5: World, look: Look)
    requires |es| == 7 && w5 == Run(START, es[..5]) && es[5] == Open(2, 7, look) && es[6] == See(2)
    ensures Run(START, es) == Step(Step(w5, Open(2, 7, look)), See(2))
  {
    RunUnfold(es, 6);
    RunUnfold(es, 7);
    assert es[..7] == es;
  }

  lemma {:induction false} ErasureTail(es: seq<Event>, look: Look, w2: World)
    requires es == [Open(1, 7, look), See(1), Close(1), Die(1), Prune, Open(2, 7, look), See(2)]
    requires w2 == World(Desktop(map[1 := 7], {1}, map[1 := look]),
                         State(map[7 := Entry(WindowRef(7, 1), 2, 1, false, Some(1))], 1), {Issue(WindowRef(7, 1), 1)})
    requires w2 == Run(START, es[..2])
    ensures var after := Run(START, es);
            Issue(WindowRef(7, 1), 2) in after.issued && Resolve(after.reg, after.desk, WindowRef(7, 1)) == Some(2)
  {
    var w5 := Step(Step(Step(w2, Close(1)), Die(1)), Prune);
    ClosedDiedPruned(es, w2);
    ErasureGone(w2, look);
    OpenedSeen(es, w5, look);
    ErasureAgain(w5, look);
  }

  lemma {:induction false} ErasureGone(w2: World, look: Look)
    requires w2 == World(Desktop(map[1 := 7], {1}, map[1 := look]),
                         State(map[7 := Entry(WindowRef(7, 1), 2, 1, false, Some(1))], 1), {Issue(WindowRef(7, 1), 1)})
    ensures var w5 := Step(Step(Step(w2, Close(1)), Die(1)), Prune);
            w5.reg.byAddress == map[] && w5.desk == Desktop(map[1 := 7], {}, map[1 := look])
  {
    var w3 := Step(w2, Close(1));
    var closed := Entry(WindowRef(7, 1), 2, 1, true, Some(1));
    assert ClosedAt(w2.reg, 7).byAddress == map[7 := closed];
    assert w3.reg.byAddress == map[7 := closed];
  }

  lemma {:induction false} ErasureAgain(w5: World, look: Look)
    requires w5.reg.byAddress == map[] && w5.desk == Desktop(map[1 := 7], {}, map[1 := look])
    ensures var after := Step(Step(w5, Open(2, 7, look)), See(2));
            Issue(WindowRef(7, 1), 2) in after.issued && Resolve(after.reg, after.desk, WindowRef(7, 1)) == Some(2)
  {
    var w6 := Step(w5, Open(2, 7, look));
    assert 2 in w6.desk.alive && w6.desk.address[2] == 7 && w6.reg == w5.reg;
  }

  lemma {:induction false} RunUnfold(es: seq<Event>, n: nat)
    requires 0 < n <= |es|
    ensures Run(START, es[..n]) == Step(Run(START, es[..n - 1]), es[n - 1])
  {
    assert es[..n][..n - 1] == es[..n - 1];
  }
}
