// src/plugin/mru_merge.cpp: the plugin-owned order first, then the rest, no window twice.

module MruMerge {
  import opened Sequences
  import opened Domain

  function Merged(primary: seq<WindowRef>, fallback: seq<WindowRef>): seq<WindowRef> {
    FirstOccurrences(primary + fallback)
  }

  lemma {:induction false} MergeStep(primary: seq<WindowRef>, fallback: seq<WindowRef>, j: nat)
    requires j < |fallback|
    ensures FirstOccurrences(primary + fallback[..j + 1])
         == PushUnique(FirstOccurrences(primary + fallback[..j]), fallback[j])
  {
    assert primary + fallback[..j + 1] == primary + fallback[..j] + [fallback[j]];
    FirstOccurrencesSnoc(primary + fallback[..j], fallback[j]);
  }

  method MergeMruOrder(primary: seq<WindowRef>, fallback: seq<WindowRef>) returns (out: seq<WindowRef>)
    ensures out == Merged(primary, fallback)
  {
    out := [];
    for i := 0 to |primary|
      invariant out == FirstOccurrences(primary[..i])
    {
      FirstOccurrencesStep(primary, i);
      out := PushUnique(out, primary[i]);
    }
    assert primary[..|primary|] == primary == primary + fallback[..0];
    for j := 0 to |fallback|
      invariant out == FirstOccurrences(primary + fallback[..j])
    {
      MergeStep(primary, fallback, j);
      out := PushUnique(out, fallback[j]);
    }
    assert fallback[..|fallback|] == fallback;
  }

  /** The merged list has every window once, nothing else, and a duplicate-free primary list comes
      first, in its own order. */
  lemma {:induction false} MergeKeepsOrder(primary: seq<WindowRef>, fallback: seq<WindowRef>)
    ensures Distinct(Merged(primary, fallback))
    ensures forall ref :: ref in Merged(primary, fallback) <==> ref in primary || ref in fallback
    ensures Distinct(primary) ==> primary <= Merged(primary, fallback)
  {
    if Distinct(primary) { FirstOccurrencesPrefix(primary, fallback); }
  }

  lemma {:induction false} WithoutSnoc(s: seq<WindowRef>, x: WindowRef, w: WindowRef)
    ensures Without(s + [x], w) == if x == w then Without(s, w) else Without(s, w) + [x]
  {
    assert (s + [x])[..|s|] == s;
  }

  /** Pushing at the back and moving to the front commute. */
  lemma {:induction false} PushMoves(s: seq<WindowRef>, x: WindowRef, w: WindowRef)
    ensures PushUnique(MoveToFront(s, w), x) == MoveToFront(PushUnique(s, x), w)
  {
    if x !in s { WithoutSnoc(s, x, w); }
  }

  /** One more element at the back, on both sides of the law. */
  lemma {:induction false} MergeLawSnoc(moved: seq<WindowRef>, all: seq<WindowRef>, x: WindowRef, w: WindowRef)
    requires FirstOccurrences(moved) == MoveToFront(FirstOccurrences(all), w)
    ensures FirstOccurrences(moved + [x]) == MoveToFront(FirstOccurrences(all + [x]), w)
  {
    FirstOccurrencesSnoc(moved, x);
    FirstOccurrencesSnoc(all, x);
    PushMoves(FirstOccurrences(all), x, w);
  }

  lemma {:induction false} RestSnoc(p: seq<WindowRef>, x: WindowRef, w: WindowRef)
    requires FirstOccurrences(MoveToFront(p, w)) == MoveToFront(FirstOccurrences(p), w)
    ensures FirstOccurrences(MoveToFront(p + [x], w)) == MoveToFront(FirstOccurrences(p + [x]), w)
  {
    WithoutSnoc(p, x, w);
    if x == w {
      FirstOccurrencesSnoc(p, x);
      MovedAgain(FirstOccurrences(p), w);
    } else {
      assert MoveToFront(p + [x], w) == MoveToFront(p, w) + [x];
      MergeLawSnoc(MoveToFront(p, w), p, x, w);
    }
  }

  lemma {:induction false} MovedAgain(s: seq<WindowRef>, w: WindowRef)
    ensures MoveToFront(PushUnique(s, w), w) == MoveToFront(s, w)
  {
    WithoutSnoc(s, w, w);
  }

  lemma {:induction false} FirstThenRest(w: WindowRef, p: seq<WindowRef>)
    ensures FirstOccurrences(MoveToFront(p, w)) == MoveToFront(FirstOccurrences(p), w)
  {
    if p == [] {
      assert MoveToFront(p, w) == [w];
      FirstOccurrencesDistinct([w]);
    } else {
      var front, last := p[..|p| - 1], p[|p| - 1];
      FirstThenRest(w, front);
      RestSnoc(front, last, w);
      assert p == front + [last];
    }
  }

  /** Promoting a window in the tracker's order promotes it in the candidate list. */
  lemma {:induction false} MergeMovesToFront(p: seq<WindowRef>, f: seq<WindowRef>, w: WindowRef)
    ensures Merged(MoveToFront(p, w), f) == MoveToFront(Merged(p, f), w)
    decreases |f|
  {
    if f == [] {
      assert MoveToFront(p, w) + f == MoveToFront(p, w) && p + f == p;
      FirstThenRest(w, p);
    } else {
      var front, last := f[..|f| - 1], f[|f| - 1];
      MergeMovesToFront(p, front, w);
      assert MoveToFront(p, w) + f == MoveToFront(p, w) + front + [last] && p + f == p + front + [last];
      MergeLawSnoc(MoveToFront(p, w) + front, p + front, last, w);
    }
  }
}
