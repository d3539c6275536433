// Sequence vocabulary shared by the whole model. Everything that the program builds by
// pushing at the back of a vector is defined by recursion on the last element, so that a
// loop invariant of the form `out == F(s[..i])` unfolds in one step.

module Wrappers {
  datatype Option<+T> = None | Some(value: T)
}

module Sequences {

  ghost predicate Distinct<T(!new)>(s: seq<T>) {
    forall i, j :: 0 <= i < j < |s| ==> s[i] != s[j]
  }

  /** What remains after every occurrence of `x` is erased; the order of the rest is kept. */
  function Without<T(==, !new)>(s: seq<T>, x: T): (r: seq<T>)
    ensures forall y :: y in r <==> y in s && y != x
    ensures |r| <= |s|
  {
    if s == [] then []
    else
      var r := Without(s[..|s| - 1], x);
      var last := s[|s| - 1];
      if last == x then r else r + [last]
  }

  function MoveToFront<T(==, !new)>(s: seq<T>, x: T): seq<T> {
    [x] + Without(s, x)
  }

  /** Push at the back unless it is there already. */
  function PushUnique<T(==, !new)>(s: seq<T>, x: T): seq<T> {
    if x in s then s else s + [x]
  }

  /** The first occurrence of every element, in order. */
  function FirstOccurrences<T(==, !new)>(s: seq<T>): (r: seq<T>)
    ensures forall y :: y in r <==> y in s
    ensures Distinct(r)
  {
    if s == [] then []
    else
      PushUnique(FirstOccurrences(s[..|s| - 1]), s[|s| - 1])
  }

  lemma FirstIn<T>(s: seq<T>)
    requires s != []
    ensures s[0] in s
  {
  }

  /** `a` is obtained from `b` by deleting elements, in place. */
  ghost predicate Subsequence<T(!new)>(a: seq<T>, b: seq<T>)
    decreases |b|
  {
    || a == []
    || (b != [] && (|| Subsequence(a, b[..|b| - 1])
                    || (a[|a| - 1] == b[|b| - 1] && Subsequence(a[..|a| - 1], b[..|b| - 1]))))
  }

  lemma {:induction false} SubsequenceReflexive<T(!new)>(a: seq<T>)
    ensures Subsequence(a, a)
  {
    if a != [] { SubsequenceReflexive(a[..|a| - 1]); }
  }

  lemma {:induction false} SubsequenceTransitive<T(!new)>(a: seq<T>, b: seq<T>, c: seq<T>)
    requires Subsequence(a, b) && Subsequence(b, c)
    ensures Subsequence(a, c)
    decreases |c|
  {
    if a != [] && b != [] {
      var b', c' := b[..|b| - 1], c[..|c| - 1];
      if Subsequence(b, c') {
        SubsequenceTransitive(a, b, c');
      } else if Subsequence(a, b') {
        SubsequenceTransitive(a, b', c');
      } else {
        SubsequenceTransitive(a[..|a| - 1], b', c');
      }
    }
  }

  lemma {:induction false} SubsequenceMembers<T(!new)>(a: seq<T>, b: seq<T>)
    requires Subsequence(a, b)
    ensures |a| <= |b|
    ensures forall x :: x in a ==> x in b
    ensures Distinct(b) ==> Distinct(a)
    decreases |b|
  {
    if a != [] {
      var b' := b[..|b| - 1];
      if Subsequence(a, b') {
        SubsequenceMembers(a, b');
      } else {
        SubsequenceMembers(a[..|a| - 1], b');
        assert forall i :: 0 <= i < |a| - 1 ==> a[i] == a[..|a| - 1][i] && a[i] in b';
        assert a == a[..|a| - 1] + [a[|a| - 1]];
      }
    }
  }

  lemma {:induction false} SubsequenceFull<T(!new)>(a: seq<T>, b: seq<T>)
    requires Subsequence(a, b) && |a| == |b|
    ensures a == b
    decreases |b|
  {
    if a != [] {
      var b' := b[..|b| - 1];
      if Subsequence(a, b') {
        SubsequenceMembers(a, b');
      } else {
        SubsequenceFull(a[..|a| - 1], b');
        assert a == a[..|a| - 1] + [a[|a| - 1]];
      }
    }
  }

  /** In a duplicate-free `b`, a subsequence that meets `b` at one place was cut from its prefix up to
      there. */
  lemma {:induction false} SubsequencePrefix<T(!new)>(a: seq<T>, b: seq<T>, i: nat, j: nat)
    requires Subsequence(a, b) && Distinct(b) && i < |a| && j < |b| && a[i] == b[j]
    ensures Subsequence(a[..i + 1], b[..j + 1])
    decreases |b|
  {
    var b' := b[..|b| - 1];
    SubsequenceMembers(a, b);
    if Subsequence(a, b') {
      SubsequenceMembers(a, b');
      assert a[i] in a;
      assert j < |b'| && b'[..j + 1] == b[..j + 1];
      SubsequencePrefix(a, b', i, j);
    } else if i == |a| - 1 {
      assert a[..i + 1] == a && b[..j + 1] == b;
    } else {
      var a' := a[..|a| - 1];
      assert a'[i] == a[i] && a[i] != a[|a| - 1];
      assert b'[..j + 1] == b[..j + 1] && a'[..i + 1] == a[..i + 1];
      SubsequencePrefix(a', b', i, j);
    }
  }

  /** A subsequence with all the members of a duplicate-free list is that list. */
  lemma {:induction false} SubsequenceCovers<T(!new)>(a: seq<T>, b: seq<T>)
    requires Subsequence(a, b) && Distinct(b) && forall x :: x in b ==> x in a
    ensures a == b
    decreases |b|
  {
    if b != [] {
      var b', last := b[..|b| - 1], b[|b| - 1];
      assert last in b && last !in b';
      if Subsequence(a, b') { SubsequenceMembers(a, b'); }
      var a' := a[..|a| - 1];
      assert a == a' + [last] && b == b' + [last];
      forall x | x in b' ensures x in a' { assert x in b && x != last; }
      SubsequenceCovers(a', b');
    }
  }

  lemma {:induction false} DistinctSnoc<T(!new)>(s: seq<T>, x: T)
    requires Distinct(s) && x !in s
    ensures Distinct(s + [x])
  {
    assert forall i :: 0 <= i < |s| ==> s[i] in s;
  }

  lemma {:induction false} WithoutDistinct<T(!new)>(s: seq<T>, x: T)
    requires Distinct(s)
    ensures Distinct(Without(s, x))
  {
    if s != [] {
      var s', last := s[..|s| - 1], s[|s| - 1];
      WithoutDistinct(s', x);
      assert last !in Without(s', x) by {
        assert forall i :: 0 <= i < |s'| ==> s'[i] == s[i] != last;
      }
      DistinctSnoc(Without(s', x), last);
    }
  }

  lemma {:induction false} WithoutAbsent<T(!new)>(s: seq<T>, x: T)
    requires x !in s
    ensures Without(s, x) == s
  {
    if s != [] {
      WithoutAbsent(s[..|s| - 1], x);
    }
  }

  lemma {:induction false} WithoutAppend<T(!new)>(a: seq<T>, b: seq<T>, x: T)
    ensures Without(a + b, x) == Without(a, x) + Without(b, x)
    decreases |b|
  {
    if b == [] {
      assert a + b == a;
    } else {
      assert (a + b)[..|a + b| - 1] == a + b[..|b| - 1];
      WithoutAppend(a, b[..|b| - 1], x);
    }
  }

  lemma {:induction false} MoveToFrontDistinct<T(!new)>(s: seq<T>, x: T)
    requires Distinct(s)
    ensures Distinct(MoveToFront(s, x))
  {
    WithoutDistinct(s, x);
    assert forall i :: 0 < i < |MoveToFront(s, x)| ==> MoveToFront(s, x)[i] in Without(s, x);
  }

  /** Moving the same element to the front twice is moving it once. */
  lemma {:induction false} MoveToFrontTwice<T(!new)>(s: seq<T>, x: T)
    ensures MoveToFront(MoveToFront(s, x), x) == MoveToFront(s, x)
  {
    WithoutAppend([x], Without(s, x), x);
    WithoutAbsent(Without(s, x), x);
    assert Without([x], x) == [];
  }

  lemma {:induction false} WithoutMultiset<T(!new)>(s: seq<T>, x: T)
    requires Distinct(s) && x in s
    ensures multiset(s) == multiset(Without(s, x)) + multiset{x}
  {
    var s', last := s[..|s| - 1], s[|s| - 1];
    assert s == s' + [last];
    if last == x {
      WithoutAbsent(s', x);
    } else {
      WithoutMultiset(s', x);
    }
  }

  /** Moving a member to the front permutes a duplicate-free list. */
  lemma {:induction false} MoveToFrontPermutes<T(!new)>(s: seq<T>, x: T)
    requires Distinct(s) && x in s
    ensures multiset(MoveToFront(s, x)) == multiset(s)
    ensures |MoveToFront(s, x)| == |s|
  {
    WithoutMultiset(s, x);
    assert |multiset(MoveToFront(s, x))| == |multiset(s)|;
  }

  lemma {:induction false} FirstOccurrencesSnoc<T(!new)>(s: seq<T>, x: T)
    ensures FirstOccurrences(s + [x]) == PushUnique(FirstOccurrences(s), x)
  {
    assert (s + [x])[..|s|] == s;
  }

  lemma {:induction false} FirstOccurrencesStep<T(!new)>(s: seq<T>, i: nat)
    requires i < |s|
    ensures FirstOccurrences(s[..i + 1]) == PushUnique(FirstOccurrences(s[..i]), s[i])
  {
    assert s[..i + 1][..i] == s[..i];
  }

  lemma {:induction false} FirstOccurrencesDistinct<T(!new)>(s: seq<T>)
    requires Distinct(s)
    ensures FirstOccurrences(s) == s
  {
    if s != [] {
      var s' := s[..|s| - 1];
      FirstOccurrencesDistinct(s');
      assert s[|s| - 1] !in s';
    }
  }

  /** `x` occurs before any occurrence of `y`. */
  ghost predicate Before<T(!new)>(s: seq<T>, x: T, y: T) {
    exists p :: 0 <= p < |s| && s[p] == x && forall q :: 0 <= q <= p ==> s[q] != y
  }

  lemma {:induction false} BeforeSnoc<T(!new)>(s: seq<T>, x: T, y: T, z: T)
    requires Before(s, x, y)
    ensures Before(s + [z], x, y)
  {
    var p :| 0 <= p < |s| && s[p] == x && forall q :: 0 <= q <= p ==> s[q] != y;
    assert (s + [z])[p] == x;
  }

  lemma {:induction false} BeforeInRest<T(!new)>(a: seq<T>, b: seq<T>, x: T, y: T)
    requires Before(a + b, x, y) && x !in a
    ensures Before(b, x, y)
  {
    var p :| 0 <= p < |a + b| && (a + b)[p] == x && forall q :: 0 <= q <= p ==> (a + b)[q] != y;
    assert b[p - |a|] == x;
    forall q | 0 <= q <= p - |a| ensures b[q] != y { assert (a + b)[q + |a|] == b[q]; }
  }

  /** What remains stands in the order in which it was met first. */
  lemma {:induction false} FirstOccurrencesOrder<T(!new)>(s: seq<T>, i: nat, j: nat)
    requires i < j < |FirstOccurrences(s)|
    ensures Before(s, FirstOccurrences(s)[i], FirstOccurrences(s)[j])
  {
    var front, last := s[..|s| - 1], s[|s| - 1];
    var r := FirstOccurrences(front);
    assert s == front + [last];
    if j < |r| {
      FirstOccurrencesOrder(front, i, j);
      BeforeSnoc(front, r[i], r[j], last);
    } else {
      assert r[i] in front;
      var p :| 0 <= p < |front| && front[p] == r[i];
      assert s[p] == r[i] && last !in front;
      assert forall q :: 0 <= q <= p ==> s[q] == front[q] && front[q] in front;
    }
  }

  /** A duplicate-free prefix survives removal of duplicates unchanged. */
  lemma {:induction false} FirstOccurrencesPrefix<T(!new)>(a: seq<T>, b: seq<T>)
    requires Distinct(a)
    ensures a <= FirstOccurrences(a + b)
    decreases |b|
  {
    if b == [] {
      assert a + b == a;
      FirstOccurrencesDistinct(a);
    } else {
      assert (a + b)[..|a + b| - 1] == a + b[..|b| - 1];
      FirstOccurrencesPrefix(a, b[..|b| - 1]);
    }
  }
}
