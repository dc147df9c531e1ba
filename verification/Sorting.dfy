/** The insertion sort of internal/store: channels, roles and threads are sorted by the same loop. */
module Sorting {
  /** A strict order under which being incomparable is an equivalence. */
  ghost predicate StrictWeak<T(!new)>(less: (T, T) -> bool) {
    (forall x: T, y: T :: less(x, y) ==> !less(y, x)) &&
    forall x: T, y: T, z: T :: less(x, z) ==> less(x, y) || less(y, z)
  }

  ghost predicate InOrder<T>(s: seq<T>, less: (T, T) -> bool) {
    forall i, j :: 0 <= i < j < |s| ==> !less(s[j], s[i])
  }

  /** An element moves left past those it goes before. */
  function InsertLast<T>(s: seq<T>, x: T, less: (T, T) -> bool): (r: seq<T>)
    ensures |r| == |s| + 1
  {
    if s != [] && less(x, s[|s| - 1]) then InsertLast(s[..|s| - 1], x, less) + [s[|s| - 1]] else s + [x]
  }

  function Sorted<T>(s: seq<T>, less: (T, T) -> bool): (r: seq<T>)
    ensures |r| == |s|
  {
    if s == [] then [] else InsertLast(Sorted(s[..|s| - 1], less), s[|s| - 1], less)
  }

  lemma {:induction false} InsertKeeps<T>(s: seq<T>, x: T, less: (T, T) -> bool)
    ensures multiset(InsertLast(s, x, less)) == multiset(s) + multiset{x}
  {
    if s != [] && less(x, s[|s| - 1]) {
      InsertKeeps(s[..|s| - 1], x, less);
      assert s == s[..|s| - 1] + [s[|s| - 1]];
    }
  }

  lemma {:induction false} InsertInOrder<T(!new)>(s: seq<T>, x: T, less: (T, T) -> bool)
    requires StrictWeak(less) && InOrder(s, less)
    ensures InOrder(InsertLast(s, x, less), less)
  {
    var n := |s| - 1;
    if s != [] && less(x, s[n]) {
      var init := s[..n];
      InsertInOrder(init, x, less);
      InsertKeeps(init, x, less);
      var r := InsertLast(init, x, less);
      forall i | 0 <= i < |r|
        ensures !less(s[n], r[i])
      {
        assert r[i] in multiset(r);
        assert r[i] == x || r[i] in init;
      }
    } else if s != [] {
      forall i | 0 <= i < |s|
        ensures !less(x, s[i])
      {
        assert i < n ==> !less(s[n], s[i]);
      }
    }
  }

  /** Sorting gives an ordered permutation. */
  lemma {:induction false} SortedIs<T(!new)>(s: seq<T>, less: (T, T) -> bool)
    requires StrictWeak(less)
    ensures InOrder(Sorted(s, less), less) && multiset(Sorted(s, less)) == multiset(s)
  {
    if s != [] {
      var n := |s| - 1;
      SortedIs(s[..n], less);
      InsertInOrder(Sorted(s[..n], less), s[n], less);
      InsertKeeps(Sorted(s[..n], less), s[n], less);
      assert s == s[..n] + [s[n]];
    }
  }

  /** The prefix sorted so far with `x` on its way left, and the rest. */
  function Moving<T>(p: seq<T>, j: nat, x: T, rest: seq<T>): seq<T>
    requires j <= |p|
  {
    p[..j] + [x] + p[j..] + rest
  }

  lemma SwapMoves<T>(s: seq<T>, p: seq<T>, j: nat, x: T, rest: seq<T>)
    requires 0 < j <= |p| && s == Moving(p, j, x, rest)
    ensures s[j] == x && s[j - 1] == p[j - 1] && s[j := p[j - 1]][j - 1 := x] == Moving(p, j - 1, x, rest)
  {
  }

  method InsertionSort<T>(a: array<T>, less: (T, T) -> bool)
    modifies a
    ensures a[..] == Sorted(old(a[..]), less)
  {
    ghost var s := a[..];
    var i := 1;
    if a.Length == 0 { return; }
    assert s[..1][..0] == [] && s == Sorted(s[..1], less) + s[1..];
    while i < a.Length
      invariant 1 <= i <= a.Length && a[..] == Sorted(s[..i], less) + s[i..]
    {
      InsertElement(a, i, less, s);
      i := i + 1;
    }
    assert s[..i] == s && s[i..] == [];
  }

  method InsertElement<T>(a: array<T>, i: nat, less: (T, T) -> bool, ghost s: seq<T>)
    requires 0 < i < a.Length == |s| && a[..] == Sorted(s[..i], less) + s[i..]
    modifies a
    ensures a[..] == Sorted(s[..i + 1], less) + s[i + 1..]
  {
    ghost var p, x, rest := Sorted(s[..i], less), s[i], s[i + 1..];
    MovingStarts(p, x, rest);
    assert s[i..] == [x] + rest && p[..i] == p && p[i..] == [];
    hide InsertLast, Sorted, Moving;
    var j := i;
    ghost var goal := InsertLast(p, x, less);
    assert goal + [] == goal;
    while j > 0 && less(a[j], a[j - 1])
      invariant 0 <= j <= i && a[..] == Moving(p, j, x, rest) && a[j] == x && (j > 0 ==> a[j - 1] == p[j - 1])
      invariant InsertLast(p[..j], x, less) + p[j..] == goal
    {
      SwapMoves(a[..], p, j, x, rest);
      InsertSteps(p, j, x, less);
      a[j], a[j - 1] := a[j - 1], a[j];
      j := j - 1;
      assert a[j] == a[..][j] && (j > 0 ==> a[j - 1] == a[..][j - 1]);
    }
    InsertStops(p, j, x, less);
    MovingEnds(p, j, x, rest);
    SortedNext(s, i, less);
  }

  lemma MovingStarts<T>(p: seq<T>, x: T, rest: seq<T>)
    ensures Moving(p, |p|, x, rest) == p + ([x] + rest)
  {
  }

  lemma MovingEnds<T>(p: seq<T>, j: nat, x: T, rest: seq<T>)
    requires j <= |p|
    ensures Moving(p, j, x, rest) == p[..j] + [x] + p[j..] + rest
  {
  }

  lemma InsertSteps<T>(p: seq<T>, j: nat, x: T, less: (T, T) -> bool)
    requires 0 < j <= |p| && less(x, p[j - 1])
    ensures InsertLast(p[..j], x, less) + p[j..] == InsertLast(p[..j - 1], x, less) + p[j - 1..]
  {
    assert p[..j][..j - 1] == p[..j - 1];
    assert p[j - 1..] == [p[j - 1]] + p[j..];
  }

  lemma InsertStops<T>(p: seq<T>, j: nat, x: T, less: (T, T) -> bool)
    requires j <= |p| && (j > 0 ==> !less(x, p[j - 1]))
    ensures InsertLast(p[..j], x, less) == p[..j] + [x]
  {
  }

  lemma SortedNext<T>(s: seq<T>, i: nat, less: (T, T) -> bool)
    requires i < |s|
    ensures Sorted(s[..i + 1], less) == InsertLast(Sorted(s[..i], less), s[i], less)
  {
    assert s[..i + 1][..i] == s[..i];
  }
}
