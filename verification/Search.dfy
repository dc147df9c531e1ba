/** Bytes, and first occurrences as Go's bytes.Index and strings.Index find them. */
module Search {
  type Byte = b: int | 0 <= b < 256

  ghost predicate Occurs<T>(s: seq<T>, pat: seq<T>, k: int) {
    0 <= k && k + |pat| <= |s| && forall i :: 0 <= i < |pat| ==> s[k + i] == pat[i]
  }

  predicate StartsWith<T(==)>(s: seq<T>, pat: seq<T>) {
    |pat| <= |s| && s[..|pat|] == pat
  }

  /** Position of the first occurrence of `pat`, or -1. */
  function IndexOf<T(==)>(s: seq<T>, pat: seq<T>): (k: int)
    requires pat != []
    ensures -1 <= k && (k >= 0 ==> k + |pat| <= |s|)
    decreases |s|
  {
    if |s| < |pat| then -1
    else if StartsWith(s, pat) then 0
    else var k := IndexOf(s[1..], pat); if k < 0 then -1 else k + 1
  }

  lemma OccursFront<T>(s: seq<T>, pat: seq<T>)
    ensures Occurs(s, pat, 0) <==> StartsWith(s, pat)
  {
    if Occurs(s, pat, 0) {
      assert forall i :: 0 <= i < |pat| ==> s[..|pat|][i] == s[0 + i];
    }
    if StartsWith(s, pat) {
      forall i | 0 <= i < |pat|
        ensures s[0 + i] == pat[i]
      {
        assert s[..|pat|][i] == pat[i];
      }
    }
  }

  lemma OccursTail<T>(s: seq<T>, pat: seq<T>, j: int)
    requires s != [] && 0 < j
    ensures Occurs(s, pat, j) <==> Occurs(s[1..], pat, j - 1)
  {
    var tail := s[1..];
    if Occurs(s, pat, j) {
      forall i | 0 <= i < |pat|
        ensures tail[j - 1 + i] == pat[i]
      {
        assert s[j + i] == pat[i];
      }
    }
    if Occurs(tail, pat, j - 1) {
      forall i | 0 <= i < |pat|
        ensures s[j + i] == pat[i]
      {
        assert tail[j - 1 + i] == pat[i];
      }
    }
  }

  /** The index is an occurrence with none before it; -1 means there is none at all. */
  lemma {:induction false} IndexOfIsFirst<T>(s: seq<T>, pat: seq<T>)
    requires pat != []
    ensures var k := IndexOf(s, pat);
            (k >= 0 ==> Occurs(s, pat, k)) && (forall j :: j < k || k < 0 ==> !Occurs(s, pat, j))
    decreases |s|
  {
    if |s| >= |pat| {
      OccursFront(s, pat);
      if !StartsWith(s, pat) {
        IndexOfIsFirst(s[1..], pat);
        var k := IndexOf(s[1..], pat);
        if k >= 0 { OccursTail(s, pat, k + 1); }
        forall j | 0 < j && (j < k + 1 || k < 0)
          ensures !Occurs(s, pat, j)
        {
          OccursTail(s, pat, j);
        }
      }
    }
  }

  lemma IndexIs<T>(s: seq<T>, pat: seq<T>, k: int)
    requires pat != [] && Occurs(s, pat, k) && forall j :: 0 <= j < k ==> !Occurs(s, pat, j)
    ensures IndexOf(s, pat) == k
  {
    IndexOfIsFirst(s, pat);
  }

  /** Text that follows does not move a first occurrence. */
  lemma IndexOfAppend<T>(s: seq<T>, more: seq<T>, pat: seq<T>)
    requires pat != [] && IndexOf(s, pat) >= 0
    ensures IndexOf(s + more, pat) == IndexOf(s, pat)
  {
    var k := IndexOf(s, pat);
    IndexOfIsFirst(s, pat);
    forall j | 0 <= j < k
      ensures !Occurs(s + more, pat, j)
    {
      assert !Occurs(s, pat, j);
      var i :| 0 <= i < |pat| && s[j + i] != pat[i];
      assert (s + more)[j + i] != pat[i];
    }
    IndexIs(s + more, pat, k);
  }
}
