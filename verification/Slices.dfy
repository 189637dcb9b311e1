/** Comparison of two slices up to the order of their elements. */
module Slices {
  /** Deep equality: symmetric and transitive, but a not-a-number or a function does not equal itself. */
  ghost predicate PartialEquivalence<T(!new)>(eq: (T, T) -> bool) {
    && (forall x, y :: eq(x, y) ==> eq(y, x))
    && (forall x, y, z :: eq(x, y) && eq(y, z) ==> eq(x, z))
  }

  ghost predicate Equivalence<T(!new)>(eq: (T, T) -> bool) {
    PartialEquivalence(eq) && forall x :: eq(x, x)
  }

  /** Every element equals itself. */
  predicate SelfEqual<T>(s: seq<T>, eq: (T, T) -> bool) {
    forall i | 0 <= i < |s| :: eq(s[i], s[i])
  }

  /** How many elements of `s` equal `x`. */
  function Count<T>(s: seq<T>, eq: (T, T) -> bool, x: T): nat {
    if s == [] then 0 else Count(s[..|s| - 1], eq, x) + if eq(s[|s| - 1], x) then 1 else 0
  }

  ghost predicate SameCounts<T(!new)>(s1: seq<T>, s2: seq<T>, eq: (T, T) -> bool) {
    forall x :: Count(s1, eq, x) == Count(s2, eq, x)
  }

  /** How many marked elements of `s` equal `x`. */
  ghost function Used<T>(s: seq<T>, marks: seq<int>, eq: (T, T) -> bool, x: T): nat
    requires |marks| == |s|
  {
    if s == [] then 0
    else
      var n := |s| - 1;
      Used(s[..n], marks[..n], eq, x) + if marks[n] == 1 && eq(s[n], x) then 1 else 0
  }

  /** The marked elements of `s` are, as a multiset, the elements of `done`. */
  ghost predicate Matches<T(!new)>(s: seq<T>, marks: seq<int>, done: seq<T>, eq: (T, T) -> bool)
    requires |marks| == |s|
  {
    forall x :: Used(s, marks, eq, x) == Count(done, eq, x)
  }

  ghost function Marked(marks: seq<int>): nat {
    if marks == [] then 0
    else
      var n := |marks| - 1;
      Marked(marks[..n]) + if marks[n] == 1 then 1 else 0
  }

  /**
   * Greedy matching: every element of the first slice claims the first unclaimed equal element of the second. The
   * answer is whether the slices have the same length, every element of the first equals itself, and both agree as
   * multisets.
   */
  method SlicesDeepEqual<T(!new)>(s1: seq<T>, s2: seq<T>, eq: (T, T) -> bool) returns (same: bool)
    requires PartialEquivalence(eq)
    ensures same <==> |s1| == |s2| && SelfEqual(s1, eq) && SameCounts(s1, s2, eq)
  {
    if |s1| != |s2| {
      return false;
    }
    if |s1| == 0 {
      return true;
    }
    var s2found := new int[|s2|](_ => 0);
    NothingMarked(s2, s2found[..], eq);
    for i := 0 to |s1|
      invariant Marked(s2found[..]) == i && SelfEqual(s1[..i], eq)
      invariant Matches(s2, s2found[..], s1[..i], eq)
    {
      ghost var marks := s2found[..];
      var j, claimed := 0, false;
      while j < |s2| && !claimed
        invariant 0 <= j <= |s2|
        invariant claimed ==> j < |s2| && marks[j] != 1 && eq(s1[i], s2[j]) && s2found[..] == marks[j := 1]
        invariant !claimed ==> s2found[..] == marks && forall m | 0 <= m < j && marks[m] != 1 :: !eq(s1[i], s2[m])
        decreases |s2| - j, !claimed
      {
        if s2found[j] == 1 {
          j := j + 1;
        } else if eq(s1[i], s2[j]) {
          s2found[j] := 1;
          claimed := true;
        } else {
          j := j + 1;
        }
      }
      if !claimed {
        if eq(s1[i], s1[i]) {
          Exhausted(s1, i, s2, marks, eq);
        }
        return false;
      }
      ClaimOne(s1, i, s2, marks, j, eq);
    }
    assert s1[..|s1|] == s1;
    AllMarked(s2, s2found[..], eq);
    return true;
  }

  lemma {:induction false} NothingMarked<T(!new)>(s: seq<T>, marks: seq<int>, eq: (T, T) -> bool)
    requires |marks| == |s| && forall m | 0 <= m < |marks| :: marks[m] == 0
    ensures Marked(marks) == 0 && forall x :: Used(s, marks, eq, x) == 0
  {
    if s != [] {
      NothingMarked(s[..|s| - 1], marks[..|s| - 1], eq);
    }
  }

  lemma {:induction false} MarkedAtMost(marks: seq<int>)
    ensures Marked(marks) <= |marks|
    ensures Marked(marks) == |marks| ==> forall m | 0 <= m < |marks| :: marks[m] == 1
  {
    if marks != [] {
      MarkedAtMost(marks[..|marks| - 1]);
    }
  }

  lemma AllMarked<T(!new)>(s: seq<T>, marks: seq<int>, eq: (T, T) -> bool)
    requires |marks| == |s| == Marked(marks)
    ensures forall x :: Used(s, marks, eq, x) == Count(s, eq, x)
  {
    MarkedAtMost(marks);
    forall x: T
      ensures Used(s, marks, eq, x) == Count(s, eq, x)
    {
      UsedIsCount(s, marks, eq, x);
    }
  }

  /** When every element equal to `x` is marked, the marked ones are all there are. */
  lemma {:induction false} UsedIsCount<T>(s: seq<T>, marks: seq<int>, eq: (T, T) -> bool, x: T)
    requires |marks| == |s| && forall m | 0 <= m < |s| && eq(s[m], x) :: marks[m] == 1
    ensures Used(s, marks, eq, x) == Count(s, eq, x)
  {
    if s != [] {
      UsedIsCount(s[..|s| - 1], marks[..|s| - 1], eq, x);
    }
  }

  lemma {:induction false} MarkOne<T>(s: seq<T>, marks: seq<int>, j: nat, eq: (T, T) -> bool, x: T)
    requires |marks| == |s| && j < |s| && marks[j] != 1
    ensures Marked(marks[j := 1]) == Marked(marks) + 1
    ensures Used(s, marks[j := 1], eq, x) == Used(s, marks, eq, x) + if eq(s[j], x) then 1 else 0
  {
    var n := |s| - 1;
    if j < n {
      assert marks[j := 1][..n] == marks[..n][j := 1];
      MarkOne(s[..n], marks[..n], j, eq, x);
    } else {
      assert marks[j := 1][..n] == marks[..n];
    }
  }

  lemma ClaimOne<T(!new)>(s1: seq<T>, i: nat, s2: seq<T>, marks: seq<int>, j: nat, eq: (T, T) -> bool)
    requires PartialEquivalence(eq) && i < |s1| && |marks| == |s2| && j < |s2| && marks[j] != 1 && eq(s1[i], s2[j])
    requires Matches(s2, marks, s1[..i], eq)
    ensures Marked(marks[j := 1]) == Marked(marks) + 1
    ensures Matches(s2, marks[j := 1], s1[..i + 1], eq)
  {
    MarkOne(s2, marks, j, eq, s1[i]);
    assert s1[..i + 1][..i] == s1[..i];
    var marks', done := marks[j := 1], s1[..i + 1];
    forall x: T
      ensures Used(s2, marks', eq, x) == Count(done, eq, x)
    {
      MarkOne(s2, marks, j, eq, x);
    }
  }

  lemma {:induction false} CountPrefix<T>(s: seq<T>, i: nat, eq: (T, T) -> bool, x: T)
    requires i <= |s|
    ensures Count(s[..i], eq, x) <= Count(s, eq, x)
  {
    if i < |s| {
      var r := s[..|s| - 1];
      assert r[..i] == s[..i];
      CountPrefix(r, i, eq, x);
    } else {
      assert s[..i] == s;
    }
  }

  /** No unclaimed equal element is left: the first slice has more elements equal to `s1[i]` than the second. */
  lemma Exhausted<T(!new)>(s1: seq<T>, i: nat, s2: seq<T>, marks: seq<int>, eq: (T, T) -> bool)
    requires PartialEquivalence(eq) && i < |s1| && |marks| == |s2| && eq(s1[i], s1[i])
    requires forall m | 0 <= m < |s2| && marks[m] != 1 :: !eq(s1[i], s2[m])
    requires Matches(s2, marks, s1[..i], eq)
    ensures Count(s1, eq, s1[i]) > Count(s2, eq, s1[i])
  {
    UsedIsCount(s2, marks, eq, s1[i]);
    assert s1[..i + 1][..i] == s1[..i];
    CountPrefix(s1, i + 1, eq, s1[i]);
  }

  function Without<T>(s: seq<T>, eq: (T, T) -> bool, x: T): seq<T> {
    if s == [] then []
    else Without(s[..|s| - 1], eq, x) + if eq(s[|s| - 1], x) then [] else [s[|s| - 1]]
  }

  lemma {:induction false} WithoutCounts<T(!new)>(s: seq<T>, eq: (T, T) -> bool, x: T, y: T)
    requires Equivalence(eq)
    ensures |Without(s, eq, x)| == |s| - Count(s, eq, x)
    ensures Count(Without(s, eq, x), eq, y) == if eq(x, y) then 0 else Count(s, eq, y)
  {
    if s != [] {
      var r, e := s[..|s| - 1], s[|s| - 1];
      WithoutCounts(r, eq, x, y);
      if !eq(e, x) {
        assert Without(s, eq, x)[..|Without(r, eq, x)|] == Without(r, eq, x);
      } else {
        assert Without(s, eq, x) == Without(r, eq, x);
      }
    }
  }

  /** For an equivalence, slices with the same counts have the same length, so the length test loses nothing. */
  lemma {:induction false} LengthFromCounts<T(!new)>(s1: seq<T>, s2: seq<T>, eq: (T, T) -> bool)
    requires Equivalence(eq)
    ensures SameCounts(s1, s2, eq) ==> |s1| == |s2|
    decreases |s1| + |s2|
  {
    if s1 + s2 != [] && SameCounts(s1, s2, eq) {
      var x := (s1 + s2)[|s1 + s2| - 1];
      var r1, r2 := Without(s1, eq, x), Without(s2, eq, x);
      WithoutCounts(s1, eq, x, x);
      WithoutCounts(s2, eq, x, x);
      forall y: T
        ensures Count(r1, eq, y) == Count(r2, eq, y)
      {
        WithoutCounts(s1, eq, x, y);
        WithoutCounts(s2, eq, x, y);
      }
      LengthFromCounts(r1, r2, eq);
    }
  }

  /** So for an equivalence the answer is whether the slices agree as multisets. */
  lemma SameCountsSuffice<T(!new)>(s1: seq<T>, s2: seq<T>, eq: (T, T) -> bool)
    requires Equivalence(eq)
    ensures |s1| == |s2| && SelfEqual(s1, eq) && SameCounts(s1, s2, eq) <==> SameCounts(s1, s2, eq)
  {
    LengthFromCounts(s1, s2, eq);
  }

  lemma {:induction false} CountIsMultiplicity<T(!new)>(s: seq<T>, eq: (T, T) -> bool, x: T)
    requires forall a, b :: eq(a, b) <==> a == b
    ensures Count(s, eq, x) == multiset(s)[x]
  {
    if s != [] {
      assert s == s[..|s| - 1] + [s[|s| - 1]];
      CountIsMultiplicity(s[..|s| - 1], eq, x);
    }
  }

  /** For plain equality, agreeing counts are equality of multisets. */
  lemma SameCountsIffSameMultiset<T(!new)>(s1: seq<T>, s2: seq<T>, eq: (T, T) -> bool)
    requires forall a, b :: eq(a, b) <==> a == b
    ensures SameCounts(s1, s2, eq) <==> multiset(s1) == multiset(s2)
  {
    forall x: T
      ensures Count(s1, eq, x) == multiset(s1)[x] && Count(s2, eq, x) == multiset(s2)[x]
    {
      CountIsMultiplicity(s1, eq, x);
      CountIsMultiplicity(s2, eq, x);
    }
    if SameCounts(s1, s2, eq) {
      assert forall x :: multiset(s1)[x] == Count(s1, eq, x) == multiset(s2)[x];
    }
  }
}
