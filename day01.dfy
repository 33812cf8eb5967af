/** Day 1: total distance between two sorted location lists, and their
    occurrence-weighted similarity. */
module Day01 {
  import opened Common

  predicate IsSorted(s: seq<int>)
  {
    forall i, j :: 0 <= i < j < |s| ==> s[i] <= s[j]
  }

  function Insert(x: int, s: seq<int>): (r: seq<int>)
    requires IsSorted(s)
    ensures IsSorted(r)
    ensures multiset(r) == multiset(s) + multiset{x}
    ensures |r| == |s| + 1
    ensures r[0] == x || (s != [] && r[0] == s[0])
  {
    if s == [] then [x]
    else if x <= s[0] then
      SortedCons(x, s);
      [x] + s
    else
      SortedTail(s);
      var t := Insert(x, s[1..]);
      InsertBehind(x, s, t);
      [s[0]] + t
  }

  /** Putting the head back in front of the tail with x inserted: still
      sorted, and the elements are those of s plus x. */
  lemma InsertBehind(x: int, s: seq<int>, t: seq<int>)
    requires IsSorted(s) && s != [] && s[0] < x
    requires IsSorted(t) && |t| == |s| && multiset(t) == multiset(s[1..]) + multiset{x}
    requires t[0] == x || (s[1..] != [] && t[0] == s[1..][0])
    ensures IsSorted([s[0]] + t)
    ensures multiset([s[0]] + t) == multiset(s) + multiset{x}
  {
    assert s == [s[0]] + s[1..];
    SortedCons(s[0], t);
  }

  /** Dropping the head of a sorted sequence leaves it sorted, and takes
      one copy of the head out of its elements. */
  lemma SortedTail(s: seq<int>)
    requires IsSorted(s) && s != []
    ensures IsSorted(s[1..])
    ensures multiset(s[1..]) == multiset(s) - multiset{s[0]}
  {
    assert s == [s[0]] + s[1..];
  }

  /** A head no larger than the first element of a sorted sequence keeps
      it sorted. */
  lemma SortedCons(h: int, t: seq<int>)
    requires IsSorted(t) && (t == [] || h <= t[0])
    ensures IsSorted([h] + t)
  {
    var r := [h] + t;
    forall i, j | 0 <= i < j < |r| ensures r[i] <= r[j] {
      if i > 0 {
        assert r[i] == t[i - 1] && r[j] == t[j - 1];
      } else {
        assert r[j] == t[j - 1];
        assert t[0] <= t[j - 1] || j == 1;
      }
    }
  }

  /** Python's `sorted` on integers: the sorted permutation of `s`. */
  function Sort(s: seq<int>): (r: seq<int>)
    ensures IsSorted(r)
    ensures multiset(r) == multiset(s)
  {
    if s == [] then []
    else
      assert s == s[..|s| - 1] + [s[|s| - 1]];
      Insert(s[|s| - 1], Sort(s[..|s| - 1]))
  }

  /** The head of a sorted sequence is its least element. */
  lemma SortedHeadIsMin(a: seq<int>, x: int)
    requires IsSorted(a) && x in multiset(a)
    ensures a != [] && a[0] <= x
  {
    assert x in a;
    var i :| 0 <= i < |a| && a[i] == x;
  }

  /** Two sorted sequences with the same elements start alike, and so do their tails. */
  lemma SortedHeadsAgree(a: seq<int>, b: seq<int>)
    requires IsSorted(a) && IsSorted(b) && a != [] && b != []
    requires multiset(a) == multiset(b)
    ensures a[0] == b[0]
    ensures IsSorted(a[1..]) && IsSorted(b[1..])
    ensures multiset(a[1..]) == multiset(b[1..])
  {
    assert a[0] == b[0] by {
      assert a[0] in multiset(a) && b[0] in multiset(b);
      SortedHeadIsMin(b, a[0]);
      SortedHeadIsMin(a, b[0]);
    }
    SortedTail(a);
    SortedTail(b);
  }

  /** A sorted sequence is determined by its multiset of elements. */
  lemma {:induction false} SortedUnique(a: seq<int>, b: seq<int>)
    requires IsSorted(a) && IsSorted(b)
    requires multiset(a) == multiset(b)
    ensures a == b
  {
    if a == [] || b == [] {
      assert |multiset(a)| == |a| && |multiset(b)| == |b|;
    } else {
      SortedHeadsAgree(a, b);
      SortedUnique(a[1..], b[1..]);
      assert a == [a[0]] + a[1..];
      assert b == [b[0]] + b[1..];
    }
  }

  /** Python's `zip`: position-wise pairs up to the shorter list's end. */
  function Zip(l: seq<int>, r: seq<int>): (z: seq<(int, int)>)
    ensures |z| == Min(|l|, |r|)
    ensures forall k :: 0 <= k < |z| ==> z[k] == (l[k], r[k])
  {
    if l == [] || r == [] then [] else [(l[0], r[0])] + Zip(l[1..], r[1..])
  }

  function SumDistances(pairs: seq<(int, int)>): int
  {
    if pairs == [] then 0
    else SumDistances(pairs[..|pairs| - 1]) + Abs(pairs[|pairs| - 1].0 - pairs[|pairs| - 1].1)
  }

  /** The puzzle's total distance: pair the lists after sorting each. */
  function TotalDistance(left: seq<int>, right: seq<int>): int
  {
    SumDistances(Zip(Sort(left), Sort(right)))
  }

  lemma {:induction false} SumDistancesNonNegative(pairs: seq<(int, int)>)
    ensures SumDistances(pairs) >= 0
  {
    if pairs != [] {
      SumDistancesNonNegative(pairs[..|pairs| - 1]);
    }
  }

  lemma {:induction false} SumDistancesOfEqualPairs(pairs: seq<(int, int)>)
    requires forall k :: 0 <= k < |pairs| ==> pairs[k].0 == pairs[k].1
    ensures SumDistances(pairs) == 0
  {
    if pairs != [] {
      SumDistancesOfEqualPairs(pairs[..|pairs| - 1]);
    }
  }

  method Part1(left: seq<int>, right: seq<int>) returns (distances: int)
    ensures distances == TotalDistance(left, right)
    ensures distances >= 0
  {
    hide Sort, Insert, IsSorted;
    var l, r := Sort(left), Sort(right);
    var pairs := Zip(l, r);
    distances := 0;
    var i := 0;
    while i < |pairs|
      invariant 0 <= i <= |pairs|
      invariant distances == SumDistances(pairs[..i])
    {
      assert pairs[..i + 1][..i] == pairs[..i];
      distances := distances + Abs(pairs[i].0 - pairs[i].1);
      i := i + 1;
    }
    assert pairs[..i] == pairs;
    SumDistancesNonNegative(pairs);
  }

  /** Sorting first makes the total distance independent of the order of
      either list. */
  lemma TotalDistancePermutationInvariant(left: seq<int>, left': seq<int>, right: seq<int>, right': seq<int>)
    requires multiset(left) == multiset(left')
    requires multiset(right) == multiset(right')
    ensures TotalDistance(left, right) == TotalDistance(left', right')
  {
    SortedUnique(Sort(left), Sort(left'));
    SortedUnique(Sort(right), Sort(right'));
  }

  /** Two lists holding the same values are at distance zero. */
  lemma TotalDistanceOfPermutationIsZero(left: seq<int>, right: seq<int>)
    requires multiset(left) == multiset(right)
    ensures TotalDistance(left, right) == 0
  {
    SortedUnique(Sort(left), Sort(right));
    SumDistancesOfEqualPairs(Zip(Sort(left), Sort(right)));
  }

  /** Sum over the left list of each value times its count in `counts`.
      The right list enters only as the multiset of its values, so its
      order cannot change the result. */
  function Similarity(left: seq<int>, counts: multiset<int>): int
  {
    if left == [] then 0
    else Similarity(left[..|left| - 1], counts) + left[|left| - 1] * counts[left[|left| - 1]]
  }

  /** `Counter(right)` is the multiset of `right`. */
  method Part2(left: seq<int>, right: seq<int>) returns (similarity: int)
    ensures similarity == Similarity(left, multiset(right))
  {
    var counts := multiset(right);
    similarity := 0;
    var i := 0;
    while i < |left|
      invariant 0 <= i <= |left|
      invariant similarity == Similarity(left[..i], counts)
    {
      assert left[..i + 1][..i] == left[..i];
      similarity := similarity + left[i] * counts[left[i]];
      i := i + 1;
    }
    assert left[..i] == left;
  }

  /** No left value occurs on the right: similarity 0. */
  lemma {:induction false} SimilarityWithoutMatches(left: seq<int>, right: seq<int>)
    requires forall k :: 0 <= k < |left| ==> left[k] !in right
    ensures Similarity(left, multiset(right)) == 0
  {
    if left != [] {
      SimilarityWithoutMatches(left[..|left| - 1], right);
      assert multiset(right)[left[|left| - 1]] == 0;
    }
  }

  /** Removing one left value removes exactly its own term. */
  lemma {:induction false} SimilarityRemoveAt(left: seq<int>, counts: multiset<int>, i: nat)
    requires i < |left|
    ensures Similarity(left, counts) == Similarity(left[..i] + left[i + 1..], counts) + left[i] * counts[left[i]]
  {
    var n := |left| - 1;
    if i < n {
      var rest := left[..i] + left[i + 1..];
      assert rest[..|rest| - 1] == left[..n][..i] + left[..n][i + 1..];
      assert rest[|rest| - 1] == left[n];
      SimilarityRemoveAt(left[..n], counts, i);
    } else {
      assert left[..i] + left[i + 1..] == left[..n];
    }
  }

  /** Cutting position `i` out of `s` removes one copy of `s[i]` from its multiset. */
  lemma MultisetRemoveAt(s: seq<int>, i: nat)
    requires i < |s|
    ensures multiset(s[..i] + s[i + 1..]) == multiset(s) - multiset{s[i]}
  {
    assert s == s[..i] + [s[i]] + s[i + 1..];
  }

  /** The last value of `left'` occurs somewhere in `left`, and removing it there leaves the rest of `left'` up to order. */
  lemma MatchLast(left: seq<int>, left': seq<int>) returns (i: nat)
    requires multiset(left) == multiset(left') && left' != []
    ensures i < |left| && left[i] == left'[|left'| - 1]
    ensures multiset(left[..i] + left[i + 1..]) == multiset(left'[..|left'| - 1])
  {
    var n := |left'| - 1;
    assert left'[n] in multiset(left);
    i :| 0 <= i < |left| && left[i] == left'[n];
    MultisetRemoveAt(left', n);
    MultisetRemoveAt(left, i);
    assert left'[..n] + left'[n + 1..] == left'[..n];
  }

  lemma {:induction false} SimilarityIgnoresOrderOfLeft(left: seq<int>, left': seq<int>, counts: multiset<int>)
    requires multiset(left) == multiset(left')
    ensures Similarity(left, counts) == Similarity(left', counts)
  {
    if left' == [] {
      assert |left| == |multiset(left)| == 0;
    } else {
      var n := |left'| - 1;
      var i := MatchLast(left, left');
      SimilarityRemoveAt(left, counts, i);
      SimilarityIgnoresOrderOfLeft(left[..i] + left[i + 1..], left'[..n], counts);
    }
  }
}
