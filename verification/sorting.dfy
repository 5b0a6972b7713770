/**
 Ascending sort of a per-pixel array of reals (Earth Engine `arraySort`),
 as insertion sort: the result is sorted, a permutation of the input, and
 keeps the sum and the minimum.
 */
module Sorting {
  import opened Reals

  predicate Sorted(s: seq<real>)
  {
    forall i, j :: 0 <= i < j < |s| ==> s[i] <= s[j]
  }

  /** `x` placed before the first entry of `s` that is not smaller. */
  function Insert(x: real, s: seq<real>): (r: seq<real>)
    ensures |r| == |s| + 1
    ensures multiset(r) == multiset(s) + multiset{x}
  {
    if |s| == 0 then [x]
    else if x <= s[0] then [x] + s
    else
      assert s == [s[0]] + s[1..];
      [s[0]] + Insert(x, s[1..])
  }

  /** Inserting into a sorted sequence keeps it sorted. */
  lemma {:induction false} InsertSorted(x: real, s: seq<real>)
    requires Sorted(s)
    ensures Sorted(Insert(x, s))
  {
    if |s| > 0 && s[0] < x {
      var rest := Insert(x, s[1..]);
      InsertSorted(x, s[1..]);
      LowerBoundKept(rest, s[1..] + [x], s[0]);
      assert Insert(x, s) == [s[0]] + rest;
    }
  }

  /** A lower bound of every entry is one of every entry of any permutation. */
  lemma LowerBoundKept(r: seq<real>, s: seq<real>, b: real)
    requires multiset(r) == multiset(s)
    requires forall k :: 0 <= k < |s| ==> b <= s[k]
    ensures forall k :: 0 <= k < |r| ==> b <= r[k]
  {
    forall k | 0 <= k < |r|
      ensures b <= r[k]
    {
      assert r[k] in multiset(s);
    }
  }

  function Sort(s: seq<real>): (r: seq<real>)
    ensures |r| == |s|
    ensures Sorted(r)
    ensures multiset(r) == multiset(s)
  {
    if |s| == 0 then []
    else
      assert s == [s[0]] + s[1..];
      InsertSorted(s[0], Sort(s[1..]));
      Insert(s[0], Sort(s[1..]))
  }

  /** Inserting adds the inserted value to the sum. */
  lemma {:induction false} SumInsert(x: real, s: seq<real>)
    ensures Sum(Insert(x, s)) == x + Sum(s)
  {
    if |s| > 0 && s[0] < x {
      SumInsert(x, s[1..]);
      assert Insert(x, s)[1..] == Insert(x, s[1..]);
    }
  }

  /** Sorting keeps the sum. */
  lemma {:induction false} SortSum(s: seq<real>)
    ensures Sum(Sort(s)) == Sum(s)
  {
    if |s| > 0 {
      SortSum(s[1..]);
      SumInsert(s[0], Sort(s[1..]));
    }
  }

  /** The first sorted entry is the minimum. */
  lemma SortFirst(s: seq<real>)
    requires |s| > 0
    ensures Sort(s)[0] == MinOf(s)
  {
    var r := Sort(s);
    assert r[0] in multiset(s);
    assert MinOf(s) in multiset(r);
    var k :| 0 <= k < |r| && r[k] == MinOf(s);
  }
}
