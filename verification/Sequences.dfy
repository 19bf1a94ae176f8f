/** Swap-and-pop, the removal used by every enumeration of the contracts, and what it does to the contents. */
module Sequences {

  ghost predicate Distinct<T>(s: seq<T>) {
    forall i, j :: 0 <= i < j < |s| ==> s[i] != s[j]
  }

  ghost function ToSet<T>(s: seq<T>): set<T> {
    set v | v in s
  }

  /** Moves the last element into slot `i` and drops the last slot. */
  function SwapRemove<T>(s: seq<T>, i: nat): seq<T>
    requires i < |s|
  {
    s[i := s[|s| - 1]][..|s| - 1]
  }

  lemma SwapRemoveMultiset<T>(s: seq<T>, i: nat)
    requires i < |s|
    ensures multiset(SwapRemove(s, i)) == multiset(s) - multiset{s[i]}
  {
    var last := s[|s| - 1];
    assert s[i := last] == SwapRemove(s, i) + [last];
    assert multiset(s[i := last]) == multiset(s) - multiset{s[i]} + multiset{last};
    MultisetCancel(multiset(SwapRemove(s, i)), multiset(s) - multiset{s[i]}, last);
  }

  lemma MultisetCancel<T>(a: multiset<T>, b: multiset<T>, x: T)
    requires a + multiset{x} == b + multiset{x}
    ensures a == b
  {
    forall y
      ensures a[y] == b[y]
    {
      assert (a + multiset{x})[y] == (b + multiset{x})[y];
    }
  }

  lemma SwapRemoveDistinct<T>(s: seq<T>, i: nat)
    requires i < |s| && Distinct(s)
    ensures Distinct(SwapRemove(s, i))
    ensures forall v :: v in SwapRemove(s, i) <==> v in s && v != s[i]
  {
    var r := SwapRemove(s, i);
    forall v | v in s && v != s[i]
      ensures v in r
    {
      var k :| 0 <= k < |s| && s[k] == v;
      assert if k == |s| - 1 then r[i] == v else r[k] == v;
    }
  }

  /** A repetition-free sequence has as many entries as elements. */
  lemma {:induction false} DistinctCardinality<T>(s: seq<T>)
    requires Distinct(s)
    ensures |ToSet(s)| == |s|
  {
    if s != [] {
      var n := |s| - 1;
      DistinctCardinality(s[..n]);
      assert s == s[..n] + [s[n]];
      assert ToSet(s) == ToSet(s[..n]) + {s[n]};
    } else {
      assert ToSet(s) == {};
    }
  }

  /** An initial segment of the naturals bounds the size of a set of naturals below it. */
  lemma {:induction false} BoundedSetCardinality(s: set<nat>, n: nat)
    requires forall x :: x in s ==> x < n
    ensures |s| <= n
  {
    if n == 0 {
      assert s == {};
    } else {
      BoundedSetCardinality(s - {n - 1}, n - 1);
    }
  }

  lemma {:induction false} ToSetBound<T>(s: seq<T>)
    ensures |ToSet(s)| <= |s|
  {
    if s != [] {
      var n := |s| - 1;
      ToSetBound(s[..n]);
      assert s == s[..n] + [s[n]];
      assert ToSet(s) == ToSet(s[..n]) + {s[n]};
    } else {
      assert ToSet(s) == {};
    }
  }

  /** Removing one of two equal entries loses no element. */
  lemma RepetitionWastesASlot<T>(s: seq<T>, i: nat, j: nat)
    requires i < j < |s| && s[i] == s[j]
    ensures |ToSet(s)| < |s|
  {
    var r := s[..j] + s[j + 1..];
    assert s == s[..j] + [s[j]] + s[j + 1..];
    assert r[i] == s[j];
    assert ToSet(s) == ToSet(r);
    ToSetBound(r);
  }

  lemma SubsetCardinality<T>(a: set<T>, b: set<T>)
    requires a <= b
    ensures |a| <= |b| && (|a| == |b| ==> a == b)
  {
    assert b == a + (b - a);
  }

  /** A list no longer than a set it covers lists it exactly, without repetition. */
  lemma ExactCover<T>(s: seq<T>, elements: set<T>)
    requires |s| == |elements| && forall x :: x in elements ==> x in s
    ensures Distinct(s) && ToSet(s) == elements
  {
    ToSetBound(s);
    SubsetCardinality(elements, ToSet(s));
    forall i, j | 0 <= i < j < |s|
      ensures s[i] != s[j]
    {
      if s[i] == s[j] {
        RepetitionWastesASlot(s, i, j);
      }
    }
  }
}
