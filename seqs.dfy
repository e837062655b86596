/**
 * Order-preserving filtering of sequences. Every list filter of the bus
 * pipeline (freshness, direction, "has a location") is an instance of Filter.
 */
module Seqs {

  /** The elements of s that satisfy p, in their original order. Defined on
      the last element, as a loop that appends to a result list builds it. */
  function Filter<T>(s: seq<T>, p: T -> bool): (r: seq<T>)
    ensures |r| <= |s|
  {
    if s == [] then []
    else Filter(s[..|s| - 1], p) + (if p(s[|s| - 1]) then [s[|s| - 1]] else [])
  }

  /** Filter of a sequence grown by one element at the end. */
  lemma FilterSnoc<T>(s: seq<T>, e: T, p: T -> bool)
    ensures Filter(s + [e], p) == Filter(s, p) + (if p(e) then [e] else [])
  {
    assert (s + [e])[..|s|] == s;
  }

  /** idx lists, in strictly increasing order, the positions of b that a picks. */
  ghost predicate Embeds<T>(idx: seq<int>, a: seq<T>, b: seq<T>) {
    && |idx| == |a|
    && (forall i :: 0 <= i < |idx| ==> 0 <= idx[i] < |b| && a[i] == b[idx[i]])
    && (forall i, j :: 0 <= i < j < |idx| ==> idx[i] < idx[j])
  }

  /** a is obtained from b by deleting elements, keeping the order of the rest. */
  ghost predicate Subsequence<T>(a: seq<T>, b: seq<T>) {
    exists idx :: Embeds(idx, a, b)
  }

  /** The positions of s that Filter keeps. */
  ghost function FilterPositions<T>(s: seq<T>, p: T -> bool): (idx: seq<int>)
    ensures Embeds(idx, Filter(s, p), s)
  {
    if s == [] then []
    else
      var init, last := s[..|s| - 1], s[|s| - 1];
      var rest := FilterPositions(init, p);
      var idx := rest + (if p(last) then [|s| - 1] else []);
      var kept := Filter(init, p) + (if p(last) then [last] else []);
      assert forall i :: 0 <= i < |rest| ==> 0 <= idx[i] < |s| && kept[i] == s[idx[i]];
      idx
  }

  lemma FilterIsSubsequence<T>(s: seq<T>, p: T -> bool)
    ensures Subsequence(Filter(s, p), s)
  {
    var idx := FilterPositions(s, p);
  }

  /** Filter keeps every element satisfying p as often as it occurs, and no other. */
  lemma {:induction false} FilterMultiplicity<T>(s: seq<T>, p: T -> bool)
    ensures forall x :: multiset(Filter(s, p))[x] == if p(x) then multiset(s)[x] else 0
  {
    if s != [] {
      var init, last := s[..|s| - 1], s[|s| - 1];
      FilterMultiplicity(init, p);
      assert s == init + [last];
    }
  }

  lemma FilterMembers<T>(s: seq<T>, p: T -> bool)
    ensures forall x :: x in Filter(s, p) <==> x in s && p(x)
  {
    FilterMultiplicity(s, p);
    forall x ensures x in Filter(s, p) <==> x in s && p(x) {
      assert x in Filter(s, p) <==> multiset(Filter(s, p))[x] > 0;
      assert x in s <==> multiset(s)[x] > 0;
    }
  }

  lemma {:induction false} FilterAppend<T>(a: seq<T>, b: seq<T>, p: T -> bool)
    ensures Filter(a + b, p) == Filter(a, p) + Filter(b, p)
  {
    if b == [] {
      assert a + b == a;
    } else {
      var init, last := b[..|b| - 1], b[|b| - 1];
      var tail := if p(last) then [last] else [];
      FilterAppend(a, init, p);
      assert (a + b)[..|a + b| - 1] == a + init;
      assert (a + b)[|a + b| - 1] == last;
      calc {
        Filter(a + b, p);
        Filter(a + init, p) + tail;
        Filter(a, p) + Filter(init, p) + tail;
        Filter(a, p) + (Filter(init, p) + tail);
        Filter(a, p) + Filter(b, p);
      }
    }
  }

  /** A filter whose predicate holds everywhere changes nothing. */
  lemma {:induction false} FilterAll<T>(s: seq<T>, p: T -> bool)
    requires forall x :: x in s ==> p(x)
    ensures Filter(s, p) == s
  {
    if s != [] {
      FilterAll(s[..|s| - 1], p);
      assert s == s[..|s| - 1] + [s[|s| - 1]];
    }
  }

  /** Filters by predicates that agree on the elements of s are equal. */
  lemma {:induction false} FilterCongruent<T>(s: seq<T>, p: T -> bool, q: T -> bool)
    requires forall x :: x in s ==> p(x) == q(x)
    ensures Filter(s, p) == Filter(s, q)
  {
    if s != [] {
      FilterCongruent(s[..|s| - 1], p, q);
      assert s[|s| - 1] in s;
    }
  }
}
