/**
 * The ranking block of the display loop: pair every located bus with its
 * distance from the stop, sort the pairs by distance with a stable sort, and
 * keep the buses.
 */
module Ranking {
  import opened Records
  import Seqs

  /** The (bus, distance) tuple the loop appends. */
  datatype BusWithDistance = BusWithDistance(bus: Bus, distance: real)

  /** The pairs the loop builds: one per bus that has a location, in input order. */
  function WithDistances(buses: seq<Bus>, stop: BusStop, geo: GeoMath): (pairs: seq<BusWithDistance>)
    ensures |pairs| <= |buses|
  {
    if buses == [] then []
    else
      var bus := buses[|buses| - 1];
      WithDistances(buses[..|buses| - 1], stop, geo)
        + (if bus.location.Some? then [BusWithDistance(bus, DistanceFromBus(stop, bus, geo))] else [])
  }

  /** The projection `[bus for bus, _ in pairs]`. */
  function Buses(pairs: seq<BusWithDistance>): (buses: seq<Bus>)
    ensures |buses| == |pairs|
    ensures forall i :: 0 <= i < |pairs| ==> buses[i] == pairs[i].bus
  {
    if pairs == [] then [] else Buses(pairs[..|pairs| - 1]) + [pairs[|pairs| - 1].bus]
  }

  ghost predicate SortedByDistance(s: seq<BusWithDistance>) {
    forall i, j :: 0 <= i < j < |s| ==> s[i].distance <= s[j].distance
  }

  /** Insert x into t behind every element whose distance is at most x's,
      scanning from the right as the inner loop of insertion sort does. */
  function Insert(t: seq<BusWithDistance>, x: BusWithDistance): (r: seq<BusWithDistance>)
    ensures |r| == |t| + 1
  {
    if t == [] || t[|t| - 1].distance <= x.distance then t + [x]
    else Insert(t[..|t| - 1], x) + [t[|t| - 1]]
  }

  /** Stable sort by distance, as list.sort(key=distance) computes it. */
  function InsertionSorted(s: seq<BusWithDistance>): (r: seq<BusWithDistance>)
    ensures |r| == |s|
  {
    if s == [] then [] else Insert(InsertionSorted(s[..|s| - 1]), s[|s| - 1])
  }

  /** Selects the pairs at one exact distance: the ties a stable sort must keep in order. */
  function DistanceIs(d: real): BusWithDistance -> bool {
    (e: BusWithDistance) => e.distance == d
  }

  lemma {:induction false} InsertMultiset(t: seq<BusWithDistance>, x: BusWithDistance)
    ensures multiset(Insert(t, x)) == multiset(t) + multiset{x}
  {
    if t != [] && t[|t| - 1].distance > x.distance {
      InsertMultiset(t[..|t| - 1], x);
      assert t == t[..|t| - 1] + [t[|t| - 1]];
    }
  }

  lemma {:induction false} InsertSorted(t: seq<BusWithDistance>, x: BusWithDistance)
    requires SortedByDistance(t)
    ensures SortedByDistance(Insert(t, x))
  {
    if t != [] && t[|t| - 1].distance > x.distance {
      var init, last := t[..|t| - 1], t[|t| - 1];
      InsertSorted(init, x);
      InsertMultiset(init, x);
      var u := Insert(init, x);
      forall i | 0 <= i < |u| ensures u[i].distance <= last.distance {
        assert u[i] in multiset(u);
        if u[i] != x {
          assert u[i] in init;
        }
      }
      SortedSnoc(u, last);
    }
  }

  /** A sorted sequence stays sorted when an element no nearer than all of it is appended. */
  lemma SortedSnoc(u: seq<BusWithDistance>, e: BusWithDistance)
    requires SortedByDistance(u)
    requires forall i :: 0 <= i < |u| ==> u[i].distance <= e.distance
    ensures SortedByDistance(u + [e])
  {
  }

  /** Inserting x keeps every class of equal distances in order and puts x last in its class. */
  lemma {:induction false} InsertStable(t: seq<BusWithDistance>, x: BusWithDistance, d: real)
    ensures Seqs.Filter(Insert(t, x), DistanceIs(d))
      == Seqs.Filter(t, DistanceIs(d)) + (if x.distance == d then [x] else [])
  {
    if t == [] || t[|t| - 1].distance <= x.distance {
      Seqs.FilterSnoc(t, x, DistanceIs(d));
    } else {
      var init, last := t[..|t| - 1], t[|t| - 1];
      InsertStable(init, x, d);
      assert t == init + [last];
      FilterPastFarther(Insert(init, x), init, last, x, d);
    }
  }

  /** Appending an element farther than x to both sides keeps x last in its class. */
  lemma FilterPastFarther(u: seq<BusWithDistance>, init: seq<BusWithDistance>, last: BusWithDistance,
                          x: BusWithDistance, d: real)
    requires last.distance > x.distance
    requires Seqs.Filter(u, DistanceIs(d)) == Seqs.Filter(init, DistanceIs(d)) + (if x.distance == d then [x] else [])
    ensures Seqs.Filter(u + [last], DistanceIs(d))
      == Seqs.Filter(init + [last], DistanceIs(d)) + (if x.distance == d then [x] else [])
  {
    Seqs.FilterSnoc(u, last, DistanceIs(d));
    Seqs.FilterSnoc(init, last, DistanceIs(d));
  }

  lemma {:induction false} InsertionSortedPermutes(s: seq<BusWithDistance>)
    ensures multiset(InsertionSorted(s)) == multiset(s)
  {
    if s != [] {
      var init, e := s[..|s| - 1], s[|s| - 1];
      InsertionSortedPermutes(init);
      InsertMultiset(InsertionSorted(init), e);
      assert multiset(s) == multiset(init) + multiset{e} by {
        assert s == init + [e];
      }
    }
  }

  lemma {:induction false} InsertionSortedSorts(s: seq<BusWithDistance>)
    ensures SortedByDistance(InsertionSorted(s))
  {
    if s != [] {
      InsertionSortedSorts(s[..|s| - 1]);
      InsertSorted(InsertionSorted(s[..|s| - 1]), s[|s| - 1]);
    }
  }

  /** Stability: pairs at equal distance leave the sort in the order they entered it. */
  lemma {:induction false} InsertionSortedStable(s: seq<BusWithDistance>, d: real)
    ensures Seqs.Filter(InsertionSorted(s), DistanceIs(d)) == Seqs.Filter(s, DistanceIs(d))
  {
    if s != [] {
      InsertionSortedStable(s[..|s| - 1], d);
      InsertStable(InsertionSorted(s[..|s| - 1]), s[|s| - 1], d);
    }
  }

  /** Insert places x right after the last element not farther than x. */
  lemma {:induction false} InsertAt(t: seq<BusWithDistance>, j: int, x: BusWithDistance)
    requires 0 <= j <= |t| && (j == 0 || t[j - 1].distance <= x.distance)
    requires forall k :: j <= k < |t| ==> t[k].distance > x.distance
    ensures Insert(t, x) == t[..j] + [x] + t[j..]
    decreases |t|
  {
    if j < |t| {
      var init, last := t[..|t| - 1], t[|t| - 1];
      InsertAt(init, j, x);
      assert init[..j] == t[..j] && init[j..] + [last] == t[j..];
    } else {
      assert t[..j] == t && t[j..] == [];
    }
  }

  /** The inner loop of insertion sort: a[..i] is sorted, and a[i] is moved
      left past every element that is strictly farther. */
  method InsertInPlace(a: array<BusWithDistance>, i: int)
    requires 0 <= i < a.Length
    modifies a
    ensures a[..i + 1] == Insert(old(a[..i]), old(a[i]))
    ensures a[i + 1..] == old(a[i + 1..])
  {
    ghost var t := a[..i];
    var x := a[i];
    var j := i;
    while j > 0 && a[j - 1].distance > x.distance
      invariant 0 <= j <= i
      invariant forall k :: 0 <= k < j ==> a[k] == t[k]
      invariant forall k :: j < k <= i ==> a[k] == t[k - 1]
      invariant forall k :: i < k < a.Length ==> a[k] == old(a[k])
      invariant forall k :: j <= k < i ==> t[k].distance > x.distance
    {
      a[j] := a[j - 1];
      j := j - 1;
    }
    a[j] := x;
    ShiftedInsert(a[..], t, j, x);
  }

  /** The array contents after the inner loop: t with x placed at j. */
  lemma ShiftedInsert(cur: seq<BusWithDistance>, t: seq<BusWithDistance>, j: int, x: BusWithDistance)
    requires 0 <= j <= |t| < |cur| && cur[j] == x
    requires forall k :: 0 <= k < j ==> cur[k] == t[k]
    requires forall k :: j < k <= |t| ==> cur[k] == t[k - 1]
    requires j == 0 || t[j - 1].distance <= x.distance
    requires forall k :: j <= k < |t| ==> t[k].distance > x.distance
    ensures cur[..|t| + 1] == Insert(t, x)
  {
    InsertAt(t, j, x);
    assert cur[..|t| + 1] == t[..j] + [x] + t[j..];
  }

  /** In-place insertion sort of the list of pairs (the list.sort call). */
  method SortByDistance(a: array<BusWithDistance>)
    modifies a
    ensures a[..] == InsertionSorted(old(a[..]))
  {
    ghost var s := a[..];
    for i := 0 to a.Length
      invariant a[..i] == InsertionSorted(s[..i])
      invariant a[i..] == s[i..]
    {
      assert s[..i + 1][..i] == s[..i];
      InsertInPlace(a, i);
    }
    assert s[..a.Length] == s;
  }

  /** Sortedness and stability determine the result: every stable sort by
      distance (Python's list.sort among them) returns InsertionSorted(s). */
  lemma StableSortUnique(s: seq<BusWithDistance>, r: seq<BusWithDistance>)
    requires SortedByDistance(r)
    requires forall d :: Seqs.Filter(r, DistanceIs(d)) == Seqs.Filter(s, DistanceIs(d))
    ensures r == InsertionSorted(s)
  {
    var q := InsertionSorted(s);
    InsertionSortedSorts(s);
    forall d ensures Seqs.Filter(r, DistanceIs(d)) == Seqs.Filter(q, DistanceIs(d)) {
      InsertionSortedStable(s, d);
    }
    SameClassesSame(r, q);
  }

  /** Two sorted lists with the same class of pairs at every distance are equal. */
  lemma {:induction false} SameClassesSame(r1: seq<BusWithDistance>, r2: seq<BusWithDistance>)
    requires SortedByDistance(r1) && SortedByDistance(r2)
    requires forall d :: Seqs.Filter(r1, DistanceIs(d)) == Seqs.Filter(r2, DistanceIs(d))
    ensures r1 == r2
    decreases |r1|
  {
    if r1 == [] {
      NoClassesEmpty(r2, r1);
    } else if r2 == [] {
      NoClassesEmpty(r1, r2);
    } else {
      var k := r1[|r1| - 1].distance;
      LastIsFarthest(r1, r2, k);
      LastIsFarthest(r2, r1, r2[|r2| - 1].distance);
      DropLastClass(r1, r2);
      SameClassesSame(r1[..|r1| - 1], r2[..|r2| - 1]);
      assert r1 == r1[..|r1| - 1] + [r1[|r1| - 1]];
      assert r2 == r2[..|r2| - 1] + [r2[|r2| - 1]];
    }
  }

  /** A list whose every class is empty, because it matches the empty list's, is empty. */
  lemma NoClassesEmpty(r: seq<BusWithDistance>, empty: seq<BusWithDistance>)
    requires empty == []
    requires forall d :: Seqs.Filter(empty, DistanceIs(d)) == Seqs.Filter(r, DistanceIs(d))
    ensures r == []
  {
    if r != [] {
      var e := r[0];
      var p := DistanceIs(e.distance);
      assert Seqs.Filter(empty, p) == [];
      assert e in r && p(e);
      Seqs.FilterMembers(r, p);
      assert false;
    }
  }

  /** Lists with equal classes that end at the same distance end in the same
      pair, and what precedes it has equal classes again. */
  lemma DropLastClass(r1: seq<BusWithDistance>, r2: seq<BusWithDistance>)
    requires r1 != [] && r2 != [] && r1[|r1| - 1].distance == r2[|r2| - 1].distance
    requires forall d :: Seqs.Filter(r1, DistanceIs(d)) == Seqs.Filter(r2, DistanceIs(d))
    ensures r1[|r1| - 1] == r2[|r2| - 1]
    ensures forall d :: Seqs.Filter(r1[..|r1| - 1], DistanceIs(d)) == Seqs.Filter(r2[..|r2| - 1], DistanceIs(d))
  {
    var k := r1[|r1| - 1].distance;
    LastClassSame(r1, r2);
    forall d ensures Seqs.Filter(r1[..|r1| - 1], DistanceIs(d)) == Seqs.Filter(r2[..|r2| - 1], DistanceIs(d)) {
      if d != k {
        OtherClassSame(r1, r2, d);
      }
    }
  }

  /** The class both lists end at: its last pairs agree, and so do the pairs before them. */
  lemma LastClassSame(r1: seq<BusWithDistance>, r2: seq<BusWithDistance>)
    requires r1 != [] && r2 != [] && r1[|r1| - 1].distance == r2[|r2| - 1].distance
    requires Seqs.Filter(r1, DistanceIs(r1[|r1| - 1].distance)) == Seqs.Filter(r2, DistanceIs(r1[|r1| - 1].distance))
    ensures r1[|r1| - 1] == r2[|r2| - 1]
    ensures Seqs.Filter(r1[..|r1| - 1], DistanceIs(r1[|r1| - 1].distance))
      == Seqs.Filter(r2[..|r2| - 1], DistanceIs(r1[|r1| - 1].distance))
  {
    var k := r1[|r1| - 1].distance;
    ClassSplit(r1, k);
    ClassSplit(r2, k);
    SnocInjective(Seqs.Filter(r1[..|r1| - 1], DistanceIs(k)), r1[|r1| - 1], Seqs.Filter(r2[..|r2| - 1], DistanceIs(k)), r2[|r2| - 1]);
  }

  /** A class at a distance neither list ends at is unchanged by dropping the last pairs. */
  lemma OtherClassSame(r1: seq<BusWithDistance>, r2: seq<BusWithDistance>, d: real)
    requires r1 != [] && r2 != [] && r1[|r1| - 1].distance != d && r2[|r2| - 1].distance != d
    requires Seqs.Filter(r1, DistanceIs(d)) == Seqs.Filter(r2, DistanceIs(d))
    ensures Seqs.Filter(r1[..|r1| - 1], DistanceIs(d)) == Seqs.Filter(r2[..|r2| - 1], DistanceIs(d))
  {
    ClassSplit(r1, d);
    ClassSplit(r2, d);
  }

  /** The class at distance d of a non-empty list, split at its last pair. */
  lemma ClassSplit(r: seq<BusWithDistance>, d: real)
    requires r != []
    ensures Seqs.Filter(r, DistanceIs(d))
      == Seqs.Filter(r[..|r| - 1], DistanceIs(d)) + (if r[|r| - 1].distance == d then [r[|r| - 1]] else [])
    ensures r[|r| - 1].distance != d ==> Seqs.Filter(r, DistanceIs(d)) == Seqs.Filter(r[..|r| - 1], DistanceIs(d))
  {
    if r[|r| - 1].distance != d {
      assert Seqs.Filter(r[..|r| - 1], DistanceIs(d)) + [] == Seqs.Filter(r[..|r| - 1], DistanceIs(d));
    }
  }

  lemma SnocInjective<T>(a: seq<T>, x: T, b: seq<T>, y: T)
    requires a + [x] == b + [y]
    ensures a == b && x == y
  {
    assert a == (a + [x])[..|a|] && b == (b + [y])[..|b|];
    assert x == (a + [x])[|a|] && y == (b + [y])[|b|];
  }

  /** If the class at distance k of a is non-empty, then b reaches at least k. */
  lemma LastIsFarthest(a: seq<BusWithDistance>, b: seq<BusWithDistance>, k: real)
    requires a != [] && b != [] && SortedByDistance(b)
    requires a[|a| - 1].distance == k
    requires Seqs.Filter(a, DistanceIs(k)) == Seqs.Filter(b, DistanceIs(k))
    ensures k <= b[|b| - 1].distance
  {
    Seqs.FilterMembers(a, DistanceIs(k));
    Seqs.FilterMembers(b, DistanceIs(k));
    assert a[|a| - 1] in Seqs.Filter(b, DistanceIs(k));
    var i :| 0 <= i < |b| && b[i] == a[|a| - 1];
  }

  /** Selects the buses at one exact distance from the stop. */
  function BusAtDistance(stop: BusStop, geo: GeoMath, d: real): Bus -> bool {
    (b: Bus) => b.location.Some? && DistanceFromBus(stop, b, geo) == d
  }

  /** Every pair carries its own bus's distance. */
  ghost predicate Consistent(pairs: seq<BusWithDistance>, stop: BusStop, geo: GeoMath) {
    forall e :: e in pairs ==> e.bus.location.Some? && e.distance == DistanceFromBus(stop, e.bus, geo)
  }

  lemma {:induction false} WithDistancesFacts(buses: seq<Bus>, stop: BusStop, geo: GeoMath)
    ensures Consistent(WithDistances(buses, stop, geo), stop, geo)
    ensures Buses(WithDistances(buses, stop, geo)) == Seqs.Filter(buses, HasLocation)
  {
    if buses != [] {
      WithDistancesFacts(buses[..|buses| - 1], stop, geo);
    }
  }

  lemma ConsistentPermutation(s: seq<BusWithDistance>, t: seq<BusWithDistance>, stop: BusStop, geo: GeoMath)
    requires Consistent(s, stop, geo) && multiset(s) == multiset(t)
    ensures Consistent(t, stop, geo)
  {
    forall e | e in t ensures e in s {
      assert e in multiset(t);
    }
  }

  lemma {:induction false} BusesAtDistance(pairs: seq<BusWithDistance>, stop: BusStop, geo: GeoMath, d: real)
    requires Consistent(pairs, stop, geo)
    ensures Seqs.Filter(Buses(pairs), BusAtDistance(stop, geo, d)) == Buses(Seqs.Filter(pairs, DistanceIs(d)))
  {
    if pairs != [] {
      var init, last := pairs[..|pairs| - 1], pairs[|pairs| - 1];
      assert pairs == init + [last];
      BusesAtDistance(init, stop, geo, d);
      Seqs.FilterSnoc(Buses(init), last.bus, BusAtDistance(stop, geo, d));
      Seqs.FilterSnoc(init, last, DistanceIs(d));
      assert Buses(pairs) == Buses(init) + [last.bus];
      assert last in pairs;
      if last.distance == d {
        assert Buses(Seqs.Filter(init, DistanceIs(d)) + [last]) == Buses(Seqs.Filter(init, DistanceIs(d))) + [last.bus];
      } else {
        assert Seqs.Filter(init, DistanceIs(d)) + [] == Seqs.Filter(init, DistanceIs(d));
      }
    }
  }

  /** The ranked list: the located buses ascending by distance, ties in input order. */
  function RankedBuses(filteredBuses: seq<Bus>, stop: BusStop, geo: GeoMath): (ranked: seq<Bus>)
    ensures |ranked| <= |filteredBuses|
  {
    Buses(InsertionSorted(WithDistances(filteredBuses, stop, geo)))
  }

  method SortBusesByDistance(filteredBuses: seq<Bus>, stop: BusStop, geo: GeoMath) returns (sortedBuses: seq<Bus>)
    ensures sortedBuses == RankedBuses(filteredBuses, stop, geo)
  {
    var busesWithDistance: seq<BusWithDistance> := [];
    for i := 0 to |filteredBuses|
      invariant busesWithDistance == WithDistances(filteredBuses[..i], stop, geo)
    {
      var bus := filteredBuses[i];
      assert filteredBuses[..i + 1][..i] == filteredBuses[..i];
      if bus.location.Some? {
        var distance := DistanceFromBus(stop, bus, geo);
        busesWithDistance := busesWithDistance + [BusWithDistance(bus, distance)];
      }
    }
    assert filteredBuses[..|filteredBuses|] == filteredBuses;
    var a := new BusWithDistance[|busesWithDistance|](k requires 0 <= k < |busesWithDistance| => busesWithDistance[k]);
    assert a[..] == busesWithDistance;
    SortByDistance(a);
    sortedBuses := Buses(a[..]);
  }

  /** Only located buses are ranked, in ascending order of distance. */
  lemma RankedSorted(filteredBuses: seq<Bus>, stop: BusStop, geo: GeoMath)
    ensures var r := RankedBuses(filteredBuses, stop, geo);
      forall i, j :: 0 <= i < j < |r| ==>
        r[i].location.Some? && r[j].location.Some? && DistanceFromBus(stop, r[i], geo) <= DistanceFromBus(stop, r[j], geo)
    ensures forall b :: b in RankedBuses(filteredBuses, stop, geo) ==> b.location.Some?
  {
    var pairs := WithDistances(filteredBuses, stop, geo);
    var sorted := InsertionSorted(pairs);
    WithDistancesFacts(filteredBuses, stop, geo);
    InsertionSortedPermutes(pairs);
    InsertionSortedSorts(pairs);
    ConsistentPermutation(pairs, sorted, stop, geo);
    var r := Buses(sorted);
    forall i | 0 <= i < |r| ensures r[i].location.Some? && sorted[i].distance == DistanceFromBus(stop, r[i], geo) {
      assert sorted[i] in sorted;
    }
  }

  /** Stability at bus level: the buses at any one distance appear in the ranked
      list in the order they had among the located input buses. */
  lemma RankedStable(filteredBuses: seq<Bus>, stop: BusStop, geo: GeoMath, d: real)
    ensures Seqs.Filter(RankedBuses(filteredBuses, stop, geo), BusAtDistance(stop, geo, d))
      == Seqs.Filter(Seqs.Filter(filteredBuses, HasLocation), BusAtDistance(stop, geo, d))
  {
    var pairs := WithDistances(filteredBuses, stop, geo);
    var sorted := InsertionSorted(pairs);
    WithDistancesFacts(filteredBuses, stop, geo);
    InsertionSortedPermutes(pairs);
    ConsistentPermutation(pairs, sorted, stop, geo);
    BusesAtDistance(sorted, stop, geo, d);
    InsertionSortedStable(pairs, d);
    BusesAtDistance(pairs, stop, geo, d);
  }

  /** The ranked list is a permutation of the input buses that have a location. */
  lemma RankedPermutation(filteredBuses: seq<Bus>, stop: BusStop, geo: GeoMath)
    ensures multiset(RankedBuses(filteredBuses, stop, geo)) == multiset(Seqs.Filter(filteredBuses, HasLocation))
  {
    var r := RankedBuses(filteredBuses, stop, geo);
    var located := Seqs.Filter(filteredBuses, HasLocation);
    RankedSorted(filteredBuses, stop, geo);
    Seqs.FilterMultiplicity(filteredBuses, HasLocation);
    forall x: Bus ensures multiset(r)[x] == multiset(located)[x] {
      if x.location.Some? {
        var d := DistanceFromBus(stop, x, geo);
        RankedStable(filteredBuses, stop, geo, d);
        Seqs.FilterMultiplicity(r, BusAtDistance(stop, geo, d));
        Seqs.FilterMultiplicity(located, BusAtDistance(stop, geo, d));
      } else {
        assert x !in r;
      }
    }
    assert multiset(r) == multiset(located);
  }

  /** Ranking keeps exactly the buses that have a location. */
  lemma RankedLocatedMembers(filtered: seq<Bus>, stop: BusStop, geo: GeoMath)
    ensures forall b :: b in RankedBuses(filtered, stop, geo) <==> b in filtered && b.location.Some?
  {
    Seqs.FilterMembers(filtered, HasLocation);
    RankedPermutation(filtered, stop, geo);
    forall b ensures b in RankedBuses(filtered, stop, geo) <==> b in Seqs.Filter(filtered, HasLocation) {
      assert b in RankedBuses(filtered, stop, geo) <==> b in multiset(RankedBuses(filtered, stop, geo));
    }
  }
}
