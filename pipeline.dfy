/**
 * One poll cycle of run_display_loop, without the fetch, the console output
 * and the sleep: freshness filter, direction filter, ranking and the rows.
 */
module Pipeline {
  import opened Records
  import opened Direction
  import opened Freshness
  import opened Ranking
  import opened Display
  import Seqs

  /** The fixed 15-minute freshness limit of the display loop is used. */
  method RunCycle(buses: seq<Bus>, stop: BusStop, cardinalFilter: string, now: int, geo: GeoMath)
    returns (freshBuses: seq<Bus>, filteredBuses: seq<Bus>, sortedBuses: seq<Bus>, rows: seq<Row>)
    ensures freshBuses == Seqs.Filter(buses, IsFreshBus(now, DefaultMaxAgeMinutes))
    ensures cardinalFilter == "" ==> filteredBuses == freshBuses
    ensures cardinalFilter != "" ==> filteredBuses == Seqs.Filter(freshBuses, KeepsBus(stop, cardinalFilter, geo))
    ensures sortedBuses == RankedBuses(filteredBuses, stop, geo)
    ensures |rows| == |TopBuses(sortedBuses)|
    ensures forall k :: 0 <= k < |rows| ==>
      sortedBuses[k].location.Some? && rows[k] == RowFor(k, sortedBuses[k], stop, geo)
  {
    freshBuses := FilterBusesByFreshness(buses, now, DefaultMaxAgeMinutes);
    filteredBuses := FilterBusesByDirection(freshBuses, stop, cardinalFilter, geo);
    sortedBuses := SortBusesByDistance(filteredBuses, stop, geo);
    RankedSorted(filteredBuses, stop, geo);
    rows := DisplayBusesOnOled(sortedBuses, stop, geo);
  }

  /** The buses the freshness and direction filters pass on. */
  function Filtered(buses: seq<Bus>, stop: BusStop, cardinalFilter: string, now: int, maxAgeMinutes: int, geo: GeoMath): (passed: seq<Bus>)
    ensures |passed| <= |buses|
  {
    var freshBuses := Seqs.Filter(buses, IsFreshBus(now, maxAgeMinutes));
    if cardinalFilter == "" then freshBuses else Seqs.Filter(freshBuses, KeepsBus(stop, cardinalFilter, geo))
  }

  /** A bus is ranked exactly when it is fresh, has a location and, with a
      filter set, is not in the filtered direction. */
  lemma RankedMembers(buses: seq<Bus>, stop: BusStop, cardinalFilter: string, now: int, maxAgeMinutes: int, geo: GeoMath)
    ensures forall b :: b in RankedBuses(Filtered(buses, stop, cardinalFilter, now, maxAgeMinutes, geo), stop, geo) <==>
      && b in buses
      && IsBusDataFresh(b.recordedAt, now, maxAgeMinutes)
      && b.location.Some?
      && (cardinalFilter == "" || !IsInFilteredDirection(b.location.value, stop.location, cardinalFilter, geo))
  {
    var filtered := Filtered(buses, stop, cardinalFilter, now, maxAgeMinutes, geo);
    FilteredMembers(buses, stop, cardinalFilter, now, maxAgeMinutes, geo);
    RankedLocatedMembers(filtered, stop, geo);
  }

  /** The filters pass on exactly the fresh buses outside the filtered direction. */
  lemma FilteredMembers(buses: seq<Bus>, stop: BusStop, cardinalFilter: string, now: int, maxAgeMinutes: int, geo: GeoMath)
    ensures forall b :: b in Filtered(buses, stop, cardinalFilter, now, maxAgeMinutes, geo) <==>
      && b in buses
      && IsBusDataFresh(b.recordedAt, now, maxAgeMinutes)
      && (cardinalFilter == "" || (b.location.Some? && !IsInFilteredDirection(b.location.value, stop.location, cardinalFilter, geo)))
  {
    var freshBuses := Seqs.Filter(buses, IsFreshBus(now, maxAgeMinutes));
    Seqs.FilterMembers(buses, IsFreshBus(now, maxAgeMinutes));
    if cardinalFilter != "" {
      Seqs.FilterMembers(freshBuses, KeepsBus(stop, cardinalFilter, geo));
    }
  }

  /** Three fresh, located buses at 500 m, 2 km and 50 m with no direction filter
      are ranked nearest first. */
  lemma ThreeBusScenario(b1: Bus, b2: Bus, b3: Bus, stop: BusStop, now: int, geo: GeoMath)
    requires b1.location.Some? && b2.location.Some? && b3.location.Some?
    requires IsBusDataFresh(b1.recordedAt, now, DefaultMaxAgeMinutes)
    requires IsBusDataFresh(b2.recordedAt, now, DefaultMaxAgeMinutes)
    requires IsBusDataFresh(b3.recordedAt, now, DefaultMaxAgeMinutes)
    requires DistanceFromBus(stop, b1, geo) == 500.0
    requires DistanceFromBus(stop, b2, geo) == 2000.0
    requires DistanceFromBus(stop, b3, geo) == 50.0
    ensures RankedBuses(Filtered([b1, b2, b3], stop, "", now, DefaultMaxAgeMinutes, geo), stop, geo) == [b3, b1, b2]
  {
    ThreeFresh(b1, b2, b3, stop, now, geo);
    ThreePairs(b1, b2, b3, stop, geo);
    ThreeSorted(BusWithDistance(b1, 500.0), BusWithDistance(b2, 2000.0), BusWithDistance(b3, 50.0));
    ThreeBuses(BusWithDistance(b3, 50.0), BusWithDistance(b1, 500.0), BusWithDistance(b2, 2000.0));
  }

  lemma ThreeFresh(b1: Bus, b2: Bus, b3: Bus, stop: BusStop, now: int, geo: GeoMath)
    requires IsBusDataFresh(b1.recordedAt, now, DefaultMaxAgeMinutes)
    requires IsBusDataFresh(b2.recordedAt, now, DefaultMaxAgeMinutes)
    requires IsBusDataFresh(b3.recordedAt, now, DefaultMaxAgeMinutes)
    ensures Filtered([b1, b2, b3], stop, "", now, DefaultMaxAgeMinutes, geo) == [b1, b2, b3]
  {
    Seqs.FilterAll([b1, b2, b3], IsFreshBus(now, DefaultMaxAgeMinutes));
  }

  lemma ThreeBuses(p1: BusWithDistance, p2: BusWithDistance, p3: BusWithDistance)
    ensures Buses([p1, p2, p3]) == [p1.bus, p2.bus, p3.bus]
  {
    var r := Buses([p1, p2, p3]);
    assert r[0] == p1.bus && r[1] == p2.bus && r[2] == p3.bus;
  }

  lemma ThreePairs(b1: Bus, b2: Bus, b3: Bus, stop: BusStop, geo: GeoMath)
    requires b1.location.Some? && b2.location.Some? && b3.location.Some?
    ensures WithDistances([b1, b2, b3], stop, geo) == [BusWithDistance(b1, DistanceFromBus(stop, b1, geo)),
      BusWithDistance(b2, DistanceFromBus(stop, b2, geo)), BusWithDistance(b3, DistanceFromBus(stop, b3, geo))]
  {
    assert [b1, b2, b3][..2] == [b1, b2] && [b1, b2][..1] == [b1] && [b1][..0] == [];
    var q1 := BusWithDistance(b1, DistanceFromBus(stop, b1, geo));
    var q2 := BusWithDistance(b2, DistanceFromBus(stop, b2, geo));
    assert WithDistances([b1], stop, geo) == [q1];
    assert WithDistances([b1, b2], stop, geo) == [q1, q2];
  }

  lemma ThreeSorted(p1: BusWithDistance, p2: BusWithDistance, p3: BusWithDistance)
    requires p3.distance < p1.distance <= p2.distance
    ensures InsertionSorted([p1, p2, p3]) == [p3, p1, p2]
  {
    assert [p1, p2, p3][..2] == [p1, p2] && [p1, p2][..1] == [p1] && [p1][..0] == [];
    assert InsertionSorted([p1]) == Insert([], p1) == [p1];
    assert InsertionSorted([p1, p2]) == Insert([p1], p2) == [p1, p2];
    assert Insert([p1], p3) == [p3, p1];
    assert Insert([p1, p2], p3) == Insert([p1], p3) + [p2];
  }

  /** A bus without a position is never ranked. */
  lemma UnlocatedNeverRanked(buses: seq<Bus>, b: Bus, stop: BusStop, cardinalFilter: string, now: int, geo: GeoMath)
    requires b in buses && b.location.None?
    ensures b !in RankedBuses(Filtered(buses, stop, cardinalFilter, now, DefaultMaxAgeMinutes, geo), stop, geo)
  {
    RankedMembers(buses, stop, cardinalFilter, now, DefaultMaxAgeMinutes, geo);
  }

  /** A fresh bus bearing 200 degrees from the stop is dropped under "W" and
      ranked when no filter is set. */
  lemma WestScenario(buses: seq<Bus>, b: Bus, stop: BusStop, now: int, geo: GeoMath)
    requires b in buses && b.location.Some?
    requires IsBusDataFresh(b.recordedAt, now, DefaultMaxAgeMinutes)
    requires BearingFromStop(b.location.value, stop.location, geo) == 200.0
    ensures b !in RankedBuses(Filtered(buses, stop, "W", now, DefaultMaxAgeMinutes, geo), stop, geo)
    ensures b in RankedBuses(Filtered(buses, stop, "", now, DefaultMaxAgeMinutes, geo), stop, geo)
  {
    RankedMembers(buses, stop, "W", now, DefaultMaxAgeMinutes, geo);
    RankedMembers(buses, stop, "", now, DefaultMaxAgeMinutes, geo);
    PrimaryRanges(b.location.value, stop.location, "W", geo);
  }
}
