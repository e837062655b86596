/**
 * is_in_filtered_direction and filter_buses_by_direction: dropping buses that
 * lie, seen from the stop, in the configured "already passed" direction.
 */
module Direction {
  import opened Records
  import opened Cardinal
  import Seqs

  /** str.upper() on the ASCII letters. */
  function UpperChar(c: char): char {
    if 'a' <= c <= 'z' then (c as int - 32) as char else c
  }

  function Upper(s: string): (r: string)
    ensures |r| == |s|
    ensures forall i :: 0 <= i < |s| ==> r[i] == UpperChar(s[i])
  {
    seq(|s|, i requires 0 <= i < |s| => UpperChar(s[i]))
  }

  /** True when the bus should be excluded. The four primary directions use a
      half circle of bearings; any other non-empty filter excludes on an exact
      match with the eight-way name of the bearing. */
  function IsInFilteredDirection(busLocation: Location, stopLocation: Location,
                                 filterDirection: string, geo: GeoMath): (excluded: bool)
    ensures excluded ==> filterDirection != ""
  {
    if filterDirection == "" then false
    else
      var bearing := BearingFromStop(busLocation, stopLocation, geo);
      var filterDir := Upper(filterDirection);
      if filterDir == "N" then bearing >= 270.0 || bearing < 90.0
      else if filterDir == "E" then 0.0 <= bearing < 180.0
      else if filterDir == "S" then 90.0 <= bearing < 270.0
      else if filterDir == "W" then 180.0 <= bearing <= 359.0
      else GetCardinalDirection(bearing) == filterDir
  }

  /** The bearing from the stop to the bus, which every decision above is about. */
  function BearingFromStop(busLocation: Location, stopLocation: Location, geo: GeoMath): Degrees {
    geo.bearing(stopLocation, busLocation)
  }

  lemma EmptyFilterExcludesNothing(busLocation: Location, stopLocation: Location, geo: GeoMath)
    ensures !IsInFilteredDirection(busLocation, stopLocation, "", geo)
  {
  }

  /** A one-letter filter upper-cases to a primary letter exactly when it is
      that letter in either case. */
  lemma UpperPrimary(f: string, letter: char)
    requires letter in "NESW"
    ensures Upper(f) == [letter] <==> f == [letter] || f == [(letter as int + 32) as char]
  {
    if Upper(f) == [letter] {
      assert |f| == 1 && UpperChar(f[0]) == letter;
      assert f == [f[0]];
    }
    if f == [(letter as int + 32) as char] {
      assert Upper(f)[0] == letter;
    }
  }

  /** The half-circle range of each primary direction, whatever case it is written in. */
  lemma PrimaryRanges(busLocation: Location, stopLocation: Location, f: string, geo: GeoMath)
    ensures var b := BearingFromStop(busLocation, stopLocation, geo);
      && (f == "N" || f == "n" ==> (IsInFilteredDirection(busLocation, stopLocation, f, geo) <==> b >= 270.0 || b < 90.0))
      && (f == "E" || f == "e" ==> (IsInFilteredDirection(busLocation, stopLocation, f, geo) <==> b < 180.0))
      && (f == "S" || f == "s" ==> (IsInFilteredDirection(busLocation, stopLocation, f, geo) <==> 90.0 <= b < 270.0))
      && (f == "W" || f == "w" ==> (IsInFilteredDirection(busLocation, stopLocation, f, geo) <==> 180.0 <= b <= 359.0))
  {
    UpperPrimary(f, 'N');
    UpperPrimary(f, 'E');
    UpperPrimary(f, 'S');
    UpperPrimary(f, 'W');
  }

  /** Bearings strictly between 359 and 360 degrees escape the W filter. */
  lemma WestRangeGap(busLocation: Location, stopLocation: Location, geo: GeoMath)
    requires 359.0 < BearingFromStop(busLocation, stopLocation, geo)
    ensures !IsInFilteredDirection(busLocation, stopLocation, "W", geo)
  {
    UpperPrimary("W", 'W');
  }

  /** Under "W": 180 degrees is excluded; 179 and 0 degrees are kept. */
  lemma WestExamples(south: Location, justEast: Location, north: Location, stopLocation: Location, geo: GeoMath)
    requires BearingFromStop(south, stopLocation, geo) == 180.0
    requires BearingFromStop(justEast, stopLocation, geo) == 179.0
    requires BearingFromStop(north, stopLocation, geo) == 0.0
    ensures IsInFilteredDirection(south, stopLocation, "W", geo)
    ensures !IsInFilteredDirection(justEast, stopLocation, "W", geo)
    ensures !IsInFilteredDirection(north, stopLocation, "W", geo)
  {
    UpperPrimary("W", 'W');
  }

  /** The filter is case-insensitive: it decides as its upper-cased form does. */
  lemma CaseInsensitive(busLocation: Location, stopLocation: Location, f: string, geo: GeoMath)
    ensures IsInFilteredDirection(busLocation, stopLocation, f, geo)
      == IsInFilteredDirection(busLocation, stopLocation, Upper(f), geo)
  {
    assert Upper(Upper(f)) == Upper(f);
  }

  /** A diagonal filter excludes exactly its own 45-degree display sector. */
  lemma DiagonalSector(busLocation: Location, stopLocation: Location, f: string, k: int, geo: GeoMath)
    requires 0 <= k < 8 && k % 2 == 1 && Upper(f) == Directions[k]
    ensures IsInFilteredDirection(busLocation, stopLocation, f, geo)
      <==> InSector(BearingFromStop(busLocation, stopLocation, geo), k)
  {
    CardinalSectors(BearingFromStop(busLocation, stopLocation, geo), k);
  }

  /** A filter that is none of the eight labels once upper-cased (such as "WEST")
      excludes nothing. */
  lemma UnrecognisedExcludesNothing(busLocation: Location, stopLocation: Location, f: string, geo: GeoMath)
    requires Upper(f) !in Directions
    ensures !IsInFilteredDirection(busLocation, stopLocation, f, geo)
  {
  }

  /** The half circle of a primary direction covers the display sector of that
      direction and of both diagonals beside it. */
  lemma HalfCircleCoversNeighbours(busLocation: Location, stopLocation: Location, f: string, k: int, geo: GeoMath)
    requires 0 <= k < 8 && k % 2 == 0 && Upper(f) == Directions[k]
    requires var name := GetCardinalDirection(BearingFromStop(busLocation, stopLocation, geo));
      name == Directions[(k + 7) % 8] || name == Directions[k] || name == Directions[(k + 1) % 8]
    ensures IsInFilteredDirection(busLocation, stopLocation, f, geo)
  {
    var b := BearingFromStop(busLocation, stopLocation, geo);
    var name := GetCardinalDirection(b);
    var j := if name == Directions[(k + 7) % 8] then (k + 7) % 8
             else if name == Directions[k] then k else (k + 1) % 8;
    CardinalSectors(b, j);
    assert InSector(b, j);
    HalfCircleOfSector(b, k, j);
  }

  /** The bearing-level fact behind the lemma above. */
  lemma HalfCircleOfSector(b: real, k: int, j: int)
    requires 0.0 <= b < 360.0 && 0 <= k < 8 && k % 2 == 0
    requires (j == (k + 7) % 8 || j == k || j == (k + 1) % 8) && InSector(b, j)
    ensures Directions[k] == "N" ==> b >= 270.0 || b < 90.0
    ensures Directions[k] == "E" ==> 0.0 <= b < 180.0
    ensures Directions[k] == "S" ==> 90.0 <= b < 270.0
    ensures Directions[k] == "W" ==> 180.0 <= b <= 359.0
  {
    if k == 0 {
      assert j == 7 || j == 0 || j == 1;
    } else if k == 2 {
      assert j == 1 || j == 2 || j == 3;
    } else if k == 4 {
      assert j == 3 || j == 4 || j == 5;
    } else {
      assert j == 5 || j == 6 || j == 7;
    }
  }

  /** The bus is kept: it has a location and is not in the filtered direction. */
  function KeepsBus(stop: BusStop, filterDirection: string, geo: GeoMath): Bus -> bool {
    (b: Bus) => b.location.Some? && !IsInFilteredDirection(b.location.value, stop.location, filterDirection, geo)
  }

  method FilterBusesByDirection(buses: seq<Bus>, stop: BusStop, filterDirection: string, geo: GeoMath)
    returns (filtered: seq<Bus>)
    ensures filterDirection == "" ==> filtered == buses
    ensures filterDirection != "" ==> filtered == Seqs.Filter(buses, KeepsBus(stop, filterDirection, geo))
  {
    if filterDirection == "" {
      return buses;
    }
    filtered := [];
    for i := 0 to |buses|
      invariant filtered == Seqs.Filter(buses[..i], KeepsBus(stop, filterDirection, geo))
    {
      var bus := buses[i];
      assert buses[..i + 1][..i] == buses[..i];
      if bus.location.Some? {
        if !IsInFilteredDirection(bus.location.value, stop.location, filterDirection, geo) {
          filtered := filtered + [bus];
        }
      }
    }
    assert buses[..|buses|] == buses;
  }

  /** With a filter set, the kept buses are exactly the located, non-excluded ones. */
  lemma DirectionFilterMembers(buses: seq<Bus>, stop: BusStop, filterDirection: string, geo: GeoMath)
    ensures forall b :: b in Seqs.Filter(buses, KeepsBus(stop, filterDirection, geo)) <==>
      b in buses && b.location.Some? && !IsInFilteredDirection(b.location.value, stop.location, filterDirection, geo)
  {
    Seqs.FilterMembers(buses, KeepsBus(stop, filterDirection, geo));
  }

  /** An unrecognised, non-empty filter still drops the buses without a location,
      and only those. */
  lemma UnrecognisedDropsUnlocated(buses: seq<Bus>, stop: BusStop, filterDirection: string, geo: GeoMath)
    requires Upper(filterDirection) !in Directions
    ensures Seqs.Filter(buses, KeepsBus(stop, filterDirection, geo)) == Seqs.Filter(buses, HasLocation)
  {
    Seqs.FilterCongruent(buses, KeepsBus(stop, filterDirection, geo), HasLocation);
  }
}
