/**
 * The non-drawing logic of display_buses_on_oled: which buses get a row, and
 * what each row shows on its right-hand side.
 */
module Display {
  import opened Records

  /** Number of bus rows on the screen. */
  const MaxRows := 3

  /** buses[:3] */
  function TopBuses(buses: seq<Bus>): (top: seq<Bus>)
    ensures |top| == if |buses| < MaxRows then |buses| else MaxRows
    ensures top == buses[..|top|]
  {
    if |buses| <= MaxRows then buses else buses[..MaxRows]
  }

  /** The right-hand side of a row: a text or a progress bar of the distance in km. */
  datatype RowState = Arriving | LeaveNow | ProgressBar(distanceKm: real)

  function RowStateFor(distanceM: real): (state: RowState)
    ensures state.ProgressBar? ==> state.distanceKm >= 1.0
  {
    if distanceM < 100.0 then Arriving
    else if distanceM / 1000.0 < 1.0 then LeaveNow
    else ProgressBar(distanceM / 1000.0)
  }

  /** The three states split the distances at 100 m and 1 km. */
  lemma RowStateRanges(distanceM: real)
    ensures RowStateFor(distanceM) == Arriving <==> distanceM < 100.0
    ensures RowStateFor(distanceM) == LeaveNow <==> 100.0 <= distanceM < 1000.0
    ensures RowStateFor(distanceM).ProgressBar? <==> 1000.0 <= distanceM
    ensures RowStateFor(distanceM).ProgressBar? ==> RowStateFor(distanceM).distanceKm * 1000.0 == distanceM
  {
  }

  /** One drawn row: its position on screen, the line name, the distance in km
      and the right-hand state. */
  datatype Row = Row(slot: nat, lineRef: string, distanceKm: real, state: RowState)

  function RowFor(slot: nat, bus: Bus, stop: BusStop, geo: GeoMath): (row: Row)
    requires bus.location.Some?
    ensures row.state.ProgressBar? ==> row.state.distanceKm == row.distanceKm
  {
    var distanceM := DistanceFromBus(stop, bus, geo);
    Row(slot, bus.lineRef, distanceM / 1000.0, RowStateFor(distanceM))
  }

  /** rows are exactly the rows drawn for the first n buses of top: one per
      located bus, at its position, in order. */
  ghost predicate DrawnUpTo(rows: seq<Row>, top: seq<Bus>, n: int, stop: BusStop, geo: GeoMath)
    requires 0 <= n <= |top|
  {
    && |rows| <= n
    && (forall k :: 0 <= k < |rows| ==>
         && rows[k].slot < n
         && top[rows[k].slot].location.Some?
         && rows[k] == RowFor(rows[k].slot, top[rows[k].slot], stop, geo))
    && (forall k, l :: 0 <= k < l < |rows| ==> rows[k].slot < rows[l].slot)
    && (forall j :: 0 <= j < n && top[j].location.Some? ==> RowFor(j, top[j], stop, geo) in rows)
    && ((forall j :: 0 <= j < n ==> top[j].location.Some?) ==>
         |rows| == n && forall k :: 0 <= k < |rows| ==> rows[k].slot == k)
  }

  /** One iteration of the drawing loop keeps DrawnUpTo. */
  lemma DrawStep(rows: seq<Row>, top: seq<Bus>, i: int, stop: BusStop, geo: GeoMath)
    requires 0 <= i < |top| && DrawnUpTo(rows, top, i, stop, geo)
    ensures DrawnUpTo(rows + (if top[i].location.Some? then [RowFor(i, top[i], stop, geo)] else []), top, i + 1, stop, geo)
  {
    if top[i].location.Some? {
      var next := rows + [RowFor(i, top[i], stop, geo)];
      assert forall k :: 0 <= k < |rows| ==> next[k] == rows[k];
      assert next[|rows|] == RowFor(i, top[i], stop, geo);
    } else {
      assert rows + [] == rows;
    }
  }

  /** The rows drawn for a list of buses sorted by distance. Every one of the
      first three buses that has a location gets the row of its position, and
      no other row is drawn. */
  method DisplayBusesOnOled(buses: seq<Bus>, stop: BusStop, geo: GeoMath) returns (rows: seq<Row>)
    ensures |rows| <= MaxRows
    ensures forall k :: 0 <= k < |rows| ==>
      && rows[k].slot < |TopBuses(buses)|
      && buses[rows[k].slot].location.Some?
      && rows[k] == RowFor(rows[k].slot, buses[rows[k].slot], stop, geo)
    ensures forall k, l :: 0 <= k < l < |rows| ==> rows[k].slot < rows[l].slot
    ensures forall i :: 0 <= i < |TopBuses(buses)| && buses[i].location.Some? ==> RowFor(i, buses[i], stop, geo) in rows
    ensures (forall b :: b in buses ==> b.location.Some?) ==>
      |rows| == |TopBuses(buses)| && forall k :: 0 <= k < |rows| ==> rows[k].slot == k
  {
    var top := TopBuses(buses);
    rows := [];
    for i := 0 to |top|
      invariant DrawnUpTo(rows, top, i, stop, geo)
    {
      DrawStep(rows, top, i, stop, geo);
      var bus := top[i];
      if bus.location.Some? {
        rows := rows + [RowFor(i, bus, stop, geo)];
      }
    }
    assert forall j :: 0 <= j < |top| ==> top[j] == buses[j] && top[j] in buses;
  }
}
