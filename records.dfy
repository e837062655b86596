/**
 * The records the bus tracker works on, and the two geometric measurements
 * it takes of them. The haversine distance and the initial bearing are
 * floating-point trigonometry; here they are whatever total functions the
 * caller supplies, constrained only to their documented ranges.
 */
module Records {
  import opened Wrappers

  /** A point in decimal degrees. */
  datatype Location = Location(latitude: real, longitude: real)

  /** One vehicle of one poll. recordedAt is the feed's RecordedAtTime already
      parsed to seconds since the epoch; None stands for a field that was
      empty or did not parse. */
  datatype Bus = Bus(
    lineRef: string,
    operatorRef: string,
    originRef: string,
    destinationRef: string,
    vehicleRef: string,
    originName: string,
    destinationName: string,
    recordedAt: Option<int>,
    location: Option<Location>)

  /** The fixed observation point. */
  datatype BusStop = BusStop(name: string, stopRef: string, location: Location)

  /** A distance in metres: never negative. */
  type Meters = d: real | 0.0 <= d witness 0.0

  /** A compass bearing in degrees, normalised to [0, 360). */
  type Degrees = b: real | 0.0 <= b < 360.0 witness 0.0

  /** calculate_distance(from, to) and calculate_bearing(from, to). */
  datatype GeoMath = GeoMath(
    distance: (Location, Location) -> Meters,
    bearing: (Location, Location) -> Degrees)

  /** BusStop.distance_from_bus, which asks the bus for its distance to the stop. */
  function DistanceFromBus(stop: BusStop, bus: Bus, geo: GeoMath): (d: Meters)
    requires bus.location.Some?
  {
    geo.distance(bus.location.value, stop.location)
  }

  /** The test `if bus.location:`. A Location record is always truthy. */
  const HasLocation: Bus -> bool := (b: Bus) => b.location.Some?
}
