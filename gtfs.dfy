/**
 * The records the matching engine passes around: static trips and stop times from a
 * GTFS Schedule feed, realtime predictions decoded from a GTFS Realtime feed, and the
 * connection mode.  Ids that the Java code may hold as null are Options.
 */
module Gtfs {
  import opened Wrappers
  import opened Clock

  /** A row of trips.txt. */
  datatype Trip = Trip(
    routeId: string,
    serviceId: string,
    tripId: string,
    tripHeadsign: string,
    tripShortName: string,
    directionId: int,
    shapeId: string)

  /** A row of stop_times.txt; the arrival time is absent when the feed leaves it empty. */
  datatype StopTime = StopTime(
    tripId: Option<string>,
    stopId: Option<string>,
    stopSequence: int,
    arrivalTime: Option<TimeOfDay>)

  /** One realtime prediction: the feed's trip id (null when the update names none), a stop, an instant. */
  datatype TripUpdateRecord = TripUpdateRecord(
    tripId: Option<string>,
    stopId: string,
    arrivalEpochSeconds: int)

  datatype ConnectionMode = Online | Offline

  /** TripMatcher.matchByTripId: a trip id to the static trip it denotes, if any. */
  type Matcher = Option<string> -> Option<Trip>
}
