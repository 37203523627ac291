/**
 * The older arrival board of RealTimeBusTrackerController: a snapshot keyed by the feed's
 * raw trip id, a cache from feed trip id to route (a miss cached too), the nearest
 * prediction per route for a stop, and, when no route has one, a static fallback listing
 * each route's earliest arrival within the hour.  The current instant and the time-zone
 * offset are parameters.
 */
module Tracker {
  import opened Wrappers
  import opened Text
  import opened Sorting
  import opened Gtfs
  import opened Clock
  import TripIndex
  import Arrivals

  const MaxRtResults: nat := 12
  /** Six hours, in minutes. */
  const MaxPredictionDistanceMin: int := 6 * 60
  const StaticFallbackHeader: string := "--- statici (fallback) ---"
  /** The widest minute difference the static fallback shows. */
  const StaticFallbackMin: int := 60

  /** TripIdUtils.normalizeFeedTripId, whose body is not part of this model; it may return null. */
  type FeedNormalizer = string -> Option<string>

  /** A trip that denotes a route: matched, with a non-empty route id. */
  predicate HasRoute(t: Option<Trip>)
  {
    t.Some? && t.value.routeId != []
  }

  /**
   * resolveRouteForFeedTripStrict: the route of the exact match, else the route of the
   * match of the normalised id when that differs from the raw one, else null.
   */
  function ResolveRouteForFeedTripStrict(feedTripId: Option<string>, matcher: Matcher, normalizeFeedTripId: FeedNormalizer)
    : (r: Option<string>)
    ensures feedTripId.None? ==> r.None?
    ensures r.Some? ==> r.value != []
  {
    if feedTripId.None? then None
    else if HasRoute(matcher(feedTripId)) then Some(matcher(feedTripId).value.routeId)
    else
      var normalized := normalizeFeedTripId(feedTripId.value);
      if normalized.Some? && normalized.value != feedTripId.value && HasRoute(matcher(normalized))
      then Some(matcher(normalized).value.routeId)
      else None
  }

  /**
   * A route is found exactly when one of the two lookups has one, the normalised lookup
   * counting only when normalisation changed the id; the exact match wins when it has one.
   */
  lemma ResolvedRouteSource(feedTripId: Option<string>, matcher: Matcher, normalizeFeedTripId: FeedNormalizer)
    requires feedTripId.Some?
    ensures var r := ResolveRouteForFeedTripStrict(feedTripId, matcher, normalizeFeedTripId);
            var normalized := normalizeFeedTripId(feedTripId.value);
            var viaNormalized := normalized.Some? && normalized != feedTripId && HasRoute(matcher(normalized));
            (r.Some? <==> HasRoute(matcher(feedTripId)) || viaNormalized) &&
            (HasRoute(matcher(feedTripId)) ==> r == Some(matcher(feedTripId).value.routeId)) &&
            (!HasRoute(matcher(feedTripId)) && r.Some? ==> viaNormalized && r == Some(matcher(normalized).value.routeId))
  {
  }

  /** realtimeArrivals: raw feed trip id (possibly null) to stop id to predicted epoch seconds. */
  type FeedSnapshot = map<Option<string>, map<string, int>>

  /** feedTripToRoute: raw feed trip id to its route, null for a trip that resolved to none. */
  type RouteCache = map<Option<string>, Option<string>>

  type Resolver = Option<string> -> Option<string>

  function Put(m: FeedSnapshot, key: Option<string>, stop: string, epoch: int): FeedSnapshot
  {
    m[key := (if key in m then m[key] else map[])[stop := epoch]]
  }

  /** The snapshot after storing the records in order under their raw trip ids. */
  function FeedSnapshotOf(updates: seq<TripUpdateRecord>): FeedSnapshot
  {
    if updates == [] then map[]
    else
      var u := updates[|updates| - 1];
      Put(FeedSnapshotOf(updates[..|updates| - 1]), u.tripId, u.stopId, u.arrivalEpochSeconds)
  }

  /** The cache after resolving, in order, each trip id it does not hold yet. */
  function CacheAfter(cache: RouteCache, updates: seq<TripUpdateRecord>, resolve: Resolver): RouteCache
  {
    if updates == [] then cache
    else
      var c := CacheAfter(cache, updates[..|updates| - 1], resolve);
      var id := updates[|updates| - 1].tripId;
      if id in c then c else c[id := resolve(id)]
  }

  /** Every cached route is what resolution gives for its key. */
  ghost predicate CacheSound(cache: RouteCache, resolve: Resolver)
  {
    forall id :: id in cache ==> cache[id] == resolve(id)
  }

  /** The snapshot holds exactly the batch's trip ids, each with the epoch of its last record at a stop. */
  lemma {:induction false} FeedSnapshotLatest(updates: seq<TripUpdateRecord>, j: nat)
    requires j < |updates|
    requires forall i :: j < i < |updates| ==> updates[i].tripId != updates[j].tripId || updates[i].stopId != updates[j].stopId
    ensures updates[j].tripId in FeedSnapshotOf(updates) && updates[j].stopId in FeedSnapshotOf(updates)[updates[j].tripId] &&
            FeedSnapshotOf(updates)[updates[j].tripId][updates[j].stopId] == updates[j].arrivalEpochSeconds
  {
    var init := updates[..|updates| - 1];
    if j < |updates| - 1 {
      assert init[j] == updates[j];
      forall i | j < i < |init|
        ensures init[i].tripId != init[j].tripId || init[i].stopId != init[j].stopId
      {
        assert init[i] == updates[i];
      }
      FeedSnapshotLatest(init, j);
    }
  }

  /** The snapshot's keys are exactly the batch's trip ids: nothing survives from an earlier refresh. */
  lemma {:induction false} FeedSnapshotKeys(updates: seq<TripUpdateRecord>)
    ensures FeedSnapshotOf(updates).Keys == TripIdsOf(updates)
  {
    if updates != [] {
      FeedSnapshotKeys(updates[..|updates| - 1]);
      TripIdsStep(updates);
    }
  }

  /** The trip ids of a batch. */
  function TripIdsOf(updates: seq<TripUpdateRecord>): set<Option<string>>
  {
    set i | 0 <= i < |updates| :: updates[i].tripId
  }

  lemma TripIdsStep(updates: seq<TripUpdateRecord>)
    requires updates != []
    ensures TripIdsOf(updates) == TripIdsOf(updates[..|updates| - 1]) + {updates[|updates| - 1].tripId}
  {
    var init := updates[..|updates| - 1];
    assert forall i :: 0 <= i < |init| ==> init[i] == updates[i];
  }

  /** A refresh keeps every cached route, caches every trip id of the batch, and stays sound. */
  lemma {:induction false} CacheAfterSound(cache: RouteCache, updates: seq<TripUpdateRecord>, resolve: Resolver)
    requires CacheSound(cache, resolve)
    ensures CacheSound(CacheAfter(cache, updates, resolve), resolve)
    ensures CacheAfter(cache, updates, resolve).Keys == cache.Keys + TripIdsOf(updates)
  {
    if updates != [] {
      CacheAfterSound(cache, updates[..|updates| - 1], resolve);
      TripIdsStep(updates);
    }
  }

  lemma PrefixStep(updates: seq<TripUpdateRecord>, i: nat)
    requires i < |updates|
    ensures updates[..i + 1][..i] == updates[..i] && updates[..i + 1][i] == updates[i]
  {
  }

  /** The epoch a snapshot entry holds for the stop; a null stop finds nothing. */
  function StopEpoch(m: FeedSnapshot, k: Option<string>, stopId: Option<string>): Option<int>
  {
    if k in m && stopId.Some? && stopId.value in m[k] then Some(m[k][stopId.value]) else None
  }

  /** A prediction the board considers: positive and at most 360 whole minutes away from now, either way. */
  predicate Qualifies(m: FeedSnapshot, k: Option<string>, stopId: Option<string>, now: int)
  {
    StopEpoch(m, k, stopId).Some? && StopEpoch(m, k, stopId).value > 0 &&
    Abs(TruncDiv(StopEpoch(m, k, stopId).value - now, 60)) <= MaxPredictionDistanceMin
  }

  /** The feed trips among `keys` whose prediction for the stop qualifies. */
  function Qualifying(m: FeedSnapshot, keys: set<Option<string>>, stopId: Option<string>, now: int): set<Option<string>>
  {
    set k | k in keys && Qualifies(m, k, stopId, now)
  }

  lemma QualifyingUnion(m: FeedSnapshot, a: set<Option<string>>, b: set<Option<string>>, stopId: Option<string>, now: int)
    ensures Qualifying(m, a + b, stopId, now) == Qualifying(m, a, stopId, now) + Qualifying(m, b, stopId, now)
  {
  }

  lemma UnionStep<T>(c0: set<T>, c1: set<T>, c2: set<T>, a: set<T>, b: set<T>, ab: set<T>)
    requires c1 == c0 + a && c2 == c1 + b && ab == a + b
    ensures c2 == c0 + ab
  {
  }

  /** The distance filter in seconds: less than 361 minutes either side of now. */
  lemma PredictionDistanceInSeconds(x: int)
    ensures Abs(TruncDiv(x, 60)) <= MaxPredictionDistanceMin <==> -21660 < x < 21660
  {
    MinuteWindow(x, -MaxPredictionDistanceMin, MaxPredictionDistanceMin);
  }

  /**
   * routeToEpoch after visiting the snapshot keys `done`: a route for every qualifying
   * prediction whose trip resolves, holding the smallest such epoch.
   */
  ghost predicate RouteMinimum(m: FeedSnapshot, done: set<Option<string>>, stopId: Option<string>, now: int,
                               resolve: Resolver, byRoute: map<string, int>)
  {
    (forall k :: k in done && Qualifies(m, k, stopId, now) && resolve(k).Some? ==>
       resolve(k).value in byRoute && byRoute[resolve(k).value] <= StopEpoch(m, k, stopId).value) &&
    (forall r :: r in byRoute ==>
       exists k :: k in done && Qualifies(m, k, stopId, now) && resolve(k) == Some(r) && StopEpoch(m, k, stopId) == Some(byRoute[r]))
  }

  /** The visit of one snapshot key. */
  function Aggregate(byRoute: map<string, int>, m: FeedSnapshot, k: Option<string>, stopId: Option<string>, now: int,
                     resolve: Resolver): map<string, int>
  {
    if Qualifies(m, k, stopId, now) && resolve(k).Some? then
      var r, epoch := resolve(k).value, StopEpoch(m, k, stopId).value;
      if r !in byRoute || epoch < byRoute[r] then byRoute[r := epoch] else byRoute
    else byRoute
  }

  lemma AggregateStep(m: FeedSnapshot, done: set<Option<string>>, k: Option<string>, stopId: Option<string>, now: int,
                      resolve: Resolver, byRoute: map<string, int>)
    requires RouteMinimum(m, done, stopId, now, resolve, byRoute)
    ensures RouteMinimum(m, done + {k}, stopId, now, resolve, Aggregate(byRoute, m, k, stopId, now, resolve))
  {
    var next := Aggregate(byRoute, m, k, stopId, now, resolve);
    forall r | r in next
      ensures exists k' :: k' in done + {k} && Qualifies(m, k', stopId, now) && resolve(k') == Some(r) &&
                           StopEpoch(m, k', stopId) == Some(next[r])
    {
      if r in byRoute && next[r] == byRoute[r] {
        var k' :| k' in done && Qualifies(m, k', stopId, now) && resolve(k') == Some(r) && StopEpoch(m, k', stopId) == Some(byRoute[r]);
        assert k' in done + {k};
      } else {
        assert k in done + {k};
      }
    }
  }

  /** The per-route minimum does not depend on the order the keys are visited in. */
  lemma RouteMinimumUnique(m: FeedSnapshot, done: set<Option<string>>, stopId: Option<string>, now: int, resolve: Resolver,
                           a: map<string, int>, b: map<string, int>)
    requires RouteMinimum(m, done, stopId, now, resolve, a) && RouteMinimum(m, done, stopId, now, resolve, b)
    ensures a == b
  {
    forall r | r in a
      ensures r in b && a[r] == b[r]
    {
      var k :| k in done && Qualifies(m, k, stopId, now) && resolve(k) == Some(r) && StopEpoch(m, k, stopId) == Some(a[r]);
      var k' :| k' in done && Qualifies(m, k', stopId, now) && resolve(k') == Some(r) && StopEpoch(m, k', stopId) == Some(b[r]);
    }
    forall r | r in b
      ensures r in a
    {
      var k' :| k' in done && Qualifies(m, k', stopId, now) && resolve(k') == Some(r) && StopEpoch(m, k', stopId) == Some(b[r]);
    }
  }

  /** One entry of the realtime board: a route and its nearest predicted epoch. */
  type RouteEpoch = (string, int)

  function EpochOf(e: RouteEpoch): int { e.1 }

  /** The entries of routeToEpoch in the map's iteration order. */
  method EntriesOf(byRoute: map<string, int>) returns (entries: seq<RouteEpoch>)
    ensures multiset(entries) == multiset(byRoute.Items)
  {
    entries := [];
    var rest := byRoute.Items;
    while rest != {}
      invariant rest <= byRoute.Items
      invariant multiset(entries) + multiset(rest) == multiset(byRoute.Items)
      decreases rest
    {
      var e :| e in rest;
      entries := entries + [e];
      rest := rest - {e};
    }
  }

  /**
   * formatLineText: the route, the minutes to go (at least 0, "In arrivo" up to the
   * threshold) and, in parentheses, the local clock time of the prediction.
   */
  function FormatLineText(route: string, predictedEpoch: int, now: int, offset: int): (r: string)
    ensures StartsWith(r, route + " - ")
    ensures EndsWith(r, " (" + LocalTimeText(LocalTimeOfDay(predictedEpoch, offset)) + ")")
  {
    var timeStr := LocalTimeText(LocalTimeOfDay(predictedEpoch, offset));
    var r := Arrivals.RealtimeLine(route, Arrivals.Max0(TruncDiv(predictedEpoch - now, 60)), timeStr);
    Arrivals.RealtimeLineParts(route, Arrivals.Max0(TruncDiv(predictedEpoch - now, 60)), timeStr);
    r
  }

  /** A realtime line reads "In arrivo" exactly when the prediction is less than three minutes ahead. */
  lemma FormatLineImminent(route: string, predictedEpoch: int, now: int, offset: int)
    ensures StartsWith(FormatLineText(route, predictedEpoch, now, offset), route + " - In arrivo") <==>
            predictedEpoch - now < 180
  {
    var timeStr := LocalTimeText(LocalTimeOfDay(predictedEpoch, offset));
    Arrivals.ImminentWithinThreeMinutes(predictedEpoch - now);
    Arrivals.RealtimeLineImminent(route, Arrivals.Max0(TruncDiv(predictedEpoch - now, 60)), timeStr);
  }

  /** A route's candidate for the static fallback: a stop time of a matched trip with an arrival time. */
  datatype Fallback = Fallback(routeId: string, stopTime: StopTime, arrival: TimeOfDay)

  /** The fallback keeps a stop time whose whole-minute distance from the local time of day is 0 to 60. */
  function FallbackCandidate(st: StopTime, matcher: Matcher, nowTod: TimeOfDay): Option<Fallback>
  {
    var trip := matcher(st.tripId);
    if trip.None? || st.arrivalTime.None? then None
    else
      var diff := TruncDiv(st.arrivalTime.value - nowTod, 60);
      if diff < 0 || diff > StaticFallbackMin then None
      else Some(Fallback(trip.value.routeId, st, st.arrivalTime.value))
  }

  /** The fallback window in seconds: from just under a minute ago to just under 61 minutes ahead, within the day. */
  lemma FallbackWindowInSeconds(st: StopTime, matcher: Matcher, nowTod: TimeOfDay)
    ensures FallbackCandidate(st, matcher, nowTod).Some? <==>
              matcher(st.tripId).Some? && st.arrivalTime.Some? && -60 < st.arrivalTime.value - nowTod < 3660
  {
    if st.arrivalTime.Some? {
      MinuteWindow(st.arrivalTime.value - nowTod, 0, StaticFallbackMin);
    }
  }

  function FallbackCandidates(times: seq<StopTime>, matcher: Matcher, nowTod: TimeOfDay): seq<Option<Fallback>>
  {
    seq(|times|, i requires 0 <= i < |times| => FallbackCandidate(times[i], matcher, nowTod))
  }

  /** primiArrivi after merging the candidates in order: a later candidate replaces only a strictly later arrival. */
  function FirstArrivals(cands: seq<Option<Fallback>>): map<string, Fallback>
  {
    if cands == [] then map[]
    else
      var rest := FirstArrivals(cands[..|cands| - 1]);
      match cands[|cands| - 1]
      case None => rest
      case Some(c) => if c.routeId !in rest || c.arrival < rest[c.routeId].arrival then rest[c.routeId := c] else rest
  }

  predicate IsRouteFallback(cands: seq<Option<Fallback>>, i: int, r: string)
  {
    0 <= i < |cands| && cands[i].Some? && cands[i].value.routeId == r
  }

  /** The entry is candidate `i`, arriving no later than any candidate of its route and before every earlier one. */
  ghost predicate EarliestFirst(cands: seq<Option<Fallback>>, r: string, i: int)
  {
    IsRouteFallback(cands, i, r) &&
    (forall j :: IsRouteFallback(cands, j, r) ==> cands[i].value.arrival <= cands[j].value.arrival) &&
    (forall j :: j < i && IsRouteFallback(cands, j, r) ==> cands[i].value.arrival < cands[j].value.arrival)
  }

  /**
   * The fallback lists a route exactly when it has a candidate, and shows its earliest
   * arrival, the first in stop-time order on a tie.
   */
  lemma {:induction false} FirstArrivalsEarliest(cands: seq<Option<Fallback>>, r: string)
    ensures r in FirstArrivals(cands) <==> exists i :: IsRouteFallback(cands, i, r)
    ensures r in FirstArrivals(cands) ==> exists i :: EarliestFirst(cands, r, i) && cands[i] == Some(FirstArrivals(cands)[r])
  {
    if cands != [] {
      var n := |cands| - 1;
      var init := cands[..n];
      forall i | 0 <= i < n
        ensures IsRouteFallback(init, i, r) == IsRouteFallback(cands, i, r) && init[i] == cands[i]
      {
      }
      FirstArrivalsEarliest(init, r);
      var c := cands[n];
      if c.Some? && c.value.routeId == r {
        assert IsRouteFallback(cands, n, r);
        if r !in FirstArrivals(init) {
          assert EarliestFirst(cands, r, n);
        } else {
          var i :| EarliestFirst(init, r, i) && init[i] == Some(FirstArrivals(init)[r]);
          if c.value.arrival < FirstArrivals(init)[r].arrival {
            assert EarliestFirst(cands, r, n);
          } else {
            assert EarliestFirst(cands, r, i);
          }
        }
      } else {
        if exists i :: IsRouteFallback(cands, i, r) {
          var i :| IsRouteFallback(cands, i, r);
          assert IsRouteFallback(init, i, r);
        }
        if r in FirstArrivals(init) {
          var i :| EarliestFirst(init, r, i) && init[i] == Some(FirstArrivals(init)[r]);
          assert EarliestFirst(cands, r, i);
        }
      }
    }
  }

  lemma FirstArrivalsStep(cands: seq<Option<Fallback>>, c: Option<Fallback>)
    ensures FirstArrivals(cands + [c]) ==
            match c
            case None => FirstArrivals(cands)
            case Some(x) =>
              var rest := FirstArrivals(cands);
              if x.routeId !in rest || x.arrival < rest[x.routeId].arrival then rest[x.routeId := x] else rest
  {
    assert (cands + [c])[..|cands|] == cands;
  }

  /**
   * buildArrivalText without a prediction: a notice when the stop time has no arrival
   * time, otherwise a static line with the minutes to the scheduled time.
   */
  function BuildArrivalText(trip: Trip, st: StopTime, nowTod: TimeOfDay): (r: string)
    ensures StartsWith(r, trip.routeId + " - ")
    ensures st.arrivalTime.None? <==> r == trip.routeId + " - orario non disponibile"
    ensures st.arrivalTime.Some? ==> EndsWith(r, " min (statico)")
  {
    match st.arrivalTime
    case None => trip.routeId + " - orario non disponibile"
    case Some(scheduled) =>
      var diff := Arrivals.Max0(TruncDiv(scheduled - nowTod, 60));
      Arrivals.StaticLineMarked(trip.routeId, diff);
      Arrivals.StaticLineNotice(trip.routeId, diff);
      Arrivals.StaticLine(trip.routeId, diff)
  }

  /** The line of a fallback entry. */
  function FallbackText(e: Fallback, nowTod: TimeOfDay): string
  {
    Arrivals.StaticLine(e.routeId, Arrivals.Max0(TruncDiv(e.arrival - nowTod, 60)))
  }

  function FallbackTexts(entries: seq<Fallback>, nowTod: TimeOfDay): seq<string>
  {
    seq(|entries|, i requires 0 <= i < |entries| => FallbackText(entries[i], nowTod))
  }

  /** The values of primiArrivi in the map's iteration order. */
  method FallbacksOf(primiArrivi: map<string, Fallback>) returns (values: seq<Fallback>)
    ensures multiset(values) == multiset(primiArrivi.Values)
  {
    values := [];
    var rest := primiArrivi.Values;
    while rest != {}
      invariant rest <= primiArrivi.Values
      invariant multiset(values) + multiset(rest) == multiset(primiArrivi.Values)
      decreases rest
    {
      var e :| e in rest;
      values := values + [e];
      rest := rest - {e};
    }
  }

  /** A fallback entry whose stop time's trip resolves to its route and whose arrival it records. */
  predicate FallbackOk(e: Fallback, matcher: Matcher)
  {
    matcher(e.stopTime.tripId).Some? && matcher(e.stopTime.tripId).value.routeId == e.routeId &&
    e.stopTime.arrivalTime == Some(e.arrival)
  }

  /** The lines of the realtime board, one per route in board order. */
  function RealtimeLines(board: seq<RouteEpoch>, now: int, offset: int): seq<string>
  {
    seq(|board|, i requires 0 <= i < |board| => FormatLineText(board[i].0, board[i].1, now, offset))
  }

  /** The loop of showFloatingArrivals over the realtime board: one line per route in order. */
  method RealtimeLinesOf(board: seq<RouteEpoch>, now: int, offset: int) returns (lines: seq<string>)
    ensures lines == RealtimeLines(board, now, offset)
  {
    lines := [];
    var i := 0;
    while i < |board|
      invariant 0 <= i <= |board|
      invariant lines == RealtimeLines(board[..i], now, offset)
    {
      var route, epoch := board[i].0, board[i].1;
      assert board[..i + 1] == board[..i] + [board[i]];
      lines := lines + [FormatLineText(route, epoch, now, offset)];
      i := i + 1;
    }
    assert board[..i] == board;
  }

  /**
   * The controller's realtime state: the latest trip-update snapshot per feed trip and the
   * route each feed trip resolved to, kept across refreshes.
   */
  class TrackerController {
    var realtimeArrivals: FeedSnapshot
    var feedTripToRoute: RouteCache
    const matcher: Matcher
    const normalizeFeedTripId: FeedNormalizer
    const stopTripMapper: TripIndex.StopTripMapper

    constructor(matcher: Matcher, normalizeFeedTripId: FeedNormalizer, stopTripMapper: TripIndex.StopTripMapper)
      ensures this.matcher == matcher && this.normalizeFeedTripId == normalizeFeedTripId
      ensures this.stopTripMapper == stopTripMapper
      ensures realtimeArrivals == map[] && feedTripToRoute == map[]
      ensures Valid()
    {
      this.matcher := matcher;
      this.normalizeFeedTripId := normalizeFeedTripId;
      this.stopTripMapper := stopTripMapper;
      realtimeArrivals := map[];
      feedTripToRoute := map[];
    }

    /** resolveRouteForFeedTripStrict with this controller's matcher. */
    function Resolve(): Resolver
    {
      id => ResolveRouteForFeedTripStrict(id, matcher, normalizeFeedTripId)
    }

    /** Every cached route is the one strict resolution gives. */
    ghost predicate Valid()
      reads this
    {
      CacheSound(feedTripToRoute, Resolve())
    }

    /** The refresh step: the snapshot is rebuilt from the batch; the cache only gains new feed trips. */
    method RefreshRealtimeArrivals(updates: seq<TripUpdateRecord>)
      requires Valid()
      modifies this
      ensures Valid()
      ensures realtimeArrivals == FeedSnapshotOf(updates)
      ensures feedTripToRoute == CacheAfter(old(feedTripToRoute), updates, Resolve())
    {
      ghost var cache0 := feedTripToRoute;
      realtimeArrivals := map[];
      var i := 0;
      while i < |updates|
        invariant 0 <= i <= |updates|
        invariant realtimeArrivals == FeedSnapshotOf(updates[..i])
        invariant feedTripToRoute == CacheAfter(cache0, updates[..i], Resolve())
      {
        var u := updates[i];
        var feedTrip := u.tripId;
        PrefixStep(updates, i);
        realtimeArrivals := Put(realtimeArrivals, feedTrip, u.stopId, u.arrivalEpochSeconds);
        if feedTrip !in feedTripToRoute {
          var route := ResolveRouteForFeedTripStrict(feedTrip, matcher, normalizeFeedTripId);
          feedTripToRoute := feedTripToRoute[feedTrip := route];
        }
        i := i + 1;
      }
      assert updates[..i] == updates;
      CacheAfterSound(cache0, updates, Resolve());
    }

    /** One iteration over the snapshot: filter the prediction, resolve (and cache) its route, keep the nearest. */
    method VisitFeedTrip(feedTrip: Option<string>, stopId: Option<string>, now: int, routeToEpoch: map<string, int>)
      returns (r: map<string, int>)
      requires Valid()
      modifies this
      ensures Valid() && realtimeArrivals == old(realtimeArrivals)
      ensures feedTripToRoute.Keys == old(feedTripToRoute).Keys + Qualifying(realtimeArrivals, {feedTrip}, stopId, now)
      ensures r == Aggregate(routeToEpoch, realtimeArrivals, feedTrip, stopId, now, Resolve())
    {
      r := routeToEpoch;
      if feedTrip !in realtimeArrivals { return; }
      var byStop := realtimeArrivals[feedTrip];
      if stopId.None? || stopId.value !in byStop { return; }
      var epoch := byStop[stopId.value];
      if epoch <= 0 { return; }
      var deltaMin := Abs(TruncDiv(epoch - now, 60));
      if deltaMin > MaxPredictionDistanceMin { return; }
      var route: Option<string>;
      if feedTrip !in feedTripToRoute {
        route := ResolveRouteForFeedTripStrict(feedTrip, matcher, normalizeFeedTripId);
        feedTripToRoute := feedTripToRoute[feedTrip := route];
      } else {
        route := feedTripToRoute[feedTrip];
      }
      if route.None? { return; }
      if route.value !in r || epoch < r[route.value] {
        r := r[route.value := epoch];
      }
    }

    /** The loop of getRealtimeArrivalsByRouteForStop over the snapshot, in the map's iteration order. */
    method AggregateByRoute(stopId: Option<string>, now: int) returns (routeToEpoch: map<string, int>)
      requires Valid()
      modifies this
      ensures Valid() && realtimeArrivals == old(realtimeArrivals)
      ensures feedTripToRoute.Keys == old(feedTripToRoute).Keys + Qualifying(realtimeArrivals, realtimeArrivals.Keys, stopId, now)
      ensures RouteMinimum(realtimeArrivals, realtimeArrivals.Keys, stopId, now, Resolve(), routeToEpoch)
    {
      routeToEpoch := map[];
      var rest := realtimeArrivals.Keys;
      ghost var done: set<Option<string>> := {};
      ghost var cache0 := feedTripToRoute.Keys;
      while rest != {}
        invariant Valid() && realtimeArrivals == old(realtimeArrivals)
        invariant rest !! done && rest + done == realtimeArrivals.Keys
        invariant feedTripToRoute.Keys == cache0 + Qualifying(realtimeArrivals, done, stopId, now)
        invariant RouteMinimum(realtimeArrivals, done, stopId, now, Resolve(), routeToEpoch)
        decreases rest
      {
        var feedTrip :| feedTrip in rest;
        AggregateStep(realtimeArrivals, done, feedTrip, stopId, now, Resolve(), routeToEpoch);
        QualifyingUnion(realtimeArrivals, done, {feedTrip}, stopId, now);
        ghost var before := feedTripToRoute.Keys;
        routeToEpoch := VisitFeedTrip(feedTrip, stopId, now, routeToEpoch);
        UnionStep(cache0, before, feedTripToRoute.Keys, Qualifying(realtimeArrivals, done, stopId, now),
                  Qualifying(realtimeArrivals, {feedTrip}, stopId, now), Qualifying(realtimeArrivals, done + {feedTrip}, stopId, now));
        rest := rest - {feedTrip};
        done := done + {feedTrip};
      }
    }

    /**
     * getRealtimeArrivalsByRouteForStop: per resolved route the nearest qualifying prediction at the
     * stop, sorted by epoch and cut to `maxResults`; every qualifying feed trip ends up in the cache.
     */
    method GetRealtimeArrivalsByRouteForStop(stopId: Option<string>, maxResults: nat, now: int)
      returns (result: seq<RouteEpoch>, ghost byRoute: map<string, int>, ghost sorted: seq<RouteEpoch>)
      requires Valid()
      modifies this
      ensures Valid() && realtimeArrivals == old(realtimeArrivals)
      ensures feedTripToRoute.Keys == old(feedTripToRoute).Keys + Qualifying(realtimeArrivals, realtimeArrivals.Keys, stopId, now)
      ensures RouteMinimum(realtimeArrivals, realtimeArrivals.Keys, stopId, now, Resolve(), byRoute)
      ensures multiset(sorted) == multiset(byRoute.Items) && SortedByKey(sorted, EpochOf)
      ensures result == sorted[..if maxResults < |sorted| then maxResults else |sorted|]
    {
      var routeToEpoch := AggregateByRoute(stopId, now);
      byRoute := routeToEpoch;
      var entries := EntriesOf(routeToEpoch);
      var all := SortByKey(entries, EpochOf);
      sorted := all;
      var n := if maxResults < |all| then maxResults else |all|;
      result := all[..n];
    }

    /** The loop collecting primiArrivi: per route the stop time of its first, earliest arrival within the hour. */
    method SelectFirstArrivals(times: seq<StopTime>, nowTod: TimeOfDay) returns (primiArrivi: map<string, Fallback>)
      ensures primiArrivi == FirstArrivals(FallbackCandidates(times, matcher, nowTod))
      ensures forall e :: e in primiArrivi.Values ==> FallbackOk(e, matcher)
    {
      ghost var cands := FallbackCandidates(times, matcher, nowTod);
      primiArrivi := map[];
      var i := 0;
      while i < |times|
        invariant 0 <= i <= |times|
        invariant primiArrivi == FirstArrivals(cands[..i])
        invariant forall e :: e in primiArrivi.Values ==> FallbackOk(e, matcher)
      {
        var st := times[i];
        FirstArrivalsStep(cands[..i], cands[i]);
        assert cands[..i + 1] == cands[..i] + [cands[i]];
        var trip := matcher(st.tripId);
        if trip.Some? && st.arrivalTime.Some? {
          var arr := st.arrivalTime.value;
          var diff := TruncDiv(arr - nowTod, 60);
          if 0 <= diff <= StaticFallbackMin {
            var routeId := trip.value.routeId;
            if routeId !in primiArrivi || arr < primiArrivi[routeId].arrival {
              primiArrivi := primiArrivi[routeId := Fallback(routeId, st, arr)];
            }
          }
        }
        i := i + 1;
      }
      assert cands[..i] == cands;
    }

    /** The stream over primiArrivi's entries: each stop time's text, then sorted. */
    method FallbackLinesOf(primiArrivi: map<string, Fallback>, nowTod: TimeOfDay)
      returns (lines: seq<string>, ghost values: seq<Fallback>)
      requires forall e :: e in primiArrivi.Values ==> FallbackOk(e, matcher)
      ensures multiset(values) == multiset(primiArrivi.Values)
      ensures multiset(lines) == multiset(FallbackTexts(values, nowTod)) && SortedStrings(lines)
    {
      var entries := FallbacksOf(primiArrivi);
      values := entries;
      var texts: seq<string> := [];
      var i := 0;
      while i < |entries|
        invariant 0 <= i <= |entries|
        invariant texts == FallbackTexts(entries[..i], nowTod)
      {
        var e := entries[i];
        assert e in multiset(entries);
        var trip := matcher(e.stopTime.tripId);
        assert entries[..i + 1] == entries[..i] + [e];
        if trip.Some? {
          texts := texts + [BuildArrivalText(trip.value, e.stopTime, nowTod)];
        }
        i := i + 1;
      }
      assert entries[..i] == entries;
      lines := SortStrings(texts);
    }

    /** The static fallback lines for a stop's stop times at local time of day `nowTod`. */
    method StaticFallbackLines(times: seq<StopTime>, nowTod: TimeOfDay)
      returns (lines: seq<string>, ghost first: map<string, Fallback>, ghost values: seq<Fallback>)
      ensures first == FirstArrivals(FallbackCandidates(times, matcher, nowTod))
      ensures multiset(values) == multiset(first.Values)
      ensures multiset(lines) == multiset(FallbackTexts(values, nowTod)) && SortedStrings(lines)
    {
      var primiArrivi := SelectFirstArrivals(times, nowTod);
      first := primiArrivi;
      lines, values := FallbackLinesOf(primiArrivi, nowTod);
    }

    /**
     * showFloatingArrivals without the panel: the realtime lines and the fallback header when any
     * route has a prediction, otherwise the static fallback lines, otherwise the no-arrivals notice.
     */
    method ShowFloatingArrivals(stopId: Option<string>, now: int, offset: int)
      returns (displayLines: seq<string>, staticLines: seq<string>, ghost board: seq<RouteEpoch>,
               ghost byRoute: map<string, int>, ghost sorted: seq<RouteEpoch>, ghost values: seq<Fallback>)
      requires Valid()
      modifies this
      ensures Valid() && realtimeArrivals == old(realtimeArrivals)
      ensures RouteMinimum(realtimeArrivals, realtimeArrivals.Keys, stopId, now, Resolve(), byRoute)
      ensures multiset(sorted) == multiset(byRoute.Items) && SortedByKey(sorted, EpochOf)
      ensures board == sorted[..if MaxRtResults < |sorted| then MaxRtResults else |sorted|]
      ensures board != [] ==> displayLines == RealtimeLines(board, now, offset) + [StaticFallbackHeader]
      ensures board == [] ==> displayLines == if staticLines == [] then [Arrivals.NoArrivals] else staticLines
      ensures board == [] ==>
                multiset(values) ==
                  multiset(FirstArrivals(FallbackCandidates(stopTripMapper.GetStopTimesForStop(stopId), matcher, LocalTimeOfDay(now, offset))).Values) &&
                multiset(staticLines) == multiset(FallbackTexts(values, LocalTimeOfDay(now, offset))) && SortedStrings(staticLines)
    {
      var rtByRoute;
      rtByRoute, byRoute, sorted := GetRealtimeArrivalsByRouteForStop(stopId, MaxRtResults, now);
      board := rtByRoute;
      staticLines := [];
      values := [];
      displayLines := [];
      if rtByRoute != [] {
        displayLines := RealtimeLinesOf(rtByRoute, now, offset);
        displayLines := displayLines + [StaticFallbackHeader];
      }
      if rtByRoute == [] {
        var times := stopTripMapper.GetStopTimesForStop(stopId);
        if times != [] {
          ghost var first;
          staticLines, first, values := StaticFallbackLines(times, LocalTimeOfDay(now, offset));
        } else {
          assert FallbackCandidates(times, matcher, LocalTimeOfDay(now, offset)) == [];
        }
        displayLines := displayLines + staticLines;
      }
      if displayLines == [] {
        displayLines := [Arrivals.NoArrivals];
      }
    }
  }
}
