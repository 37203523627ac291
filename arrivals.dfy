/**
 * ArrivalService: the realtime snapshot (trip key to stop to predicted epoch), the
 * strict-then-fuzzy lookup of a prediction for a scheduled stop time, and the per-stop
 * arrival board: at most one entry per route, the most imminent, preferring a realtime
 * prediction, sorted by its key and formatted for display.  The current instant and the
 * time-zone offset are parameters.
 */
module Arrivals {
  import opened Wrappers
  import opened Text
  import opened Sorting
  import opened Gtfs
  import opened Clock
  import TripIds
  import Calendar
  import TripIndex

  const InArrivoThresholdMin: int := 2
  const StaticWindowMin: int := 120
  const RtWindowMin: int := 90
  /** The most a realtime candidate may trail a static entry and still replace it. */
  const TieBreakSeconds: int := 30 * 60
  const NoArrivals: string := "Nessun arrivo imminente"

  /** normalizeTripKey: normalizeSimple followed by a trim, which never changes a key. */
  function NormalizeTripKey(raw: Option<string>): (r: Option<string>)
    ensures r == TripIds.NormalizeSimple(raw)
  {
    var n := TripIds.NormalizeSimple(raw);
    if n.None? then None
    else
      KeyTrimmed(n.value);
      Some(Trim(n.value))
  }

  lemma KeyTrimmed(s: string)
    requires TripIds.IsTripKey(s)
    ensures Trim(s) == s
  {
    assert TripIds.IsLowerKeyChar(s[0]) && TripIds.IsLowerKeyChar(s[|s| - 1]);
    TrimUnchanged(s);
  }

  /** The snapshot keys of a trip id: the variants of its normalised key. */
  function RtKeys(raw: Option<string>): set<string>
  {
    TripIds.GenerateVariants(NormalizeTripKey(raw))
  }

  /** A trip id that does not normalise has no snapshot key, so its records are not stored. */
  lemma UnnormalisableDropped(raw: Option<string>)
    requires TripIds.NormalizeSimple(raw).None?
    ensures RtKeys(raw) == {}
  {
  }

  /** realtimeArrivals: trip key to stop id to predicted epoch seconds. */
  type Snapshot = map<string, map<string, int>>

  /** realtimeArrivals.computeIfAbsent(key, ...).put(stop, epoch). */
  function Put(m: Snapshot, key: string, stop: string, epoch: int): Snapshot
  {
    m[key := (if key in m then m[key] else map[])[stop := epoch]]
  }

  /** The same put under every key of a set. */
  function Store(m: Snapshot, keys: set<string>, stop: string, epoch: int): Snapshot
  {
    map k | k in m.Keys + keys :: if k in keys then (if k in m then m[k] else map[])[stop := epoch] else m[k]
  }

  lemma StorePut(m: Snapshot, keys: set<string>, stop: string, epoch: int, key: string)
    ensures Put(Store(m, keys, stop, epoch), key, stop, epoch) == Store(m, keys + {key}, stop, epoch)
  {
    var a := Put(Store(m, keys, stop, epoch), key, stop, epoch);
    var b := Store(m, keys + {key}, stop, epoch);
    assert a.Keys == b.Keys;
    forall k | k in a.Keys
      ensures a[k] == b[k]
    {
    }
  }

  lemma StoreNone(m: Snapshot, stop: string, epoch: int)
    ensures Store(m, {}, stop, epoch) == m
  {
    assert Store(m, {}, stop, epoch).Keys == m.Keys;
  }

  type KeySets = Option<string> -> set<string>

  /** The snapshot after storing the records in order, each under the keys `keysOf` gives. */
  function SnapshotOf(updates: seq<TripUpdateRecord>, keysOf: KeySets): Snapshot
  {
    if updates == [] then map[]
    else
      var u := updates[|updates| - 1];
      Store(SnapshotOf(updates[..|updates| - 1], keysOf), keysOf(u.tripId), u.stopId, u.arrivalEpochSeconds)
  }

  /** The epoch stored under a key for a stop; a null stop finds nothing. */
  function Arrival(m: Snapshot, key: string, stop: Option<string>): Option<int>
  {
    if stop.Some? && key in m && stop.value in m[key] then Some(m[key][stop.value]) else None
  }

  lemma ArrivalStore(m: Snapshot, keys: set<string>, stop: string, epoch: int, key: string, s: Option<string>)
    ensures Arrival(Store(m, keys, stop, epoch), key, s) ==
            if key in keys && s == Some(stop) then Some(epoch) else Arrival(m, key, s)
  {
  }

  /** The record stored last under a key for a stop is the one the snapshot holds. */
  lemma {:induction false} LatestRecordWins(updates: seq<TripUpdateRecord>, keysOf: KeySets, j: nat, key: string)
    requires j < |updates| && key in keysOf(updates[j].tripId)
    requires forall i :: j < i < |updates| ==> key !in keysOf(updates[i].tripId) || updates[i].stopId != updates[j].stopId
    ensures Arrival(SnapshotOf(updates, keysOf), key, Some(updates[j].stopId)) == Some(updates[j].arrivalEpochSeconds)
  {
    var init, u := updates[..|updates| - 1], updates[|updates| - 1];
    ArrivalStore(SnapshotOf(init, keysOf), keysOf(u.tripId), u.stopId, u.arrivalEpochSeconds, key, Some(updates[j].stopId));
    if j < |updates| - 1 {
      assert init[j] == updates[j];
      forall i | j < i < |init|
        ensures key !in keysOf(init[i].tripId) || init[i].stopId != init[j].stopId
      {
        assert init[i] == updates[i];
      }
      LatestRecordWins(init, keysOf, j, key);
    }
  }

  /** A key and stop no record was stored under hold nothing; in particular after an empty batch. */
  lemma {:induction false} UnstoredAbsent(updates: seq<TripUpdateRecord>, keysOf: KeySets, key: string, stop: string)
    requires forall i :: 0 <= i < |updates| ==> key !in keysOf(updates[i].tripId) || updates[i].stopId != stop
    ensures Arrival(SnapshotOf(updates, keysOf), key, Some(stop)) == None
  {
    if updates != [] {
      var init, u := updates[..|updates| - 1], updates[|updates| - 1];
      ArrivalStore(SnapshotOf(init, keysOf), keysOf(u.tripId), u.stopId, u.arrivalEpochSeconds, key, Some(stop));
      forall i | 0 <= i < |init|
        ensures key !in keysOf(init[i].tripId) || init[i].stopId != stop
      {
        assert init[i] == updates[i];
      }
      UnstoredAbsent(init, keysOf, key, stop);
    }
  }

  lemma SnapshotStep(updates: seq<TripUpdateRecord>, keysOf: KeySets, i: nat)
    requires i < |updates|
    ensures SnapshotOf(updates[..i + 1], keysOf) ==
            Store(SnapshotOf(updates[..i], keysOf), keysOf(updates[i].tripId), updates[i].stopId, updates[i].arrivalEpochSeconds)
  {
    assert updates[..i + 1][..i] == updates[..i];
  }

  /** The loop over the variants of one record: a put under each, in no fixed order. */
  method StoreUnder(m: Snapshot, keys: set<string>, stop: string, epoch: int) returns (r: Snapshot)
    ensures r == Store(m, keys, stop, epoch)
  {
    r := m;
    StoreNone(m, stop, epoch);
    var rest := keys;
    ghost var done: set<string> := {};
    while rest != {}
      invariant rest <= keys && done == keys - rest
      invariant r == Store(m, done, stop, epoch)
      decreases rest
    {
      var key :| key in rest;
      StorePut(m, done, stop, epoch, key);
      r := Put(r, key, stop, epoch);
      done := done + {key};
      rest := rest - {key};
    }
    assert done == keys;
  }

  /** A stored key contains the static variant (`contains` or `endsWith`). */
  predicate Matches(key: string, v: string)
  {
    Contains(key, v) || EndsWith(key, v)
  }

  /** Some variant is itself a key holding the stop. */
  predicate HasExact(m: Snapshot, vs: set<string>, stop: Option<string>)
  {
    exists v :: v in vs && Arrival(m, v, stop).Some?
  }

  /** Some key matching some variant holds the stop. */
  predicate HasFuzzy(m: Snapshot, vs: set<string>, stop: Option<string>)
  {
    exists key, v :: key in m && v in vs && Matches(key, v) && Arrival(m, key, stop).Some?
  }

  /**
   * lookupRealtimeArrivalEpochStrictByStop over the variants `vs`: the epoch under some
   * variant that holds the stop; failing that, under some key matching some variant; else
   * None.  Which one, when several qualify, depends on the hash order.
   */
  predicate IsLookupResult(m: Snapshot, vs: set<string>, stop: Option<string>, r: Option<int>)
  {
    if HasExact(m, vs, stop) then exists v :: v in vs && Arrival(m, v, stop).Some? && r == Arrival(m, v, stop)
    else if HasFuzzy(m, vs, stop) then
      exists key, v :: key in m && v in vs && Matches(key, v) && Arrival(m, key, stop).Some? && r == Arrival(m, key, stop)
    else r.None?
  }

  /** A lookup finds something exactly when a stored key containing a variant holds the stop. */
  lemma LookupFindsIff(m: Snapshot, vs: set<string>, stop: Option<string>, r: Option<int>)
    requires IsLookupResult(m, vs, stop, r)
    ensures r.Some? <==> exists key, v :: key in m && v in vs && Contains(key, v) && Arrival(m, key, stop).Some?
  {
    if HasExact(m, vs, stop) {
      var v :| v in vs && Arrival(m, v, stop).Some?;
      assert InfixAt(v, v, 0);
      assert v in m && Contains(v, v);
    } else if HasFuzzy(m, vs, stop) {
      var key, v :| key in m && v in vs && Matches(key, v) && Arrival(m, key, stop).Some?;
      if EndsWith(key, v) {
        EndsWithContains(key, v);
      }
    } else {
      forall key, v | key in m && v in vs && Contains(key, v)
        ensures Arrival(m, key, stop).None?
      {
        assert Matches(key, v);
      }
    }
  }

  /** The first pass of the lookup: the variants as keys. */
  method ExactPass(m: Snapshot, vs: set<string>, stop: Option<string>) returns (r: Option<int>)
    ensures r.Some? <==> HasExact(m, vs, stop)
    ensures r.Some? ==> exists v :: v in vs && Arrival(m, v, stop).Some? && r == Arrival(m, v, stop)
  {
    var rest := vs;
    while rest != {}
      invariant rest <= vs
      invariant forall v :: v in vs - rest ==> Arrival(m, v, stop).None?
      decreases rest
    {
      var v :| v in rest;
      if v in m && stop.Some? && stop.value in m[v] {
        return Some(m[v][stop.value]);
      }
      rest := rest - {v};
    }
    assert vs - rest == vs;
    return None;
  }

  /** The second pass of the lookup: every stored key against every variant. */
  method FuzzyPass(m: Snapshot, vs: set<string>, stop: Option<string>) returns (r: Option<int>)
    ensures r.Some? <==> HasFuzzy(m, vs, stop)
    ensures r.Some? ==>
              exists key, v :: key in m && v in vs && Matches(key, v) && Arrival(m, key, stop).Some? && r == Arrival(m, key, stop)
  {
    var keys := m.Keys;
    while keys != {}
      invariant keys <= m.Keys
      invariant forall key, v :: key in m.Keys - keys && v in vs && Matches(key, v) ==> Arrival(m, key, stop).None?
      decreases keys
    {
      var key :| key in keys;
      r := MatchingVariant(m, key, vs, stop);
      if r.Some? {
        return r;
      }
      keys := keys - {key};
    }
    assert m.Keys - keys == m.Keys;
    return None;
  }

  /** The inner loop of the second pass, for one stored key. */
  method MatchingVariant(m: Snapshot, key: string, vs: set<string>, stop: Option<string>) returns (r: Option<int>)
    requires key in m
    ensures r.Some? <==> (exists v :: v in vs && Matches(key, v)) && Arrival(m, key, stop).Some?
    ensures r.Some? ==> r == Arrival(m, key, stop)
  {
    var rest := vs;
    while rest != {}
      invariant rest <= vs
      invariant forall v :: v in vs - rest ==> !Matches(key, v) || Arrival(m, key, stop).None?
      decreases rest
    {
      var v :| v in rest;
      if Matches(key, v) {
        if stop.Some? && stop.value in m[key] {
          return Some(m[key][stop.value]);
        }
      }
      rest := rest - {v};
    }
    assert vs - rest == vs;
    return None;
  }

  /** The lookup over the variants `vs`: the exact pass, then the fuzzy pass. */
  method LookupIn(m: Snapshot, vs: set<string>, stop: Option<string>) returns (r: Option<int>)
    ensures IsLookupResult(m, vs, stop, r)
  {
    r := ExactPass(m, vs, stop);
    if r.None? {
      r := FuzzyPass(m, vs, stop);
    }
  }

  /** A stored record is found under each of its keys for its stop. */
  lemma {:induction false} StoredFound(updates: seq<TripUpdateRecord>, keysOf: KeySets, j: nat, key: string)
    requires j < |updates| && key in keysOf(updates[j].tripId)
    ensures Arrival(SnapshotOf(updates, keysOf), key, Some(updates[j].stopId)).Some?
  {
    var init, u := updates[..|updates| - 1], updates[|updates| - 1];
    ArrivalStore(SnapshotOf(init, keysOf), keysOf(u.tripId), u.stopId, u.arrivalEpochSeconds, key, Some(updates[j].stopId));
    if j < |updates| - 1 {
      assert init[j] == updates[j];
      StoredFound(init, keysOf, j, key);
    }
  }

  /**
   * A static trip whose id normalises to the same key as a stored record's finds a
   * prediction at that record's stop, whatever the hash order.
   */
  lemma SameKeyFound(updates: seq<TripUpdateRecord>, j: nat, staticTrip: Option<string>, r: Option<int>)
    requires j < |updates|
    requires TripIds.NormalizeSimple(staticTrip).Some?
    requires TripIds.NormalizeSimple(staticTrip) == TripIds.NormalizeSimple(updates[j].tripId)
    requires IsLookupResult(SnapshotOf(updates, RtKeys), RtKeys(staticTrip), Some(updates[j].stopId), r)
    ensures r.Some?
  {
    var n := TripIds.NormalizeSimple(staticTrip).value;
    KeyTrimmed(n);
    assert RtKeys(staticTrip) == TripIds.GenerateVariants(Some(n)) != {};
    var v :| v in RtKeys(staticTrip);
    StoredFound(updates, RtKeys, j, v);
    assert HasExact(SnapshotOf(updates, RtKeys), RtKeys(staticTrip), Some(updates[j].stopId));
  }

  /** RouteArrivalInfo: one candidate arrival of a route at the stop. */
  datatype ArrivalInfo = ArrivalInfo(routeId: string, stopTime: StopTime, scheduledEpoch: int, predictedEpoch: Option<int>)

  /** sortKey: the prediction when there is one, else the scheduled instant. */
  function SortKey(info: ArrivalInfo): (r: int)
    ensures info.predictedEpoch.Some? ==> r == info.predictedEpoch.value
    ensures info.predictedEpoch.None? ==> r == info.scheduledEpoch
  {
    if info.predictedEpoch.Some? then info.predictedEpoch.value else info.scheduledEpoch
  }

  /** What one computation of a board depends on besides the snapshot. */
  datatype Context = Context(matcher: Matcher, serviceDates: Calendar.ServiceDates, offset: int, now: int, feedTs: int)

  /** A trip with an empty service id is never filtered by the calendar. */
  predicate ServiceActive(trip: Trip, ctx: Context)
  {
    trip.serviceId == [] || Calendar.RunsOn(ctx.serviceDates, trip.serviceId, LocalDate(ctx.feedTs, ctx.offset))
  }

  /**
   * The static filters of the loop in computeArrivalsForStop: a matched trip whose service
   * runs on the feed date, an arrival time, a positive scheduled instant, and a truncated
   * minute difference from now between -2 and the static window.
   */
  function StaticEpoch(st: StopTime, ctx: Context): Option<int>
  {
    var trip := ctx.matcher(st.tripId);
    if trip.None? || !ServiceActive(trip.value, ctx) || st.arrivalTime.None? then None
    else
      var scheduled := ScheduledEpoch(st.arrivalTime, ctx.feedTs, ctx.offset);
      if scheduled <= 0 then None
      else
        var diffMin := TruncDiv(scheduled - ctx.now, 60);
        if diffMin < -2 || diffMin > StaticWindowMin then None else Some(scheduled)
  }

  /** The static window in seconds: from just under three minutes ago to just under 121 minutes ahead. */
  lemma StaticEpochInSeconds(st: StopTime, ctx: Context)
    ensures StaticEpoch(st, ctx).Some? <==>
              ctx.matcher(st.tripId).Some? && ServiceActive(ctx.matcher(st.tripId).value, ctx) && st.arrivalTime.Some? &&
              var scheduled := ScheduledEpoch(st.arrivalTime, ctx.feedTs, ctx.offset);
              0 < scheduled && -180 < scheduled - ctx.now < 7260
    ensures StaticEpoch(st, ctx).Some? ==> StaticEpoch(st, ctx).value == ScheduledEpoch(st.arrivalTime, ctx.feedTs, ctx.offset)
  {
    MinuteWindow(ScheduledEpoch(st.arrivalTime, ctx.feedTs, ctx.offset) - ctx.now, -2, StaticWindowMin);
  }

  /** The sanity check on a prediction: a truncated minute difference from now between -2 and the realtime window. */
  function KeptPrediction(predicted: Option<int>, now: int): Option<int>
  {
    if predicted.Some? && -2 <= TruncDiv(predicted.value - now, 60) <= RtWindowMin then predicted else None
  }

  /** The realtime window in seconds: from just under three minutes ago to just under 91 minutes ahead. */
  lemma KeptPredictionInSeconds(predicted: Option<int>, now: int)
    ensures KeptPrediction(predicted, now).Some? <==> predicted.Some? && -180 < predicted.value - now < 5460
    ensures KeptPrediction(predicted, now).Some? ==> KeptPrediction(predicted, now) == predicted
  {
    if predicted.Some? {
      MinuteWindow(predicted.value - now, -2, RtWindowMin);
    }
  }

  /** The candidate a stop time yields, given what the realtime lookup returned for it. */
  function CandidateOf(st: StopTime, ctx: Context, predicted: Option<int>): Option<ArrivalInfo>
  {
    match StaticEpoch(st, ctx)
    case None => None
    case Some(scheduled) =>
      Some(ArrivalInfo(ctx.matcher(st.tripId).value.routeId, st, scheduled, KeptPrediction(predicted, ctx.now)))
  }

  /** What every entry of a board satisfies. */
  predicate Plausible(info: ArrivalInfo, ctx: Context)
  {
    info.stopTime.arrivalTime.Some? && 0 < info.scheduledEpoch &&
    -180 < info.scheduledEpoch - ctx.now < 7260 &&
    (info.predictedEpoch.Some? ==> -180 < info.predictedEpoch.value - ctx.now < 5460)
  }

  lemma CandidatePlausible(st: StopTime, ctx: Context, predicted: Option<int>)
    requires CandidateOf(st, ctx, predicted).Some?
    ensures Plausible(CandidateOf(st, ctx, predicted).value, ctx)
    ensures CandidateOf(st, ctx, predicted).value.stopTime == st
    ensures CandidateOf(st, ctx, predicted).value.routeId == ctx.matcher(st.tripId).value.routeId
  {
    StaticEpochInSeconds(st, ctx);
    KeptPredictionInSeconds(predicted, ctx.now);
  }

  /** Whether a candidate displaces the route's current entry: sooner, or realtime over static within the tie-break. */
  predicate Replaces(current: ArrivalInfo, candidate: ArrivalInfo)
  {
    SortKey(candidate) < SortKey(current) ||
    (candidate.predictedEpoch.Some? && current.predictedEpoch.None? &&
     SortKey(candidate) - SortKey(current) < TieBreakSeconds)
  }

  function Merge(perRoute: map<string, ArrivalInfo>, candidate: ArrivalInfo): map<string, ArrivalInfo>
  {
    if candidate.routeId !in perRoute || Replaces(perRoute[candidate.routeId], candidate)
    then perRoute[candidate.routeId := candidate]
    else perRoute
  }

  /** The candidates of the stop times in order, `predicted[i]` being the lookup result for `times[i]`. */
  function Candidates(times: seq<StopTime>, ctx: Context, predicted: seq<Option<int>>): seq<Option<ArrivalInfo>>
    requires |predicted| == |times|
  {
    seq(|times|, i requires 0 <= i < |times| => CandidateOf(times[i], ctx, predicted[i]))
  }

  lemma CandidatesStep(times: seq<StopTime>, ctx: Context, predicted: seq<Option<int>>, p: Option<int>, i: nat)
    requires |predicted| == i < |times|
    ensures Candidates(times[..i + 1], ctx, predicted + [p]) ==
            Candidates(times[..i], ctx, predicted) + [CandidateOf(times[i], ctx, p)]
  {
  }

  /** perRoute after merging the candidates in order. */
  function Board(cands: seq<Option<ArrivalInfo>>): map<string, ArrivalInfo>
  {
    if cands == [] then map[]
    else
      var rest := Board(cands[..|cands| - 1]);
      match cands[|cands| - 1]
      case None => rest
      case Some(c) => Merge(rest, c)
  }

  /** perRoute at the end of the loop of computeArrivalsForStop. */
  function PerRoute(times: seq<StopTime>, ctx: Context, predicted: seq<Option<int>>): map<string, ArrivalInfo>
    requires |predicted| == |times|
  {
    Board(Candidates(times, ctx, predicted))
  }

  /** Candidate `i` is one for route `r`. */
  predicate RouteCandidate(cands: seq<Option<ArrivalInfo>>, i: int, r: string)
  {
    0 <= i < |cands| && cands[i].Some? && cands[i].value.routeId == r
  }

  lemma BoardStep(cands: seq<Option<ArrivalInfo>>, c: Option<ArrivalInfo>)
    ensures Board(cands + [c]) == match c case None => Board(cands) case Some(x) => Merge(Board(cands), x)
  {
    assert (cands + [c])[..|cands|] == cands;
  }

  /**
   * The board has an entry for a route exactly when some candidate is for it, and that
   * entry is one of the route's candidates.
   */
  lemma {:induction false} BoardEntries(cands: seq<Option<ArrivalInfo>>, r: string)
    ensures r in Board(cands) <==> exists i :: RouteCandidate(cands, i, r)
    ensures r in Board(cands) ==> exists i :: RouteCandidate(cands, i, r) && cands[i] == Some(Board(cands)[r])
  {
    if cands != [] {
      var n := |cands| - 1;
      var init := cands[..n];
      BoardEntries(init, r);
      forall i | 0 <= i < n
        ensures RouteCandidate(init, i, r) == RouteCandidate(cands, i, r)
      {
        assert init[i] == cands[i];
      }
      var m := Board(cands);
      var c := cands[n];
      if c.Some? && c.value.routeId == r {
        assert RouteCandidate(cands, n, r);
        if m[r] != c.value {
          var i :| RouteCandidate(init, i, r) && init[i] == Some(Board(init)[r]);
          assert init[i] == cands[i];
        }
      } else {
        if exists i :: RouteCandidate(cands, i, r) {
          var i :| RouteCandidate(cands, i, r);
          assert i < n && RouteCandidate(init, i, r);
        }
        if r in m {
          var i :| RouteCandidate(init, i, r) && init[i] == Some(Board(init)[r]);
          assert init[i] == cands[i];
        }
      }
    }
  }

  /** Every entry of a board is keyed by its own route and passed the filters. */
  lemma PerRoutePlausible(times: seq<StopTime>, ctx: Context, predicted: seq<Option<int>>, r: string)
    requires |predicted| == |times| && r in PerRoute(times, ctx, predicted)
    ensures PerRoute(times, ctx, predicted)[r].routeId == r
    ensures Plausible(PerRoute(times, ctx, predicted)[r], ctx)
  {
    var cands := Candidates(times, ctx, predicted);
    BoardEntries(cands, r);
    var i :| RouteCandidate(cands, i, r) && cands[i] == Some(Board(cands)[r]);
    CandidatePlausible(times[i], ctx, predicted[i]);
  }

  /** The entry is candidate `i`, no later than any candidate of its route and sooner than every earlier one. */
  ghost predicate FirstMinimal(cands: seq<Option<ArrivalInfo>>, r: string, i: int)
  {
    RouteCandidate(cands, i, r) &&
    (forall j :: RouteCandidate(cands, j, r) ==> SortKey(cands[i].value) <= SortKey(cands[j].value)) &&
    (forall j :: j < i && RouteCandidate(cands, j, r) ==> SortKey(cands[i].value) < SortKey(cands[j].value))
  }

  /**
   * When a route's candidates are all realtime or all static (offline, every one is static),
   * its entry is the most imminent of them, the first in stop-time order on a tie.
   */
  lemma {:induction false} BoardFirstMinimal(cands: seq<Option<ArrivalInfo>>, r: string, realtime: bool)
    requires forall i :: RouteCandidate(cands, i, r) ==> cands[i].value.predictedEpoch.Some? == realtime
    requires r in Board(cands)
    ensures exists i :: FirstMinimal(cands, r, i) && cands[i] == Some(Board(cands)[r])
  {
    var n := |cands| - 1;
    var init := cands[..n];
    forall i | 0 <= i < n
      ensures RouteCandidate(init, i, r) == RouteCandidate(cands, i, r) && init[i] == cands[i]
    {
    }
    BoardEntries(init, r);
    var c := cands[n];
    if r !in Board(init) {
      assert c.Some? && c.value.routeId == r;
      assert FirstMinimal(cands, r, n);
    } else {
      BoardFirstMinimal(init, r, realtime);
      var i :| FirstMinimal(init, r, i) && init[i] == Some(Board(init)[r]);
      if c.Some? && c.value.routeId == r && SortKey(c.value) < SortKey(Board(init)[r]) {
        MinimalLast(cands, r, i);
      } else {
        MinimalKept(cands, r, i);
      }
    }
  }

  /** A last candidate sooner than the earlier minimum is the new first minimum. */
  lemma MinimalLast(cands: seq<Option<ArrivalInfo>>, r: string, i: int)
    requires cands != [] && FirstMinimal(cands[..|cands| - 1], r, i)
    requires RouteCandidate(cands, |cands| - 1, r)
    requires SortKey(cands[|cands| - 1].value) < SortKey(cands[i].value)
    ensures FirstMinimal(cands, r, |cands| - 1)
  {
    var init := cands[..|cands| - 1];
    forall j | RouteCandidate(cands, j, r) && j < |cands| - 1
      ensures SortKey(cands[|cands| - 1].value) < SortKey(cands[j].value)
    {
      assert RouteCandidate(init, j, r);
    }
  }

  /** A last candidate that is not sooner leaves the first minimum where it was. */
  lemma MinimalKept(cands: seq<Option<ArrivalInfo>>, r: string, i: int)
    requires cands != [] && FirstMinimal(cands[..|cands| - 1], r, i)
    requires RouteCandidate(cands, |cands| - 1, r) ==> SortKey(cands[i].value) <= SortKey(cands[|cands| - 1].value)
    ensures FirstMinimal(cands, r, i)
  {
    var init := cands[..|cands| - 1];
    forall j | RouteCandidate(cands, j, r) && j < |cands| - 1
      ensures RouteCandidate(init, j, r)
    {
    }
  }

  function Max0(x: int): nat { if x < 0 then 0 else x }

  /** The delay label: "ritardo di N min", "anticipo di N min" or "in orario". */
  function StatusText(delayMin: int): (r: string)
    ensures r == "in orario" || EndsWith(r, " min")
  {
    if delayMin > 0 then "ritardo di " + NatToString(delayMin) + " min"
    else if delayMin < 0 then "anticipo di " + NatToString(-delayMin) + " min"
    else "in orario"
  }

  /**
   * What the label says: "ritardo di" exactly for a positive delay, "anticipo di" exactly
   * for a negative one, "in orario" exactly for none, and the number of minutes shown is
   * the delay's absolute value.
   */
  lemma StatusMeaning(delayMin: int)
    ensures delayMin > 0 <==> StartsWith(StatusText(delayMin), "ritardo di ")
    ensures delayMin < 0 <==> StartsWith(StatusText(delayMin), "anticipo di ")
    ensures delayMin == 0 <==> StatusText(delayMin) == "in orario"
    ensures delayMin != 0 ==>
              EndsWith(StatusText(delayMin), NatToString(if delayMin < 0 then -delayMin else delayMin) + " min")
  {
    var r := StatusText(delayMin);
    if delayMin > 0 {
      assert r[0] == 'r' && r[..11] == "ritardo di ";
    } else if delayMin < 0 {
      assert r[0] == 'a' && r[..12] == "anticipo di ";
    }
  }

  /** Distinct delays get distinct labels. */
  lemma StatusInjective(a: int, b: int)
    requires StatusText(a) == StatusText(b)
    ensures a == b
  {
    var s := StatusText(a);
    if a > 0 {
      assert s[0] == 'r';
      assert b > 0;
      var na, nb := NatToString(a), NatToString(b);
      assert |na| == |nb|;
      assert s[11..|s| - 4] == na;
      assert StatusText(b)[11..|s| - 4] == nb;
    } else if a < 0 {
      assert s[0] == 'a';
      assert b < 0;
      var na, nb := NatToString(-a), NatToString(-b);
      assert |na| == |nb|;
      assert s[12..|s| - 4] == na;
      assert StatusText(b)[12..|s| - 4] == nb;
    } else {
      assert s[0] == 'i';
    }
  }

  /** A board entry can be displayed: it has a prediction or a scheduled arrival time. */
  predicate Formattable(info: ArrivalInfo)
  {
    info.predictedEpoch.Some? || info.stopTime.arrivalTime.Some?
  }

  /**
   * formatArrivalInfo: a realtime entry shows the minutes to go (at least 0, "In arrivo" up
   * to the threshold) and the delay label; a static one the minutes from the local time of
   * day to the scheduled arrival time, at least 0, marked "statico".
   */
  function FormatArrivalInfo(info: ArrivalInfo, now: int, offset: int): (r: string)
    requires Formattable(info)
    ensures StartsWith(r, info.routeId + " - ")
  {
    match info.predictedEpoch
    case Some(predicted) =>
      var diff, status := Max0(TruncDiv(predicted - now, 60)), StatusText(TruncDiv(predicted - info.scheduledEpoch, 60));
      RealtimeLineParts(info.routeId, diff, status);
      RealtimeLine(info.routeId, diff, status)
    case None =>
      var diff := Max0(TruncDiv(info.stopTime.arrivalTime.value - LocalTimeOfDay(now, offset), 60));
      StaticLineNotice(info.routeId, diff);
      StaticLine(info.routeId, diff)
  }

  function RealtimeLine(routeId: string, diffFromNowMin: nat, status: string): string
  {
    var head := if diffFromNowMin <= InArrivoThresholdMin then routeId + " - In arrivo"
                else routeId + " - " + NatToString(diffFromNowMin) + " min";
    head + " (" + status + ")"
  }

  function StaticLine(routeId: string, diffStaticMin: nat): string
  {
    routeId + " - " + NatToString(diffStaticMin) + " min (statico)"
  }

  /** A realtime entry reads "In arrivo" exactly when its prediction is less than three minutes ahead. */
  lemma ImminentLabel(info: ArrivalInfo, now: int, offset: int)
    requires info.predictedEpoch.Some?
    ensures StartsWith(FormatArrivalInfo(info, now, offset), info.routeId + " - In arrivo") <==>
            info.predictedEpoch.value - now < 180
  {
    var predicted := info.predictedEpoch.value;
    ImminentWithinThreeMinutes(predicted - now);
    RealtimeLineImminent(info.routeId, Max0(TruncDiv(predicted - now, 60)), StatusText(TruncDiv(predicted - info.scheduledEpoch, 60)));
  }

  /** The threshold in seconds: at most two whole minutes ahead means less than three minutes ahead. */
  lemma ImminentWithinThreeMinutes(x: int)
    ensures Max0(TruncDiv(x, 60)) <= InArrivoThresholdMin <==> x < 180
  {
    MinuteWindow(x, -1, 0);
    MinuteWindow(x, 0, 2);
  }

  /** A realtime line starts with "In arrivo" after the route exactly when its minute count is within the threshold. */
  lemma RealtimeLineImminent(routeId: string, diff: nat, status: string)
    ensures StartsWith(RealtimeLine(routeId, diff, status), routeId + " - In arrivo") <==> diff <= InArrivoThresholdMin
  {
    var line := RealtimeLine(routeId, diff, status);
    var p := routeId + " - In arrivo";
    if diff > InArrivoThresholdMin {
      var digits := NatToString(diff);
      assert line == routeId + " - " + digits + " min" + " (" + status + ")";
      assert line[|routeId| + 3] == digits[0];
      assert p[|routeId| + 3] == 'I';
    } else {
      assert line == p + " (" + status + ")";
    }
  }

  /** Exactly the entries without a prediction are marked "statico". */
  lemma StaticLabel(info: ArrivalInfo, now: int, offset: int)
    requires Formattable(info)
    ensures EndsWith(FormatArrivalInfo(info, now, offset), " min (statico)") <==> info.predictedEpoch.None?
  {
    if info.predictedEpoch.Some? {
      PredictedNotStatic(info, now, offset);
    } else {
      UnpredictedStatic(info, now, offset);
    }
  }

  lemma PredictedNotStatic(info: ArrivalInfo, now: int, offset: int)
    requires Formattable(info) && info.predictedEpoch.Some?
    ensures !EndsWith(FormatArrivalInfo(info, now, offset), " min (statico)")
  {
    var predicted := info.predictedEpoch.value;
    var diff, status := Max0(TruncDiv(predicted - now, 60)), StatusText(TruncDiv(predicted - info.scheduledEpoch, 60));
    assert FormatArrivalInfo(info, now, offset) == RealtimeLine(info.routeId, diff, status);
    RealtimeLineNotStatic(info.routeId, diff, status);
  }

  lemma UnpredictedStatic(info: ArrivalInfo, now: int, offset: int)
    requires Formattable(info) && info.predictedEpoch.None?
    ensures EndsWith(FormatArrivalInfo(info, now, offset), " min (statico)")
  {
    var diff := Max0(TruncDiv(info.stopTime.arrivalTime.value - LocalTimeOfDay(now, offset), 60));
    assert FormatArrivalInfo(info, now, offset) == StaticLine(info.routeId, diff);
    StaticLineMarked(info.routeId, diff);
  }

  lemma StaticLineMarked(routeId: string, diff: nat)
    ensures EndsWith(StaticLine(routeId, diff), " min (statico)")
  {
    EndsWithAppended(routeId + " - " + NatToString(diff), " min (statico)");
  }

  lemma RealtimeLineNotStatic(routeId: string, diff: nat, status: string)
    requires status == "in orario" || EndsWith(status, " min")
    ensures !EndsWith(RealtimeLine(routeId, diff, status), " min (statico)")
  {
    var head := if diff <= InArrivoThresholdMin then routeId + " - In arrivo"
                else routeId + " - " + NatToString(diff) + " min";
    StatusNotStatic(head, status);
  }

  lemma StatusNotStatic(head: string, status: string)
    requires status == "in orario" || EndsWith(status, " min")
    ensures !EndsWith(head + " (" + status + ")", " min (statico)")
  {
    var line := head + " (" + status + ")";
    assert line[|line| - 2] == status[|status| - 1];
    assert line[|line| - 3] == status[|status| - 2];
    assert " min (statico)"[12] == 'o' && " min (statico)"[11] == 'c';
  }

  /** A realtime line starts with its route and ends with its parenthesised status. */
  lemma RealtimeLineParts(routeId: string, diff: nat, status: string)
    ensures StartsWith(RealtimeLine(routeId, diff, status), routeId + " - ")
    ensures EndsWith(RealtimeLine(routeId, diff, status), " (" + status + ")")
  {
    var p := routeId + " - ";
    var x := if diff <= InArrivoThresholdMin then "In arrivo" else NatToString(diff) + " min";
    var tail := " (" + status + ")";
    assert RealtimeLine(routeId, diff, status) == p + x + tail;
    assert (p + x + tail)[..|p|] == p;
    EndsWithAppended(p + x, tail);
  }

  /** A static line starts with its route and is never the no-time notice. */
  lemma StaticLineNotice(routeId: string, diff: nat)
    ensures StartsWith(StaticLine(routeId, diff), routeId + " - ")
    ensures StaticLine(routeId, diff) != routeId + " - orario non disponibile"
  {
    var line := StaticLine(routeId, diff);
    assert line == routeId + " - " + (NatToString(diff) + " min (statico)");
    assert line[|routeId| + 3] == NatToString(diff)[0];
  }

  lemma EndsWithAppended(head: string, tail: string)
    ensures EndsWith(head + tail, tail)
  {
    assert (head + tail)[|head|..] == tail;
  }

  /** The lines of a board: one per entry in order, or the no-arrivals message for none. */
  function Lines(infos: seq<ArrivalInfo>, now: int, offset: int): (r: seq<string>)
    requires forall k :: 0 <= k < |infos| ==> Formattable(infos[k])
    ensures |r| == if infos == [] then 1 else |infos|
    ensures infos == [] ==> r == [NoArrivals]
    ensures forall k :: 0 <= k < |infos| ==> r[k] == FormatArrivalInfo(infos[k], now, offset)
  {
    if infos == [] then [NoArrivals]
    else seq(|infos|, k requires 0 <= k < |infos| => FormatArrivalInfo(infos[k], now, offset))
  }

  /** The values of a per-route map in the map's iteration order; distinct routes make them distinct. */
  method ValuesOf(perRoute: map<string, ArrivalInfo>) returns (values: seq<ArrivalInfo>)
    ensures multiset(values) == multiset(perRoute.Values)
  {
    values := [];
    var rest := perRoute.Values;
    while rest != {}
      invariant rest <= perRoute.Values
      invariant multiset(values) == multiset(perRoute.Values - rest)
      decreases rest
    {
      var x :| x in rest;
      assert perRoute.Values - (rest - {x}) == (perRoute.Values - rest) + {x};
      values := values + [x];
      rest := rest - {x};
    }
    assert perRoute.Values - rest == perRoute.Values;
  }

  /** What the lookup for a stop time against snapshot m returned, None when it was not made. */
  ghost predicate PredictionIn(m: Snapshot, st: StopTime, stopId: Option<string>, mode: ConnectionMode, ctx: Context, p: Option<int>)
  {
    if mode == Online && StaticEpoch(st, ctx).Some? then IsLookupResult(m, RtKeys(st.tripId), stopId, p)
    else p.None?
  }

  /** `ok` holds of each element of xs and the element of ys at the same position. */
  ghost predicate Pairwise<A, B>(xs: seq<A>, ys: seq<B>, ok: (A, B) -> bool)
  {
    |xs| == |ys| &&
    (xs != [] ==> Pairwise(xs[..|xs| - 1], ys[..|xs| - 1], ok) && ok(xs[|xs| - 1], ys[|xs| - 1]))
  }

  lemma PairwiseStep<A, B>(xs: seq<A>, ys: seq<B>, ok: (A, B) -> bool, i: nat, y: B)
    requires i < |xs| && Pairwise(xs[..i], ys, ok) && ok(xs[i], y)
    ensures Pairwise(xs[..i + 1], ys + [y], ok)
  {
    assert xs[..i + 1][..i] == xs[..i] && (ys + [y])[..i] == ys;
  }

  lemma {:induction false} PairwiseEach<A, B>(xs: seq<A>, ys: seq<B>, ok: (A, B) -> bool)
    requires Pairwise(xs, ys, ok)
    ensures |xs| == |ys| && forall i :: 0 <= i < |xs| ==> ok(xs[i], ys[i])
  {
    if xs != [] {
      var n := |xs| - 1;
      PairwiseEach(xs[..n], ys[..n], ok);
      forall i | 0 <= i < n
        ensures ok(xs[i], ys[i])
      {
        assert xs[..n][i] == xs[i] && ys[..n][i] == ys[i];
      }
    }
  }

  /** The service behind the arrival boards: the realtime snapshot and the static sources it matches against. */
  class ArrivalService {
    var realtimeArrivals: Snapshot
    const matcher: Matcher
    const stopTripMapper: TripIndex.StopTripMapper
    const tripServiceCalendar: Calendar.TripServiceCalendar

    constructor(matcher: Matcher, stopTripMapper: TripIndex.StopTripMapper, tripServiceCalendar: Calendar.TripServiceCalendar)
      ensures this.matcher == matcher && this.stopTripMapper == stopTripMapper
      ensures this.tripServiceCalendar == tripServiceCalendar
      ensures realtimeArrivals == map[]
    {
      this.matcher := matcher;
      this.stopTripMapper := stopTripMapper;
      this.tripServiceCalendar := tripServiceCalendar;
      realtimeArrivals := map[];
    }

    /** The context of a board computed at `now` for a feed stamped `feedTs`. */
    function ContextAt(offset: int, now: int, feedTs: int): Context
      reads tripServiceCalendar
    {
      Context(matcher, tripServiceCalendar.serviceDates, offset, now, feedTs)
    }

    /** updateRealtimeArrivals: the snapshot is rebuilt from this batch alone. */
    method UpdateRealtimeArrivals(updates: seq<TripUpdateRecord>)
      modifies this
      ensures realtimeArrivals == SnapshotOf(updates, RtKeys)
    {
      realtimeArrivals := map[];
      var i := 0;
      while i < |updates|
        invariant 0 <= i <= |updates|
        invariant realtimeArrivals == SnapshotOf(updates[..i], RtKeys)
      {
        var u := updates[i];
        var normalizedKey := NormalizeTripKey(u.tripId);
        var variants := TripIds.GenerateVariants(normalizedKey);
        SnapshotStep(updates, RtKeys, i);
        realtimeArrivals := StoreUnder(realtimeArrivals, variants, u.stopId, u.arrivalEpochSeconds);
        i := i + 1;
      }
      assert updates[..i] == updates;
    }

    /** lookupRealtimeArrivalEpochStrictByStop for a static stop time at the board's stop. */
    method LookupRealtimeArrivalEpochStrictByStop(st: StopTime, stopId: Option<string>) returns (r: Option<int>)
      ensures IsLookupResult(realtimeArrivals, RtKeys(st.tripId), stopId, r)
    {
      var normalizedStaticKey := NormalizeTripKey(st.tripId);
      var staticVariants := TripIds.GenerateVariants(normalizedStaticKey);
      r := LookupIn(realtimeArrivals, staticVariants, stopId);
    }

    /** What the lookup for a stop time returned, None when it was not made. */
    ghost predicate IsPrediction(st: StopTime, stopId: Option<string>, mode: ConnectionMode, ctx: Context, p: Option<int>)
      reads this
    {
      PredictionIn(realtimeArrivals, st, stopId, mode, ctx, p)
    }

    /** One pass of the loop of computeArrivalsForStop: the candidate a stop time yields, if any. */
    method EvaluateStopTime(st: StopTime, stopId: Option<string>, mode: ConnectionMode, currentFeedTs: int, now: int, offset: int)
      returns (c: Option<ArrivalInfo>, ghost p: Option<int>)
      ensures IsPrediction(st, stopId, mode, ContextAt(offset, now, currentFeedTs), p)
      ensures c == CandidateOf(st, ContextAt(offset, now, currentFeedTs), p)
    {
      ghost var ctx := ContextAt(offset, now, currentFeedTs);
      p := None;
      c := None;
      var trip := matcher(st.tripId);
      if trip.None? {
        assert StaticEpoch(st, ctx).None?;
        return;
      }
      var routeId := trip.value.routeId;
      var serviceId := trip.value.serviceId;
      if serviceId != [] {
        var feedDate := LocalDate(currentFeedTs, offset);
        if !tripServiceCalendar.ServiceRunsOnDate(serviceId, feedDate) {
          assert !ServiceActive(trip.value, ctx);
          assert StaticEpoch(st, ctx).None?;
          return;
        }
      }
      assert ServiceActive(trip.value, ctx);
      if st.arrivalTime.None? {
        assert StaticEpoch(st, ctx).None?;
        return;
      }
      var scheduledEpoch := ComputeScheduledEpochForFeed(st.arrivalTime, currentFeedTs, offset);
      if scheduledEpoch <= 0 {
        assert StaticEpoch(st, ctx).None?;
        return;
      }
      var staticDiffMin := TruncDiv(scheduledEpoch - now, 60);
      if staticDiffMin < -2 || staticDiffMin > StaticWindowMin {
        assert StaticEpoch(st, ctx).None?;
        return;
      }
      assert StaticEpoch(st, ctx) == Some(scheduledEpoch);
      var predictedEpoch: Option<int> := None;
      if mode == Online {
        predictedEpoch := LookupRealtimeArrivalEpochStrictByStop(st, stopId);
        p := predictedEpoch;
      }
      predictedEpoch := SanityCheck(predictedEpoch, now);
      c := Some(ArrivalInfo(routeId, st, scheduledEpoch, predictedEpoch));
    }

    /** The loop of computeArrivalsForStop: every stop time evaluated, the best candidate kept per route. */
    method CollectBoard(times: seq<StopTime>, stopId: Option<string>, mode: ConnectionMode, currentFeedTs: int, now: int, offset: int)
      returns (perRoute: map<string, ArrivalInfo>, ghost predicted: seq<Option<int>>)
      ensures |predicted| == |times|
      ensures forall i :: 0 <= i < |times| ==> IsPrediction(times[i], stopId, mode, ContextAt(offset, now, currentFeedTs), predicted[i])
      ensures perRoute == PerRoute(times, ContextAt(offset, now, currentFeedTs), predicted)
    {
      ghost var ctx := ContextAt(offset, now, currentFeedTs);
      perRoute := map[];
      predicted := [];
      ghost var cands: seq<Option<ArrivalInfo>> := [];
      ghost var rt := realtimeArrivals;
      ghost var ok := (st, q) => PredictionIn(rt, st, stopId, mode, ctx, q);
      var i := 0;
      while i < |times|
        invariant 0 <= i <= |times| && |predicted| == i
        invariant Pairwise(times[..i], predicted, ok)
        invariant cands == Candidates(times[..i], ctx, predicted)
        invariant perRoute == Board(cands)
      {
        var c;
        ghost var p;
        c, p := EvaluateStopTime(times[i], stopId, mode, currentFeedTs, now, offset);
        BoardStep(cands, c);
        PairwiseStep(times, predicted, ok, i, p);
        CandidatesStep(times, ctx, predicted, p, i);
        if c.Some? {
          perRoute := KeepImminent(perRoute, c.value);
        }
        predicted := predicted + [p];
        cands := cands + [c];
        i := i + 1;
      }
      assert times[..i] == times;
      PairwiseEach(times, predicted, ok);
    }

    /**
     * computeArrivalsForStop: one line per route with a candidate, its most imminent arrival
     * (realtime preferred within the tie-break), ordered by sort key; the no-arrivals
     * message when there is none.  `predicted` are the lookup results, `infos` the entries.
     */
    method ComputeArrivalsForStop(stopId: Option<string>, mode: ConnectionMode, currentFeedTs: int, now: int, offset: int)
      returns (lines: seq<string>, infos: seq<ArrivalInfo>, ghost predicted: seq<Option<int>>)
      ensures |predicted| == |stopTripMapper.GetStopTimesForStop(stopId)|
      ensures forall i :: 0 <= i < |predicted| ==>
                IsPrediction(stopTripMapper.GetStopTimesForStop(stopId)[i], stopId, mode, ContextAt(offset, now, currentFeedTs), predicted[i])
      ensures multiset(infos) ==
              multiset(PerRoute(stopTripMapper.GetStopTimesForStop(stopId), ContextAt(offset, now, currentFeedTs), predicted).Values)
      ensures SortedByKey(infos, SortKey)
      ensures forall k :: 0 <= k < |infos| ==> Formattable(infos[k])
      ensures lines == Lines(infos, now, offset)
    {
      var times := stopTripMapper.GetStopTimesForStop(stopId);
      ghost var ctx := ContextAt(offset, now, currentFeedTs);
      predicted := [];
      if times == [] {
        infos := [];
        lines := [NoArrivals];
        return;
      }
      var perRoute;
      perRoute, predicted := CollectBoard(times, stopId, mode, currentFeedTs, now, offset);
      var values := ValuesOf(perRoute);
      infos := SortByKey(values, SortKey);
      forall k | 0 <= k < |infos|
        ensures Formattable(infos[k])
      {
        assert infos[k] in multiset(values);
        var r :| r in perRoute && perRoute[r] == infos[k];
        PerRoutePlausible(times, ctx, predicted, r);
      }
      lines := Lines(infos, now, offset);
    }
  }

  /** The sanity check of computeArrivalsForStop: a prediction outside the realtime window is dropped. */
  method SanityCheck(predictedEpoch: Option<int>, now: int) returns (kept: Option<int>)
    ensures kept == KeptPrediction(predictedEpoch, now)
  {
    kept := predictedEpoch;
    if predictedEpoch.Some? {
      var rtDiffMin := TruncDiv(predictedEpoch.value - now, 60);
      if rtDiffMin < -2 || rtDiffMin > RtWindowMin {
        kept := None;
      }
    }
  }

  /** The merge step of computeArrivalsForStop: keep the most imminent, preferring realtime. */
  method KeepImminent(perRoute: map<string, ArrivalInfo>, candidate: ArrivalInfo) returns (r: map<string, ArrivalInfo>)
    ensures r == Merge(perRoute, candidate)
  {
    r := perRoute;
    if candidate.routeId !in perRoute {
      r := perRoute[candidate.routeId := candidate];
    } else {
      var current := perRoute[candidate.routeId];
      var curKey := SortKey(current);
      var candKey := SortKey(candidate);
      if candKey < curKey {
        r := perRoute[candidate.routeId := candidate];
      } else if candidate.predictedEpoch.Some? && current.predictedEpoch.None? {
        if candKey - curKey < TieBreakSeconds {
          r := perRoute[candidate.routeId := candidate];
        }
      }
    }
  }
}
