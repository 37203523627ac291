/**
 * GTFSFetcher's trip-update decoding: the epoch normalisation and the walk over a GTFS
 * Realtime FeedMessage that turns every usable TripUpdate.StopTimeUpdate into a
 * TripUpdateRecord.  The protobuf message is an abstract datatype holding only the fields
 * the decoder reads; an optional field the message lacks is None.  The two StopTripMapper
 * queries the decoder asks (isKnownStopId and getStopIdByTripAndSequence) are passed in
 * as functions.
 */
module FeedDecoder {
  import opened Wrappers
  import opened Text
  import opened Gtfs

  /** 10^9: the smallest raw value read as epoch seconds. */
  const SecondsThreshold: int := 1_000_000_000
  /** 10^12: the smallest raw value read as epoch milliseconds. */
  const MillisThreshold: int := 1_000_000_000_000

  /**
   * normalizeEpoch: -1 for a non-positive or implausibly small value, milliseconds
   * turned into seconds, seconds kept.
   */
  function NormalizeEpoch(raw: int): (r: int)
    ensures r == -1 || r >= SecondsThreshold
    ensures r != -1 ==> 0 < r <= raw
  {
    if raw <= 0 then -1
    else if raw >= MillisThreshold then raw / 1000
    else if raw >= SecondsThreshold then raw
    else -1
  }

  /** An instant given in milliseconds normalises to the same second as given in seconds. */
  lemma MillisAgreeWithSeconds(s: int, ms: int)
    requires SecondsThreshold <= s < MillisThreshold && 0 <= ms < 1000
    ensures NormalizeEpoch(s * 1000 + ms) == NormalizeEpoch(s) == s
  {
  }

  /** Below 10^15 a normalised value normalises to itself. */
  lemma NormalizeEpochIdempotent(raw: int)
    requires raw < 1000 * MillisThreshold
    ensures NormalizeEpoch(NormalizeEpoch(raw)) == NormalizeEpoch(raw)
  {
  }

  /** A positive value is kept exactly when it lies in the seconds range. */
  lemma NormalizeEpochKeeps(raw: int)
    requires raw > 0
    ensures NormalizeEpoch(raw) == raw <==> SecondsThreshold <= raw < MillisThreshold
  {
    if raw >= MillisThreshold {
      var q := raw / 1000;
      assert raw == q * 1000 + raw % 1000;
    }
  }

  /** TripUpdate.StopTimeUpdate.ScheduleRelationship of the GTFS Realtime reference. */
  datatype ScheduleRelationship = Scheduled | Skipped | NoData | Unscheduled

  /** TripUpdate.StopTimeEvent: only its absolute time is read. */
  datatype StopTimeEvent = StopTimeEvent(time: Option<int>)

  datatype StopTimeUpdate = StopTimeUpdate(
    stopSequence: Option<int>,
    stopId: Option<string>,
    arrival: Option<StopTimeEvent>,
    departure: Option<StopTimeEvent>,
    scheduleRelationship: Option<ScheduleRelationship>)

  /** TripDescriptor: getTripId() reads "" when the descriptor carries no trip id. */
  datatype TripDescriptor = TripDescriptor(tripId: string)

  datatype TripUpdate = TripUpdate(trip: Option<TripDescriptor>, stopTimeUpdates: seq<StopTimeUpdate>)

  datatype FeedEntity = FeedEntity(tripUpdate: Option<TripUpdate>)

  datatype FeedMessage = FeedMessage(entities: seq<FeedEntity>)

  /** The StopTripMapper queries used to resolve a stop: isKnownStopId, getStopIdByTripAndSequence. */
  datatype StopResolver = StopResolver(
    isKnown: Option<string> -> bool,
    stopAt: (Option<string>, int) -> Option<string>)

  /** SKIPPED and NO_DATA updates carry no usable prediction. */
  predicate IsSkipped(stu: StopTimeUpdate)
  {
    stu.scheduleRelationship == Some(Skipped) || stu.scheduleRelationship == Some(NoData)
  }

  /** The arrival time when the arrival event has one, else the departure time, else -1. */
  function RawTime(stu: StopTimeUpdate): int
  {
    if stu.arrival.Some? && stu.arrival.value.time.Some? then stu.arrival.value.time.value
    else if stu.departure.Some? && stu.departure.value.time.Some? then stu.departure.value.time.value
    else -1
  }

  /** The update's own stop id, trimmed. */
  function ExplicitStop(stu: StopTimeUpdate): Option<string>
  {
    if stu.stopId.Some? then Some(Trim(stu.stopId.value)) else None
  }

  /**
   * The stop of an update: its own stop id, replaced by the stop the sequence maps to
   * when its own id is absent or unknown, a sequence is given and the mapping finds one.
   */
  function ResolvedStop(rawTripId: Option<string>, stu: StopTimeUpdate, res: StopResolver): (r: Option<string>)
    ensures r == ExplicitStop(stu) ||
            (stu.stopSequence.Some? && r.Some? && r == res.stopAt(rawTripId, stu.stopSequence.value))
    ensures ExplicitStop(stu).Some? && res.isKnown(ExplicitStop(stu)) ==> r == ExplicitStop(stu)
    ensures r.None? ==> ExplicitStop(stu).None?
    ensures (ExplicitStop(stu).None? || !res.isKnown(ExplicitStop(stu))) && stu.stopSequence.Some? &&
            res.stopAt(rawTripId, stu.stopSequence.value).Some? ==>
              r == res.stopAt(rawTripId, stu.stopSequence.value)
  {
    var explicit := ExplicitStop(stu);
    if (explicit.None? || !res.isKnown(explicit)) && stu.stopSequence.Some? then
      var mapped := res.stopAt(rawTripId, stu.stopSequence.value);
      if mapped.Some? then mapped else explicit
    else explicit
  }

  /** The record one stop-time update yields, if any. */
  function RecordOf(rawTripId: Option<string>, stu: StopTimeUpdate, res: StopResolver): (r: Option<TripUpdateRecord>)
    ensures r.Some? ==> !IsSkipped(stu) && r.value.tripId == rawTripId
    ensures r.Some? ==> r.value.arrivalEpochSeconds >= SecondsThreshold
  {
    if IsSkipped(stu) then None
    else
      var stop := ResolvedStop(rawTripId, stu, res);
      var epoch := NormalizeEpoch(RawTime(stu));
      if stop.Some? && epoch > 0 then Some(TripUpdateRecord(rawTripId, stop.value, epoch)) else None
  }

  function OptSeq(r: Option<TripUpdateRecord>): seq<TripUpdateRecord>
  {
    if r.Some? then [r.value] else []
  }

  /** The records of the updates of one trip update, in update order. */
  function UpdateRecords(rawTripId: Option<string>, stus: seq<StopTimeUpdate>, res: StopResolver)
    : (r: seq<TripUpdateRecord>)
    ensures |r| <= |stus|
  {
    if stus == [] then []
    else UpdateRecords(rawTripId, stus[..|stus| - 1], res) + OptSeq(RecordOf(rawTripId, stus[|stus| - 1], res))
  }

  /** `tu.hasTrip() ? tu.getTrip().getTripId() : null`. */
  function RawTripId(tu: TripUpdate): Option<string>
  {
    if tu.trip.Some? then Some(tu.trip.value.tripId) else None
  }

  function EntityRecords(e: FeedEntity, res: StopResolver): seq<TripUpdateRecord>
  {
    match e.tripUpdate
    case None => []
    case Some(tu) => UpdateRecords(RawTripId(tu), tu.stopTimeUpdates, res)
  }

  /** The records of the entities, in entity order. */
  function FeedRecords(entities: seq<FeedEntity>, res: StopResolver): seq<TripUpdateRecord>
  {
    if entities == [] then []
    else FeedRecords(entities[..|entities| - 1], res) + EntityRecords(entities[|entities| - 1], res)
  }

  /** What parseTripUpdates returns; a null feed yields nothing. */
  function ParsedUpdates(feed: Option<FeedMessage>, res: StopResolver): seq<TripUpdateRecord>
  {
    if feed.None? then [] else FeedRecords(feed.value.entities, res)
  }

  /** Every record of a trip update carries its trip id and a plausible epoch. */
  lemma {:induction false} UpdateRecordsPlausible(raw: Option<string>, stus: seq<StopTimeUpdate>, res: StopResolver)
    ensures forall r :: r in UpdateRecords(raw, stus, res) ==> r.tripId == raw && r.arrivalEpochSeconds >= SecondsThreshold
  {
    if stus != [] {
      UpdateRecordsPlausible(raw, stus[..|stus| - 1], res);
    }
  }

  /** Every record of a feed carries a plausible epoch. */
  lemma {:induction false} FeedRecordsPlausible(entities: seq<FeedEntity>, res: StopResolver)
    ensures forall r :: r in FeedRecords(entities, res) ==> r.arrivalEpochSeconds >= SecondsThreshold
  {
    if entities != [] {
      FeedRecordsPlausible(entities[..|entities| - 1], res);
      var e := entities[|entities| - 1];
      if e.tripUpdate.Some? {
        UpdateRecordsPlausible(RawTripId(e.tripUpdate.value), e.tripUpdate.value.stopTimeUpdates, res);
      }
    }
  }

  /** Records keep the order of the updates. */
  lemma {:induction false} UpdateRecordsAppend(raw: Option<string>, a: seq<StopTimeUpdate>, b: seq<StopTimeUpdate>,
                                               res: StopResolver)
    ensures UpdateRecords(raw, a + b, res) == UpdateRecords(raw, a, res) + UpdateRecords(raw, b, res)
    decreases |b|
  {
    if b == [] {
      assert a + b == a;
    } else {
      var b', u := b[..|b| - 1], b[|b| - 1];
      assert (a + b)[..|a + b| - 1] == a + b';
      assert (a + b)[|a + b| - 1] == u;
      assert UpdateRecords(raw, a + b, res) == UpdateRecords(raw, a + b', res) + OptSeq(RecordOf(raw, u, res));
      assert UpdateRecords(raw, b, res) == UpdateRecords(raw, b', res) + OptSeq(RecordOf(raw, u, res));
      UpdateRecordsAppend(raw, a, b', res);
    }
  }

  /** Records keep the order of the entities. */
  lemma {:induction false} FeedRecordsAppend(a: seq<FeedEntity>, b: seq<FeedEntity>, res: StopResolver)
    ensures FeedRecords(a + b, res) == FeedRecords(a, res) + FeedRecords(b, res)
    decreases |b|
  {
    if b == [] {
      assert a + b == a;
    } else {
      var b', e := b[..|b| - 1], b[|b| - 1];
      assert (a + b)[..|a + b| - 1] == a + b';
      assert (a + b)[|a + b| - 1] == e;
      assert FeedRecords(a + b, res) == FeedRecords(a + b', res) + EntityRecords(e, res);
      assert FeedRecords(b, res) == FeedRecords(b', res) + EntityRecords(e, res);
      FeedRecordsAppend(a, b', res);
    }
  }

  /** The updates that are neither SKIPPED nor NO_DATA. */
  function Usable(stus: seq<StopTimeUpdate>): (r: seq<StopTimeUpdate>)
    ensures forall i :: 0 <= i < |r| ==> !IsSkipped(r[i])
  {
    if stus == [] then []
    else Usable(stus[..|stus| - 1]) + (if IsSkipped(stus[|stus| - 1]) then [] else [stus[|stus| - 1]])
  }

  /** SKIPPED and NO_DATA updates are passed over as if the feed did not hold them. */
  lemma {:induction false} SkippedIgnored(raw: Option<string>, stus: seq<StopTimeUpdate>, res: StopResolver)
    ensures UpdateRecords(raw, stus, res) == UpdateRecords(raw, Usable(stus), res)
  {
    if stus != [] {
      var init, u := stus[..|stus| - 1], stus[|stus| - 1];
      SkippedIgnored(raw, init, res);
      assert UpdateRecords(raw, stus, res) == UpdateRecords(raw, init, res) + OptSeq(RecordOf(raw, u, res));
      if IsSkipped(u) {
        assert Usable(stus) == Usable(init);
      } else {
        assert Usable(stus) == Usable(init) + [u];
        UpdateRecordsAppend(raw, Usable(init), [u], res);
        assert [u][..0] == [];
        assert UpdateRecords(raw, [u], res) == OptSeq(RecordOf(raw, u, res));
      }
    }
  }

  /** The departure event is read only when the arrival event has no time. */
  lemma DepartureOnlyAsFallback(raw: Option<string>, stu: StopTimeUpdate, d: Option<StopTimeEvent>, res: StopResolver)
    requires stu.arrival.Some? && stu.arrival.value.time.Some?
    ensures RecordOf(raw, stu.(departure := d), res) == RecordOf(raw, stu, res)
  {
    assert RawTime(stu.(departure := d)) == RawTime(stu);
    assert ResolvedStop(raw, stu.(departure := d), res) == ResolvedStop(raw, stu, res);
  }

  /** A usable update with a known stop id and a plausible time yields a record at that stop. */
  lemma KnownStopRecorded(raw: Option<string>, stu: StopTimeUpdate, res: StopResolver)
    requires !IsSkipped(stu) && stu.stopId.Some? && res.isKnown(Some(Trim(stu.stopId.value)))
    requires NormalizeEpoch(RawTime(stu)) != -1
    ensures RecordOf(raw, stu, res) == Some(TripUpdateRecord(raw, Trim(stu.stopId.value), NormalizeEpoch(RawTime(stu))))
  {
  }

  /**
   * A usable update whose own stop id is absent or unknown, but whose sequence the mapper
   * resolves, yields a record at the mapped stop.
   */
  lemma MappedStopRecorded(raw: Option<string>, stu: StopTimeUpdate, res: StopResolver)
    requires !IsSkipped(stu) && stu.stopSequence.Some?
    requires ExplicitStop(stu).None? || !res.isKnown(ExplicitStop(stu))
    requires res.stopAt(raw, stu.stopSequence.value).Some?
    requires NormalizeEpoch(RawTime(stu)) != -1
    ensures RecordOf(raw, stu, res) ==
              Some(TripUpdateRecord(raw, res.stopAt(raw, stu.stopSequence.value).value, NormalizeEpoch(RawTime(stu))))
  {
  }

  lemma FeedRecordsStep(entities: seq<FeedEntity>, i: int, res: StopResolver)
    requires 0 <= i < |entities|
    ensures FeedRecords(entities[..i + 1], res) == FeedRecords(entities[..i], res) + EntityRecords(entities[i], res)
  {
    assert entities[..i + 1][..i] == entities[..i];
  }

  lemma UpdateRecordsStep(raw: Option<string>, stus: seq<StopTimeUpdate>, j: int, res: StopResolver,
                          rec: Option<TripUpdateRecord>)
    requires 0 <= j < |stus| && rec == RecordOf(raw, stus[j], res)
    ensures UpdateRecords(raw, stus[..j + 1], res) == UpdateRecords(raw, stus[..j], res) + OptSeq(rec)
  {
    assert stus[..j + 1][..j] == stus[..j];
  }

  /** parseTripUpdates: the records of every entity's updates, in order. */
  method ParseTripUpdates(feed: Option<FeedMessage>, res: StopResolver) returns (updates: seq<TripUpdateRecord>)
    ensures updates == ParsedUpdates(feed, res)
  {
    updates := [];
    if feed.None? {
      return;
    }
    var entities := feed.value.entities;
    var i := 0;
    while i < |entities|
      invariant 0 <= i <= |entities|
      invariant updates == FeedRecords(entities[..i], res)
    {
      FeedRecordsStep(entities, i, res);
      var entity := entities[i];
      if entity.tripUpdate.Some? {
        var records := DecodeTripUpdate(entity.tripUpdate.value, res);
        updates := updates + records;
      }
      i := i + 1;
    }
    assert entities[..i] == entities;
  }

  /** The inner loop of parseTripUpdates: the updates of one trip update, in order. */
  method DecodeTripUpdate(tu: TripUpdate, res: StopResolver) returns (records: seq<TripUpdateRecord>)
    ensures records == UpdateRecords(RawTripId(tu), tu.stopTimeUpdates, res)
  {
    var rawTripId := if tu.trip.Some? then Some(tu.trip.value.tripId) else None;
    var stus := tu.stopTimeUpdates;
    records := [];
    var j := 0;
    while j < |stus|
      invariant 0 <= j <= |stus|
      invariant records == UpdateRecords(rawTripId, stus[..j], res)
    {
      var rec := DecodeUpdate(rawTripId, stus[j], res);
      UpdateRecordsStep(rawTripId, stus, j, res, rec);
      if rec.Some? {
        records := records + [rec.value];
      }
      j := j + 1;
    }
    assert stus[..j] == stus;
  }

  /** The body of the inner loop: one stop-time update. */
  method DecodeUpdate(rawTripId: Option<string>, stu: StopTimeUpdate, res: StopResolver)
    returns (r: Option<TripUpdateRecord>)
    ensures r == RecordOf(rawTripId, stu, res)
  {
    if IsSkipped(stu) {
      return None;
    }
    var stopId := if stu.stopId.Some? then Some(Trim(stu.stopId.value)) else None;
    if (stopId.None? || !res.isKnown(stopId)) && stu.stopSequence.Some? {
      var mapped := res.stopAt(rawTripId, stu.stopSequence.value);
      if mapped.Some? {
        stopId := mapped;
      }
    }
    var rawTime := -1;
    if stu.arrival.Some? && stu.arrival.value.time.Some? {
      rawTime := stu.arrival.value.time.value;
    } else if stu.departure.Some? && stu.departure.value.time.Some? {
      rawTime := stu.departure.value.time.value;
    }
    var arrivalEpoch := NormalizeEpoch(rawTime);
    if stopId.Some? && arrivalEpoch > 0 {
      return Some(TripUpdateRecord(rawTripId, stopId.value, arrivalEpoch));
    }
    return None;
  }

  /**
   * parseTripUpdatesFromBytes: null or empty bytes yield nothing, bytes that do not decode
   * as a FeedMessage yield nothing, other bytes yield the records of the decoded feed.
   * The protobuf decoder is a parameter.
   */
  method ParseTripUpdatesFromBytes(rawBytes: Option<seq<bv8>>, decode: seq<bv8> -> Option<FeedMessage>,
                                   res: StopResolver)
    returns (updates: seq<TripUpdateRecord>)
    ensures rawBytes.None? || rawBytes.value == [] ==> updates == []
    ensures rawBytes.Some? && rawBytes.value != [] ==> updates == ParsedUpdates(decode(rawBytes.value), res)
    ensures forall r :: r in updates ==> r.arrivalEpochSeconds >= SecondsThreshold
  {
    if rawBytes.None? || |rawBytes.value| == 0 {
      return [];
    }
    var feed := decode(rawBytes.value);
    updates := ParseTripUpdates(feed, res);
    if feed.Some? {
      FeedRecordsPlausible(feed.value.entities, res);
    }
  }
}
