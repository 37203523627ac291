/**
 * StopTripMapper: the static index built once from the stop times of the schedule.
 * It maps each stop id to its stop times ordered by arrival (absent times last), each
 * trip key and stop sequence to the stop served, and keeps the set of known stop ids.
 * Trip keys are the trip id with leading '0' and '#' characters removed and then
 * trimmed, plus the same treatment of every variant TripIdUtils generates for it.
 * Java's null ids are None; a null stop id is a key of its own.
 */
module TripIndex {
  import opened Wrappers
  import opened Text
  import opened Sorting
  import opened Gtfs
  import TripIds

  predicate IsZeroOrHash(c: char) { c == '0' || c == '#' }

  /** normalizeTripId on a present id: leading '0' and '#' characters dropped, then trimmed. */
  function NormalizeTripIdText(id: string): (r: string)
    ensures |r| <= |id|
    ensures r == [] || (!IsBlank(r[0]) && !IsBlank(r[|r| - 1]))
  {
    Trim(DropPrefixWhile(id, IsZeroOrHash))
  }

  function NormalizeTripId(id: Option<string>): (r: Option<string>)
    ensures r.None? <==> id.None?
  {
    match id
    case None => None
    case Some(s) => Some(NormalizeTripIdText(s))
  }

  /** Any run of leading zeros and hashes is ignored. */
  lemma LeadingPaddingIgnored(p: string, id: string)
    requires forall i :: 0 <= i < |p| ==> IsZeroOrHash(p[i])
    ensures NormalizeTripIdText(p + id) == NormalizeTripIdText(id)
  {
    DroppedPrefix(p, id, IsZeroOrHash);
  }

  /** A prefix of dropped characters makes no difference to DropPrefixWhile. */
  lemma {:induction false} DroppedPrefix(p: string, id: string, drop: char -> bool)
    requires forall i :: 0 <= i < |p| ==> drop(p[i])
    ensures DropPrefixWhile(p + id, drop) == DropPrefixWhile(id, drop)
  {
    if p != [] {
      assert (p + id)[0] == p[0];
      assert (p + id)[1..] == p[1..] + id;
      DroppedPrefix(p[1..], id, drop);
    } else {
      assert p + id == id;
    }
  }

  /** An id with no leading zero or hash and no surrounding blanks is its own key. */
  lemma NormalizeTripIdKeepsClean(id: string)
    requires id != [] && !IsZeroOrHash(id[0]) && !IsBlank(id[0]) && !IsBlank(id[|id| - 1])
    ensures NormalizeTripIdText(id) == id
  {
    TrimUnchanged(id);
  }

  /** The index keys one stop time is filed under. */
  function VariantKey(v: string): Option<string>
  {
    Some(NormalizeTripIdText(v))
  }

  function KeysOf(vs: set<string>, keyOf: string -> Option<string>): set<Option<string>>
  {
    set v | v in vs :: keyOf(v)
  }

  function VariantKeys(vs: set<string>): set<Option<string>>
  {
    KeysOf(vs, VariantKey)
  }

  /** The keys of a stop time whose trip id has direct key `direct` and variants `vs`. */
  function KeysFrom(direct: Option<string>, vs: set<string>): set<Option<string>>
  {
    {direct} + VariantKeys(vs)
  }

  /** Every key the constructor files a stop time with trip id `raw` under. */
  function TripKeys(raw: Option<string>): (r: set<Option<string>>)
    ensures NormalizeTripId(raw) in r
  {
    KeysFrom(NormalizeTripId(raw), TripIds.GenerateVariants(raw))
  }

  type SeqIndex = map<Option<string>, map<int, Option<string>>>

  /** tripSeqToStop.computeIfAbsent(key, ...).put(sq, stop). */
  function Put(m: SeqIndex, key: Option<string>, sq: int, stop: Option<string>): SeqIndex
  {
    m[key := (if key in m then m[key] else map[])[sq := stop]]
  }

  /** The same put under every key of a set. */
  function PutAll(m: SeqIndex, keys: set<Option<string>>, sq: int, stop: Option<string>): SeqIndex
  {
    map k | k in m.Keys + keys :: if k in keys then (if k in m then m[k] else map[])[sq := stop] else m[k]
  }

  /** The stop stored for a key and a sequence; a stored null reads as absent. */
  function Lookup(m: SeqIndex, key: Option<string>, sq: int): Option<string>
  {
    if key in m && sq in m[key] then m[key][sq] else None
  }

  /** A put under a set of keys changes the lookups of exactly those keys at that sequence. */
  lemma LookupPutAll(m: SeqIndex, keys: set<Option<string>>, sq: int, stop: Option<string>, k: Option<string>, q: int)
    ensures Lookup(PutAll(m, keys, sq, stop), k, q) == if k in keys && q == sq then stop else Lookup(m, k, q)
  {
  }

  /** Putting under one more key extends the set of keys put under. */
  lemma PutAllPut(m: SeqIndex, keys: set<Option<string>>, sq: int, stop: Option<string>, key: Option<string>)
    ensures Put(PutAll(m, keys, sq, stop), key, sq, stop) == PutAll(m, keys + {key}, sq, stop)
  {
    var a := Put(PutAll(m, keys, sq, stop), key, sq, stop);
    var b := PutAll(m, keys + {key}, sq, stop);
    assert a.Keys == b.Keys;
    forall k | k in a.Keys
      ensures a[k] == b[k]
    {
    }
  }

  /** Putting under no key changes nothing. */
  lemma PutAllNone(m: SeqIndex, sq: int, stop: Option<string>)
    ensures PutAll(m, {}, sq, stop) == m
  {
    assert PutAll(m, {}, sq, stop).Keys == m.Keys;
  }

  type KeyFunction = Option<string> -> set<Option<string>>

  /**
   * tripSeqToStop after indexing the stop times in order, each under the keys `keysOf`
   * gives for its trip id: a later put overwrites an earlier one.
   */
  function IndexSequences(sts: seq<StopTime>, keysOf: KeyFunction): SeqIndex
  {
    if sts == [] then map[]
    else
      var st := sts[|sts| - 1];
      PutAll(IndexSequences(sts[..|sts| - 1], keysOf), keysOf(st.tripId), st.stopSequence, st.stopId)
  }

  predicate AllStopIdsPresent(sts: seq<StopTime>)
  {
    forall i :: 0 <= i < |sts| ==> sts[i].stopId.Some?
  }

  /**
   * When every stop time names its stop, every key and sequence of a stop time finds a
   * stop in the index (perhaps the one a later stop time wrote there).
   */
  lemma {:induction false} SequenceIndexed(sts: seq<StopTime>, keysOf: KeyFunction, j: nat, k: Option<string>)
    requires AllStopIdsPresent(sts)
    requires j < |sts| && k in keysOf(sts[j].tripId)
    ensures Lookup(IndexSequences(sts, keysOf), k, sts[j].stopSequence).Some?
  {
    var init, st := sts[..|sts| - 1], sts[|sts| - 1];
    LookupPutAll(IndexSequences(init, keysOf), keysOf(st.tripId), st.stopSequence, st.stopId, k, sts[j].stopSequence);
    if j < |sts| - 1 {
      assert init[j] == sts[j];
      assert AllStopIdsPresent(init) by {
        forall i | 0 <= i < |init|
          ensures init[i].stopId.Some?
        {
          assert init[i] == sts[i];
        }
      }
      SequenceIndexed(init, keysOf, j, k);
    }
  }

  /** The stop written last for a key and a sequence is the one found. */
  lemma {:induction false} LastWriteWins(sts: seq<StopTime>, keysOf: KeyFunction, j: nat, k: Option<string>)
    requires j < |sts| && k in keysOf(sts[j].tripId)
    requires forall i :: j < i < |sts| ==> k !in keysOf(sts[i].tripId) || sts[i].stopSequence != sts[j].stopSequence
    ensures Lookup(IndexSequences(sts, keysOf), k, sts[j].stopSequence) == sts[j].stopId
  {
    var init, st := sts[..|sts| - 1], sts[|sts| - 1];
    LookupPutAll(IndexSequences(init, keysOf), keysOf(st.tripId), st.stopSequence, st.stopId, k, sts[j].stopSequence);
    if j < |sts| - 1 {
      assert init[j] == sts[j];
      forall i | j < i < |init|
        ensures k !in keysOf(init[i].tripId) || init[i].stopSequence != init[j].stopSequence
      {
        assert init[i] == sts[i];
      }
      LastWriteWins(init, keysOf, j, k);
    }
  }

  /** In particular the direct key of every stop time is indexed. */
  lemma DirectKeyIndexed(sts: seq<StopTime>, j: nat)
    requires AllStopIdsPresent(sts) && j < |sts|
    ensures Lookup(IndexSequences(sts, TripKeys), NormalizeTripId(sts[j].tripId), sts[j].stopSequence).Some?
  {
    SequenceIndexed(sts, TripKeys, j, NormalizeTripId(sts[j].tripId));
  }

  /** Comparator.nullsLast over arrival times: an absent time sorts after every time of day. */
  function ArrivalKey(st: StopTime): (k: int)
    ensures st.arrivalTime.Some? ==> k < 86400
    ensures st.arrivalTime.None? ==> k == 86400
  {
    if st.arrivalTime.None? then 86400 else st.arrivalTime.value
  }

  /** The stop times of a stop, in input order. */
  function StopTimesAt(sts: seq<StopTime>, k: Option<string>): (r: seq<StopTime>)
    ensures forall st :: st in r <==> st in sts && st.stopId == k
  {
    if sts == [] then []
    else
      var init, st := sts[..|sts| - 1], sts[|sts| - 1];
      assert sts == init + [st];
      StopTimesAt(init, k) + (if st.stopId == k then [st] else [])
  }

  function StopKeys(sts: seq<StopTime>): set<Option<string>>
  {
    set i | 0 <= i < |sts| :: sts[i].stopId
  }

  function KnownStops(sts: seq<StopTime>): set<string>
  {
    set i | 0 <= i < |sts| && sts[i].stopId.Some? :: sts[i].stopId.value
  }

  /**
   * What getStopTimesForStop returns after construction: every stop time of the stop
   * (a permutation of them) ordered by arrival with absent times last; nothing for a
   * stop that no stop time names.
   */
  function IndexedStopTimes(sts: seq<StopTime>, k: Option<string>): (r: seq<StopTime>)
    ensures multiset(r) == multiset(StopTimesAt(sts, k))
    ensures forall st :: st in r <==> st in sts && st.stopId == k
    ensures SortedByKey(r, ArrivalKey)
    ensures k !in StopKeys(sts) ==> r == []
  {
    var r := SortByKey(StopTimesAt(sts, k), ArrivalKey);
    assert forall st :: st in r <==> st in multiset(r);
    assert k !in StopKeys(sts) ==> StopTimesAt(sts, k) == [] by {
      if k !in StopKeys(sts) {
        UnknownStopHasNoTimes(sts, k);
      }
    }
    r
  }

  lemma {:induction false} UnknownStopHasNoTimes(sts: seq<StopTime>, k: Option<string>)
    requires k !in StopKeys(sts)
    ensures StopTimesAt(sts, k) == []
  {
    if sts != [] {
      var init := sts[..|sts| - 1];
      assert sts[|sts| - 1].stopId in StopKeys(sts);
      assert k !in StopKeys(init) by {
        forall j | 0 <= j < |init|
          ensures init[j].stopId in StopKeys(sts)
        {
          assert init[j] == sts[j];
        }
      }
      UnknownStopHasNoTimes(init, k);
    }
  }

  /** getTripsForStop before removing duplicates: the matched trips, unmatched ones dropped. */
  function MatchedTrips(times: seq<StopTime>, matcher: Matcher): (r: seq<Trip>)
    ensures |r| <= |times|
    ensures forall t :: t in r <==> exists st :: st in times && matcher(st.tripId) == Some(t)
  {
    if times == [] then []
    else
      var init, st := times[..|times| - 1], times[|times| - 1];
      assert times == init + [st];
      var r := MatchedTrips(init, matcher) + (match matcher(st.tripId) case Some(t) => [t] case None => []);
      assert forall t :: (exists x :: x in times && matcher(x.tripId) == Some(t))
                         ==> t in r by {
        forall t | exists x :: x in times && matcher(x.tripId) == Some(t)
          ensures t in r
        {
          var x :| x in times && matcher(x.tripId) == Some(t);
          if x != st {
            assert x in init;
          }
        }
      }
      r
  }

  /** Stream.distinct(): the first occurrence of every element, in order. */
  function Distinct(s: seq<Trip>): (r: seq<Trip>)
    ensures forall x :: x in r <==> x in s
    ensures forall i, j :: 0 <= i < j < |r| ==> r[i] != r[j]
  {
    if s == [] then []
    else
      var d := Distinct(s[..|s| - 1]);
      assert s == s[..|s| - 1] + [s[|s| - 1]];
      if s[|s| - 1] in d then d else d + [s[|s| - 1]]
  }

  /** What getTripsForStop returns for the stop times of a stop. */
  function TripsForStop(times: seq<StopTime>, matcher: Option<Matcher>): seq<Trip>
  {
    if times == [] || matcher.None? then [] else Distinct(MatchedTrips(times, matcher.value))
  }

  /** getTripsForStop: distinct, and exactly the trips the stop's stop times match. */
  lemma TripsForStopMeaning(times: seq<StopTime>, matcher: Matcher)
    ensures var r := TripsForStop(times, Some(matcher));
            (forall i, j :: 0 <= i < j < |r| ==> r[i] != r[j]) &&
            (forall t :: t in r <==> exists st :: st in times && matcher(st.tripId) == Some(t))
  {
  }

  /** The known stops and the per-stop lists after reading the stop times `sts`. */
  predicate Grouped(known: set<string>, groups: map<Option<string>, seq<StopTime>>, sts: seq<StopTime>)
  {
    && known == KnownStops(sts)
    && groups.Keys == StopKeys(sts)
    && forall k :: k in groups ==> groups[k] == StopTimesAt(sts, k)
  }

  class StopTripMapper {
    var stopToTrips: map<Option<string>, seq<StopTime>>
    var tripSeqToStop: SeqIndex
    var knownStopIds: set<string>
    var matcher: Option<Matcher>
    /** The stop times the mapper was built from. */
    ghost var stopTimes: seq<StopTime>

    /** The indexes are the ones the constructor builds from `stopTimes`. */
    ghost predicate Valid()
      reads this
    {
      && knownStopIds == KnownStops(stopTimes)
      && tripSeqToStop == IndexSequences(stopTimes, TripKeys)
      && stopToTrips.Keys == StopKeys(stopTimes)
      && forall k :: k in stopToTrips ==> stopToTrips[k] == IndexedStopTimes(stopTimes, k)
    }

    /** Indexes the stop times; `matcher` is None for a null TripMatcher. */
    constructor(stopTimes: seq<StopTime>, matcher: Option<Matcher>)
      ensures this.matcher == matcher
      ensures this.stopTimes == stopTimes
      ensures Valid()
    {
      var known, groups, index := GroupStopTimes(stopTimes);
      groups := SortGroups(groups, stopTimes);
      this.matcher := matcher;
      this.stopTimes := stopTimes;
      knownStopIds := known;
      tripSeqToStop := index;
      stopToTrips := groups;
    }

    /** isKnownStopId: the id is present and some stop time names it. */
    function IsKnownStopId(stopId: Option<string>): (r: bool)
      reads this
      ensures Valid() ==> (r <==> exists i :: 0 <= i < |stopTimes| && stopTimes[i].stopId == stopId && stopId.Some?)
      ensures Valid() && r ==> GetStopTimesForStop(stopId) != []
    {
      if stopId.Some? && stopId.value in knownStopIds then
        KnownStopIsIndexed(stopId);
        true
      else
        false
    }

    /**
     * getStopTimesForStop: every stop time of the stop, each as often as it was read,
     * ordered by arrival with absent times last; nothing for a stop no stop time names.
     */
    function GetStopTimesForStop(stopId: Option<string>): (r: seq<StopTime>)
      reads this
      ensures Valid() ==> multiset(r) == multiset(StopTimesAt(stopTimes, stopId))
      ensures Valid() ==> forall st :: st in r <==> st in stopTimes && st.stopId == stopId
      ensures Valid() ==> SortedByKey(r, ArrivalKey)
    {
      if stopId in stopToTrips then stopToTrips[stopId]
      else
        UnindexedStop(stopId);
        []
    }

    lemma UnindexedStop(stopId: Option<string>)
      ensures Valid() && stopId !in stopToTrips ==> StopTimesAt(stopTimes, stopId) == []
    {
      if Valid() && stopId !in stopToTrips {
        UnknownStopHasNoTimes(stopTimes, stopId);
      }
    }

    lemma KnownStopIsIndexed(stopId: Option<string>)
      ensures Valid() && stopId.Some? && stopId.value in knownStopIds ==>
                stopId in stopToTrips && stopToTrips[stopId] != []
    {
      if Valid() && stopId.Some? && stopId.value in knownStopIds {
        var i :| 0 <= i < |stopTimes| && stopTimes[i].stopId.Some? && stopTimes[i].stopId.value == stopId.value;
        assert stopTimes[i].stopId == stopId;
        assert stopId in StopKeys(stopTimes);
        assert stopTimes[i] in IndexedStopTimes(stopTimes, stopId);
      }
    }

    function StopAt(key: Option<string>, sequence: int): Option<string>
      reads this
    {
      Lookup(tripSeqToStop, key, sequence)
    }

    method GetTripsForStop(stopId: Option<string>) returns (trips: seq<Trip>)
      ensures trips == TripsForStop(GetStopTimesForStop(stopId), matcher)
    {
      var times := GetStopTimesForStop(stopId);
      if times == [] || matcher.None? {
        return [];
      }
      var m := matcher.value;
      var result: seq<Trip> := [];
      var i := 0;
      while i < |times|
        invariant 0 <= i <= |times|
        invariant result == MatchedTrips(times[..i], m)
      {
        assert times[..i + 1][..i] == times[..i];
        var trip := m(times[i].tripId);
        if trip.Some? {
          result := result + [trip.value];
        }
        i := i + 1;
      }
      assert times[..i] == times;
      trips := Distinct(result);
    }

    /**
     * getStopIdByTripAndSequence: None for a null trip id; the direct key first; then
     * some variant key with a stop for the sequence, in no fixed order; None when
     * neither finds a stop.
     */
    method GetStopIdByTripAndSequence(tripId: Option<string>, sequence: int) returns (r: Option<string>)
      ensures tripId.None? ==> r.None?
      ensures tripId.Some? && StopAt(NormalizeTripId(tripId), sequence).Some? ==>
                r == StopAt(NormalizeTripId(tripId), sequence)
      ensures tripId.Some? && StopAt(NormalizeTripId(tripId), sequence).None? ==>
                (r.Some? <==> exists v :: v in TripIds.GenerateVariants(tripId) && StopAt(Some(NormalizeTripIdText(v)), sequence).Some?)
      ensures tripId.Some? && StopAt(NormalizeTripId(tripId), sequence).None? && r.Some? ==>
                exists v :: v in TripIds.GenerateVariants(tripId) && StopAt(Some(NormalizeTripIdText(v)), sequence) == r
    {
      if tripId.None? {
        return None;
      }
      var direct := StopAt(NormalizeTripId(tripId), sequence);
      if direct.Some? {
        return direct;
      }
      r := FirstVariantHit(tripSeqToStop, TripIds.GenerateVariants(tripId), sequence, NormalizeTripIdText);
    }
  }

  /** The loop of getStopIdByTripAndSequence over the variants, taken in no fixed order; `keyOf` normalises a variant. */
  method FirstVariantHit(index: SeqIndex, variants: set<string>, sequence: int, keyOf: string -> string)
    returns (r: Option<string>)
    ensures r.Some? <==> exists v :: v in variants && Lookup(index, Some(keyOf(v)), sequence).Some?
    ensures r.Some? ==> exists v :: v in variants && Lookup(index, Some(keyOf(v)), sequence) == r
  {
    var rest := variants;
    while rest != {}
      invariant rest <= variants
      invariant forall v :: v in variants - rest ==> Lookup(index, Some(keyOf(v)), sequence).None?
      decreases rest
    {
      var v :| v in rest;
      var key := keyOf(v);
      var s := Lookup(index, Some(key), sequence);
      if s.Some? {
        return s;
      }
      rest := rest - {v};
    }
    assert variants - rest == variants;
    return None;
  }

  lemma KnownStopsStep(sts: seq<StopTime>, i: nat)
    requires i < |sts|
    ensures KnownStops(sts[..i + 1]) == KnownStops(sts[..i]) + (if sts[i].stopId.Some? then {sts[i].stopId.value} else {})
  {
    var p := sts[..i + 1];
    assert forall j :: 0 <= j < i ==> p[j] == sts[..i][j];
    assert p[i] == sts[i];
  }

  lemma StopKeysStep(sts: seq<StopTime>, i: nat)
    requires i < |sts|
    ensures StopKeys(sts[..i + 1]) == StopKeys(sts[..i]) + {sts[i].stopId}
  {
    var p := sts[..i + 1];
    assert forall j :: 0 <= j < i ==> p[j] == sts[..i][j];
    assert p[i] == sts[i];
  }

  lemma StopTimesAtStep(sts: seq<StopTime>, i: nat)
    requires i < |sts|
    ensures forall k :: StopTimesAt(sts[..i + 1], k) == StopTimesAt(sts[..i], k) + (if sts[i].stopId == k then [sts[i]] else [])
  {
    assert sts[..i + 1][..i] == sts[..i];
  }

  lemma IndexStep(sts: seq<StopTime>, keysOf: KeyFunction, i: nat)
    requires i < |sts|
    ensures IndexSequences(sts[..i + 1], keysOf)
            == PutAll(IndexSequences(sts[..i], keysOf), keysOf(sts[i].tripId), sts[i].stopSequence, sts[i].stopId)
  {
    assert sts[..i + 1][..i] == sts[..i];
  }

  /** stopToTrips.computeIfAbsent(stopId, ...).add(st). */
  function AddToGroup(groups: map<Option<string>, seq<StopTime>>, st: StopTime): map<Option<string>, seq<StopTime>>
  {
    groups[st.stopId := (if st.stopId in groups then groups[st.stopId] else []) + [st]]
  }

  /** Adding each stop time to its stop's list keeps every list the stop's stop times so far. */
  lemma GroupStep(groups: map<Option<string>, seq<StopTime>>, sts: seq<StopTime>, i: nat)
    requires i < |sts|
    requires groups.Keys == StopKeys(sts[..i])
    requires forall k :: k in groups ==> groups[k] == StopTimesAt(sts[..i], k)
    ensures AddToGroup(groups, sts[i]).Keys == StopKeys(sts[..i + 1])
    ensures forall k :: k in AddToGroup(groups, sts[i]) ==> AddToGroup(groups, sts[i])[k] == StopTimesAt(sts[..i + 1], k)
  {
    var st := sts[i];
    var g := AddToGroup(groups, st);
    StopKeysStep(sts, i);
    StopTimesAtStep(sts, i);
    forall k | k in g
      ensures g[k] == StopTimesAt(sts[..i + 1], k)
    {
      if k == st.stopId && k !in groups {
        UnknownStopHasNoTimes(sts[..i], k);
      }
    }
  }

  /** The constructor's loop over the stop times: known stops, per-stop lists and the sequence index. */
  method GroupStopTimes(stopTimes: seq<StopTime>)
    returns (known: set<string>, groups: map<Option<string>, seq<StopTime>>, index: SeqIndex)
    ensures Grouped(known, groups, stopTimes)
    ensures index == IndexSequences(stopTimes, TripKeys)
  {
    known, groups, index := {}, map[], map[];
    var i := 0;
    while i < |stopTimes|
      invariant 0 <= i <= |stopTimes|
      invariant Grouped(known, groups, stopTimes[..i])
      invariant index == IndexSequences(stopTimes[..i], TripKeys)
    {
      known, groups := AddStopTime(known, groups, stopTimes, i);
      index := IndexNext(index, stopTimes, i);
      i := i + 1;
    }
    assert stopTimes[..i] == stopTimes;
  }

  /** One iteration of the constructor's loop: the known stops and the per-stop lists. */
  method AddStopTime(known: set<string>, groups: map<Option<string>, seq<StopTime>>, sts: seq<StopTime>, i: nat)
    returns (known': set<string>, groups': map<Option<string>, seq<StopTime>>)
    requires i < |sts| && Grouped(known, groups, sts[..i])
    ensures Grouped(known', groups', sts[..i + 1])
  {
    var st := sts[i];
    KnownStopsStep(sts, i);
    known' := known;
    if st.stopId.Some? {
      known' := known + {st.stopId.value};
    }
    GroupStep(groups, sts, i);
    groups' := AddToGroup(groups, st);
  }

  /** The puts for the next stop time extend the index to one more stop time. */
  method IndexNext(index: SeqIndex, sts: seq<StopTime>, i: nat) returns (r: SeqIndex)
    requires i < |sts| && index == IndexSequences(sts[..i], TripKeys)
    ensures r == IndexSequences(sts[..i + 1], TripKeys)
  {
    IndexStep(sts, TripKeys, i);
    r := IndexStopTime(index, sts[i].tripId, sts[i].stopSequence, sts[i].stopId);
  }

  /** The puts for one stop time: under its direct key, then under each variant's key. */
  method IndexStopTime(index: SeqIndex, raw: Option<string>, sq: int, stop: Option<string>) returns (r: SeqIndex)
    ensures r == PutAll(index, TripKeys(raw), sq, stop)
  {
    var direct := NormalizeTripId(raw);
    var variants := TripIds.GenerateVariants(raw);
    assert TripKeys(raw) == {direct} + VariantKeys(variants);
    r := Put(index, direct, sq, stop);
    PutOne(index, direct, sq, stop);
    r := PutVariants(index, {direct}, r, variants, VariantKey, sq, stop);
  }

  lemma PutOne(m: SeqIndex, key: Option<string>, sq: int, stop: Option<string>)
    ensures Put(m, key, sq, stop) == PutAll(m, {key}, sq, stop)
  {
    PutAllNone(m, sq, stop);
    PutAllPut(m, {}, sq, stop, key);
    assert {} + {key} == {key};
  }

  /** The loop over the variants: a put under each variant's key, in no fixed order. */
  method PutVariants(index: SeqIndex, done: set<Option<string>>, current: SeqIndex, variants: set<string>,
                     keyOf: string -> Option<string>, sq: int, stop: Option<string>)
    returns (r: SeqIndex)
    requires current == PutAll(index, done, sq, stop)
    ensures r == PutAll(index, done + KeysOf(variants, keyOf), sq, stop)
  {
    r := current;
    var rest := variants;
    ghost var keys := done;
    while rest != {}
      invariant rest <= variants
      invariant keys == done + KeysOf(variants - rest, keyOf)
      invariant r == PutAll(index, keys, sq, stop)
      decreases rest
    {
      var v :| v in rest;
      var key := keyOf(v);
      PutAllPut(index, keys, sq, stop, key);
      r := Put(r, key, sq, stop);
      KeysOfStep(variants, rest, keyOf, v);
      keys := keys + {key};
      rest := rest - {v};
    }
    assert variants - rest == variants;
  }

  lemma KeysOfStep(variants: set<string>, rest: set<string>, keyOf: string -> Option<string>, v: string)
    requires v in rest && rest <= variants
    ensures KeysOf(variants - (rest - {v}), keyOf) == KeysOf(variants - rest, keyOf) + {keyOf(v)}
  {
  }

  /** The final loop of the constructor: every stop's list sorted by arrival. */
  method SortGroups(groups: map<Option<string>, seq<StopTime>>, sts: seq<StopTime>)
    returns (r: map<Option<string>, seq<StopTime>>)
    requires forall k :: k in groups ==> groups[k] == StopTimesAt(sts, k)
    ensures r.Keys == groups.Keys
    ensures forall k :: k in r ==> r[k] == IndexedStopTimes(sts, k)
  {
    r := groups;
    var rest := groups.Keys;
    while rest != {}
      invariant rest <= groups.Keys && r.Keys == groups.Keys
      invariant forall k :: k in rest ==> r[k] == StopTimesAt(sts, k)
      invariant forall k :: k in groups.Keys - rest ==> r[k] == IndexedStopTimes(sts, k)
      decreases rest
    {
      var k :| k in rest;
      r := r[k := SortByKey(r[k], ArrivalKey)];
      rest := rest - {k};
    }
  }
}
