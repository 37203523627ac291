/**
 * Time arithmetic of the engine.  Instants are epoch seconds, dates are day numbers
 * counted from 1970-01-01, times of day are seconds after midnight; the system time zone
 * is a fixed offset in seconds east of UTC.  Java's `long` division truncates toward
 * zero, which TruncDiv spells out (Dafny's own division is Euclidean).
 */
module Clock {
  import opened Wrappers
  import opened Text

  const SecondsPerDay: int := 86400
  const Int64Max: int := 0x7fff_ffff_ffff_ffff

  /** A LocalTime at second precision. */
  type TimeOfDay = t: int | 0 <= t < 86400

  function Abs(x: int): nat { if x < 0 then -x else x }

  /** The bounds of Euclidean division of a non-negative dividend. */
  lemma DivBounds(a: int, b: int)
    requires 0 <= a && 0 < b
    ensures 0 <= (a / b) * b <= a < (a / b) * b + b
  {
    var q, r := a / b, a % b;
    assert a == q * b + r && 0 <= r < b;
    assert 0 <= q;
  }

  /** Java's `a / b` on longs for a positive divisor: the quotient truncated toward zero. */
  function TruncDiv(a: int, b: int): (q: int)
    requires b > 0
    ensures 0 <= a ==> 0 <= q * b <= a < q * b + b
    ensures a < 0 ==> q * b - b < a <= q * b <= 0
  {
    if a >= 0 then
      DivBounds(a, b);
      a / b
    else
      DivBounds(-a, b);
      assert -((-a) / b) * b == -(((-a) / b) * b);
      -((-a) / b)
  }

  /**
   * The minute-window tests of the engine: the truncated minute count of `x` seconds lies
   * in [lo, hi] (with lo <= 0 <= hi) exactly when x lies strictly between the minute
   * before lo and the minute after hi.
   */
  lemma MinuteWindow(x: int, lo: int, hi: int)
    requires lo <= 0 <= hi
    ensures lo <= TruncDiv(x, 60) <= hi <==> 60 * (lo - 1) < x < 60 * (hi + 1)
  {
    var q := TruncDiv(x, 60);
    if x >= 0 {
      assert q <= hi ==> x < 60 * (hi + 1);
      assert x < 60 * (hi + 1) ==> q * 60 < 60 * (hi + 1);
    } else {
      assert lo <= q ==> 60 * (lo - 1) < x;
      assert 60 * (lo - 1) < x ==> 60 * (lo - 1) < q * 60;
    }
  }

  /** Instant.atZone(zone).toLocalDate(): the day number at the given offset. */
  function LocalDate(epoch: int, offset: int): int
  {
    (epoch + offset) / SecondsPerDay
  }

  /** Instant.atZone(zone).toLocalTime() at second precision. */
  function LocalTimeOfDay(epoch: int, offset: int): TimeOfDay
  {
    (epoch + offset) % SecondsPerDay
  }

  /**
   * LocalTime.toString at second precision: "HH:mm", followed by ":ss" only when the
   * seconds are not zero; each field reads back as the hour, minute and second.
   */
  function LocalTimeText(tod: TimeOfDay): (r: string)
    ensures |r| == 5 || |r| == 8
    ensures |r| == 8 <==> tod % 60 != 0
    ensures AllDigits(r[..2]) && TwoDigitValue(r[..2]) == tod / 3600
    ensures r[2] == ':'
    ensures AllDigits(r[3..5]) && TwoDigitValue(r[3..5]) == tod % 3600 / 60
    ensures |r| == 8 ==> r[5] == ':' && AllDigits(r[6..]) && TwoDigitValue(r[6..]) == tod % 60
  {
    var hm := DigitPair(tod / 3600) + ":" + DigitPair(tod % 3600 / 60);
    var r := if tod % 60 == 0 then hm else hm + ":" + DigitPair(tod % 60);
    assert r[..2] == DigitPair(tod / 3600);
    assert r[3..5] == DigitPair(tod % 3600 / 60);
    assert |r| == 8 ==> r[6..] == DigitPair(tod % 60);
    r
  }

  /** LocalTime.atDate(date).atZone(zone).toInstant(): the epoch of a local date and time. */
  function EpochAt(day: int, tod: TimeOfDay, offset: int): int
  {
    day * SecondsPerDay + tod - offset
  }

  /** Splitting an instant into local date and time and joining them again gives it back. */
  lemma LocalRoundTrip(epoch: int, offset: int)
    ensures EpochAt(LocalDate(epoch, offset), LocalTimeOfDay(epoch, offset), offset) == epoch
  {
  }

  /** The scheduled time on the feed's local date shifted by `delta` days. */
  function Candidate(tod: TimeOfDay, feedTs: int, offset: int, delta: int): int
  {
    EpochAt(LocalDate(feedTs, offset) + delta, tod, offset)
  }

  /** Candidates differ from the feed instant by the clock difference plus whole days. */
  lemma CandidateDistance(tod: TimeOfDay, feedTs: int, offset: int, delta: int)
    ensures Candidate(tod, feedTs, offset, delta) - feedTs
            == delta * SecondsPerDay + tod - LocalTimeOfDay(feedTs, offset)
  {
    LocalRoundTrip(feedTs, offset);
  }

  /**
   * The loop of computeScheduledEpochForFeed after the candidates from delta -1 up to
   * `last`: a candidate replaces the best so far only when strictly nearer.
   */
  function NearestUpTo(tod: TimeOfDay, feedTs: int, offset: int, last: int): int
    requires -1 <= last <= 1
    decreases last + 1
  {
    if last == -1 then Candidate(tod, feedTs, offset, -1)
    else
      var prev := NearestUpTo(tod, feedTs, offset, last - 1);
      var cand := Candidate(tod, feedTs, offset, last);
      if Abs(cand - feedTs) < Abs(prev - feedTs) then cand else prev
  }

  /** The loop keeps one of the candidates seen, the nearest, and the earliest among the nearest. */
  lemma {:induction false} NearestUpToIsNearest(tod: TimeOfDay, feedTs: int, offset: int, last: int)
    requires -1 <= last <= 1
    ensures exists d :: -1 <= d <= last && NearestUpTo(tod, feedTs, offset, last) == Candidate(tod, feedTs, offset, d)
    ensures forall d :: -1 <= d <= last ==>
              Abs(NearestUpTo(tod, feedTs, offset, last) - feedTs) <= Abs(Candidate(tod, feedTs, offset, d) - feedTs)
    ensures forall d :: -1 <= d <= last &&
              Abs(Candidate(tod, feedTs, offset, d) - feedTs) == Abs(NearestUpTo(tod, feedTs, offset, last) - feedTs)
              ==> NearestUpTo(tod, feedTs, offset, last) <= Candidate(tod, feedTs, offset, d)
    decreases last + 1
  {
    if last > -1 {
      NearestUpToIsNearest(tod, feedTs, offset, last - 1);
      var d0 :| -1 <= d0 <= last - 1 && NearestUpTo(tod, feedTs, offset, last - 1) == Candidate(tod, feedTs, offset, d0);
      var r := NearestUpTo(tod, feedTs, offset, last);
      if r == Candidate(tod, feedTs, offset, last) {
        assert -1 <= last <= last;
      } else {
        assert r == Candidate(tod, feedTs, offset, d0) && -1 <= d0 <= last;
      }
    } else {
      assert NearestUpTo(tod, feedTs, offset, last) == Candidate(tod, feedTs, offset, -1);
      forall d | -1 <= d <= last
        ensures Candidate(tod, feedTs, offset, d) - Candidate(tod, feedTs, offset, last) == (d - last) * SecondsPerDay
      {
      }
    }
  }

  /**
   * computeScheduledEpochForFeed as a value: -1 without an arrival time, otherwise the
   * candidate on the feed date, the day before or the day after nearest to the feed
   * instant, the earliest of them on a tie.
   */
  function ScheduledEpoch(arrival: Option<TimeOfDay>, feedTs: int, offset: int): int
  {
    match arrival
    case None => -1
    case Some(tod) => NearestUpTo(tod, feedTs, offset, 1)
  }

  /** The chosen candidate is never more than half a day away from the feed instant. */
  lemma ScheduledWithinHalfDay(tod: TimeOfDay, feedTs: int, offset: int)
    ensures Abs(ScheduledEpoch(Some(tod), feedTs, offset) - feedTs) <= SecondsPerDay / 2
  {
    var f := LocalTimeOfDay(feedTs, offset);
    CandidateDistance(tod, feedTs, offset, -1);
    CandidateDistance(tod, feedTs, offset, 0);
    CandidateDistance(tod, feedTs, offset, 1);
    if tod - f > SecondsPerDay / 2 {
      assert Abs(Candidate(tod, feedTs, offset, -1) - feedTs) <= SecondsPerDay / 2;
    } else if tod - f < -SecondsPerDay / 2 {
      assert Abs(Candidate(tod, feedTs, offset, 1) - feedTs) <= SecondsPerDay / 2;
    } else {
      assert Abs(Candidate(tod, feedTs, offset, 0) - feedTs) <= SecondsPerDay / 2;
    }
  }

  /** ArrivalService.computeScheduledEpochForFeed (the controller holds an identical copy). */
  method ComputeScheduledEpochForFeed(arrival: Option<TimeOfDay>, feedTs: int, offset: int)
    returns (best: int)
    ensures best == ScheduledEpoch(arrival, feedTs, offset)
  {
    if arrival.None? {
      return -1;
    }
    var tod := arrival.value;
    best := -1;
    var bestDiff := Int64Max;
    var delta := -1;
    while delta <= 1
      invariant -1 <= delta <= 2
      invariant delta == -1 ==> bestDiff == Int64Max
      invariant delta > -1 ==> best == NearestUpTo(tod, feedTs, offset, delta - 1)
      invariant delta > -1 ==> bestDiff == Abs(best - feedTs)
    {
      var candidate := Candidate(tod, feedTs, offset, delta);
      var diff := Abs(candidate - feedTs);
      CandidateDistance(tod, feedTs, offset, delta);
      if diff < bestDiff {
        bestDiff := diff;
        best := candidate;
      }
      delta := delta + 1;
    }
  }
}
