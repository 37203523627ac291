/**
 * TripServiceCalendar: the dates on which each service id runs, as filled from the
 * calendar_dates.txt exceptions of a GTFS Schedule feed.  Dates are day numbers.
 * The map never holds a service with no dates: removing the last date of a service
 * removes the service.
 */
module Calendar {

  /** The calendar's contents: service id to the set of days it runs on. */
  type ServiceDates = map<string, set<int>>

  /** The contents after addServiceDate(s, d). */
  function Added(m: ServiceDates, s: string, d: int): ServiceDates
  {
    m[s := (if s in m then m[s] else {}) + {d}]
  }

  /** The contents after removeServiceDate(s, d). */
  function Removed(m: ServiceDates, s: string, d: int): ServiceDates
  {
    if s !in m then m
    else if m[s] - {d} == {} then m - {s}
    else m[s := m[s] - {d}]
  }

  /** serviceRunsOnDate on the contents. */
  predicate RunsOn(m: ServiceDates, s: string, d: int)
  {
    s in m && d in m[s]
  }

  /** The calendar keeps no service without dates. */
  predicate NoEmptyServices(m: ServiceDates)
  {
    forall s :: s in m ==> m[s] != {}
  }

  /** The services that run on at least one day. */
  function ActiveServices(m: ServiceDates): set<string>
  {
    set s | s in m && m[s] != {}
  }

  class TripServiceCalendar {
    var serviceDates: ServiceDates

    ghost predicate Valid()
      reads this
    {
      NoEmptyServices(serviceDates)
    }

    constructor()
      ensures serviceDates == map[]
      ensures Valid()
    {
      serviceDates := map[];
    }

    method AddServiceDate(serviceId: string, date: int)
      requires Valid()
      modifies this
      ensures serviceDates == Added(old(serviceDates), serviceId, date)
      ensures ServiceRunsOnDate(serviceId, date)
      ensures Valid()
    {
      var dates := if serviceId in serviceDates then serviceDates[serviceId] else {};
      serviceDates := serviceDates[serviceId := dates + {date}];
    }

    method RemoveServiceDate(serviceId: string, date: int)
      requires Valid()
      modifies this
      ensures serviceDates == Removed(old(serviceDates), serviceId, date)
      ensures !ServiceRunsOnDate(serviceId, date)
      ensures Valid()
    {
      if serviceId in serviceDates {
        var dates := serviceDates[serviceId] - {date};
        if dates == {} {
          serviceDates := serviceDates - {serviceId};
        } else {
          serviceDates := serviceDates[serviceId := dates];
        }
      }
    }

    /** serviceRunsOnDate: only a service the calendar holds runs, and it then counts as active. */
    function ServiceRunsOnDate(serviceId: string, date: int): (r: bool)
      reads this
      ensures serviceId !in serviceDates ==> !r
      ensures r ==> serviceId in ActiveServices(serviceDates)
    {
      RunsOn(serviceDates, serviceId, date)
    }

    /** serviceCount: the number of services the calendar holds. */
    function ServiceCount(): (r: nat)
      reads this
      requires Valid()
      ensures r == |ActiveServices(serviceDates)|
    {
      CountIsActive(serviceDates);
      |serviceDates|
    }
  }

  /** After adding (s, d), service s runs on d. */
  lemma AddThenRuns(m: ServiceDates, s: string, d: int)
    ensures RunsOn(Added(m, s, d), s, d)
  {
  }

  /** After removing (s, d), service s does not run on d. */
  lemma RemoveThenStops(m: ServiceDates, s: string, d: int)
    ensures !RunsOn(Removed(m, s, d), s, d)
  {
  }

  /** A service the calendar does not hold runs on no day. */
  lemma UnknownNeverRuns(m: ServiceDates, s: string)
    requires s !in m
    ensures forall d :: !RunsOn(m, s, d)
  {
  }

  /** Adding touches only the pair (s, d). */
  lemma AddOnlyTouchesPair(m: ServiceDates, s: string, d: int, s': string, d': int)
    requires s' != s || d' != d
    ensures RunsOn(Added(m, s, d), s', d') == RunsOn(m, s', d')
  {
  }

  /** Removing touches only the pair (s, d). */
  lemma RemoveOnlyTouchesPair(m: ServiceDates, s: string, d: int, s': string, d': int)
    requires s' != s || d' != d
    ensures RunsOn(Removed(m, s, d), s', d') == RunsOn(m, s', d')
  {
    if s' == s && s in m && m[s] - {d} == {} {
      assert d' !in m[s] - {d};
    }
  }

  /** Both operations keep every service non-empty. */
  lemma UpdatesKeepNoEmpty(m: ServiceDates, s: string, d: int)
    requires NoEmptyServices(m)
    ensures NoEmptyServices(Added(m, s, d))
    ensures NoEmptyServices(Removed(m, s, d))
  {
    assert d in Added(m, s, d)[s];
  }

  /** Removing the only date of a service drops the service. */
  lemma RemoveLastDropsService(m: ServiceDates, s: string, d: int)
    requires s in m && m[s] == {d}
    ensures s !in Removed(m, s, d)
    ensures |Removed(m, s, d)| == |m| - 1
  {
  }

  /** Removing from a service the calendar does not hold changes nothing. */
  lemma RemoveUnknownNoOp(m: ServiceDates, s: string, d: int)
    requires s !in m
    ensures Removed(m, s, d) == m
  {
  }

  /** Adding a date a service already runs on changes nothing. */
  lemma AddIdempotent(m: ServiceDates, s: string, d: int)
    requires RunsOn(m, s, d)
    ensures Added(m, s, d) == m
  {
    assert m[s] + {d} == m[s];
  }

  /** Without empty services, the services held are exactly the services that run. */
  lemma CountIsActive(m: ServiceDates)
    requires NoEmptyServices(m)
    ensures |m| == |ActiveServices(m)|
  {
    assert ActiveServices(m) == m.Keys;
  }
}
