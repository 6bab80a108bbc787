/**
 * The trip store (`TripService`): trips by id, and each user's list of trip ids, with the
 * schedule-window query that decides which trips are due for monitoring.
 */
module Trips {
  import opened Wrappers
  import opened Text
  import opened Clock
  import opened OrderedMaps
  import opened Types
  import opened Sorting
  import Seqs

  /** How long before the departure window monitoring starts, in minutes. */
  const LeadMinutes: nat := 30

  function TripId(n: nat): string { "trip-" + NatToString(n) }

  function UpdatedAt(t: Trip): int { t.updatedAt }

  /** The fields an update may supply; an absent field keeps its stored value. */
  datatype TripUpdate = TripUpdate(
    name: Option<string>,
    origin: Option<Location>,
    destination: Option<Location>,
    schedule: Option<Schedule>,
    alertThreshold: Option<AlertThreshold>,
    isActive: Option<bool>,
    createdAt: Option<int>)

  /** `updateTrip`'s merge: supplied fields win, the id and owner never change, updatedAt is now. */
  function ApplyUpdate(t: Trip, u: TripUpdate, now: int): (r: Trip)
    ensures r.id == t.id && r.userId == t.userId && r.updatedAt == now
    ensures r.name == u.name.GetOr(t.name) && r.origin == u.origin.GetOr(t.origin)
    ensures r.destination == u.destination.GetOr(t.destination) && r.schedule == u.schedule.GetOr(t.schedule)
    ensures r.alertThreshold == u.alertThreshold.GetOr(t.alertThreshold)
    ensures r.isActive == u.isActive.GetOr(t.isActive) && r.createdAt == u.createdAt.GetOr(t.createdAt)
  {
    t.(name := u.name.GetOr(t.name), origin := u.origin.GetOr(t.origin),
       destination := u.destination.GetOr(t.destination), schedule := u.schedule.GetOr(t.schedule),
       alertThreshold := u.alertThreshold.GetOr(t.alertThreshold), isActive := u.isActive.GetOr(t.isActive),
       createdAt := u.createdAt.GetOr(t.createdAt), updatedAt := now)
  }

  /** An empty update only refreshes the timestamp. */
  lemma EmptyUpdateOnlyTouches(t: Trip, now: int)
    ensures ApplyUpdate(t, TripUpdate(None, None, None, None, None, None, None), now) == t.(updatedAt := now)
  {
  }

  /** `toggleTripActive`'s new record. */
  function Toggled(t: Trip, now: int): (r: Trip)
    ensures r.isActive == !t.isActive && r.updatedAt == now
    ensures r.(isActive := t.isActive, updatedAt := t.updatedAt) == t
  {
    t.(isActive := !t.isActive, updatedAt := now)
  }

  /** Toggling twice restores the active flag; only the timestamp moves. */
  lemma ToggleTwice(t: Trip, now1: int, now2: int)
    ensures Toggled(Toggled(t, now1), now2) == t.(updatedAt := now2)
  {
  }

  // ---------------------------------------------------------------------------------------
  // The schedule window

  /** `isTimeInRange`: start ≤ current ≤ end as texts. */
  predicate IsTimeInRange(current: string, start: string, end: string) {
    StrLessEq(start, current) && StrLessEq(current, end)
  }

  /**
   * A trip is due on `day` at `minuteOfDay` when it is active, the day is scheduled, and the
   * zero-padded current time lies between windowStart − 30 minutes and windowEnd.
   */
  predicate IsDue(t: Trip, day: int, minuteOfDay: nat)
    requires minuteOfDay < 1440
  {
    t.isActive && day in t.schedule.days
    && IsTimeInRange(FormatTime(minuteOfDay), SubtractMinutes(t.schedule.windowStart, LeadMinutes), t.schedule.windowEnd)
  }

  /**
   * For zero-padded window times with windowStart at 00:30 or later, a trip is due exactly
   * from 30 minutes before windowStart to windowEnd, both inclusive.
   */
  lemma DueByMinutes(t: Trip, day: int, minuteOfDay: nat)
    requires minuteOfDay < 1440
    requires IsPaddedTime(t.schedule.windowStart) && IsPaddedTime(t.schedule.windowEnd)
    requires MinuteOfDay(t.schedule.windowStart) >= LeadMinutes
    ensures IsDue(t, day, minuteOfDay) <==>
              t.isActive && day in t.schedule.days
              && MinuteOfDay(t.schedule.windowStart) - LeadMinutes <= minuteOfDay <= MinuteOfDay(t.schedule.windowEnd)
  {
    var start := SubtractMinutes(t.schedule.windowStart, LeadMinutes);
    SubtractMinutesPadded(t.schedule.windowStart, LeadMinutes);
    PaddedOrderIsTimeOrder(start, FormatTime(minuteOfDay));
    PaddedOrderIsTimeOrder(FormatTime(minuteOfDay), t.schedule.windowEnd);
  }

  /**
   * A window starting before 00:30 has its monitoring start wrap to the previous evening, so
   * with a padded windowEnd before that evening time the trip is never due.
   */
  lemma EarlyWindowNeverDue(t: Trip, day: int, minuteOfDay: nat)
    requires minuteOfDay < 1440
    requires IsPaddedTime(t.schedule.windowStart) && IsPaddedTime(t.schedule.windowEnd)
    requires MinuteOfDay(t.schedule.windowStart) < LeadMinutes
    requires MinuteOfDay(t.schedule.windowEnd) < MinuteOfDay(t.schedule.windowStart) + 1440 - LeadMinutes
    ensures !IsDue(t, day, minuteOfDay)
  {
    var start := SubtractMinutes(t.schedule.windowStart, LeadMinutes);
    SubtractMinutesPadded(t.schedule.windowStart, LeadMinutes);
    PaddedOrderIsTimeOrder(start, FormatTime(minuteOfDay));
    PaddedOrderIsTimeOrder(FormatTime(minuteOfDay), t.schedule.windowEnd);
  }

  // ---------------------------------------------------------------------------------------
  // Validation

  /** JavaScript truthiness of a number: 0 is false. */
  predicate HasCoordinates(l: Location) { l.latitude != 0.0 && l.longitude != 0.0 }

  /** A trip draft as `validateTripData` receives it: every part may be missing. */
  datatype TripDraft = TripDraft(
    name: Option<string>,
    origin: Option<Location>,
    destination: Option<Location>,
    schedule: Option<Schedule>,
    alertThreshold: Option<AlertThreshold>)

  function When(c: bool, msg: string): seq<string> { if c then [msg] else [] }

  function NameErrors(name: Option<string>): (r: seq<string>)
    ensures r == [] <==> name.Some? && !IsBlank(name.value)
    ensures r == [] || r == ["Trip name is required"]
  {
    When(name.None? || name.value == "" || IsBlank(name.value), "Trip name is required")
  }

  function LocationErrors(l: Option<Location>, missing: string, noCoordinates: string): (r: seq<string>)
    requires missing != noCoordinates
    ensures r == [] <==> l.Some? && HasCoordinates(l.value)
    ensures r == [missing] <==> l.None?
    ensures r == [] || r == [missing] || r == [noCoordinates]
  {
    if l.None? then [missing] else When(!HasCoordinates(l.value), noCoordinates)
  }

  function ScheduleErrors(s: Option<Schedule>): (r: seq<string>)
    ensures r == [] <==> s.Some? && s.value.days != [] && s.value.windowStart != "" && s.value.windowEnd != ""
    ensures "Schedule is required" in r <==> s.None?
    ensures "At least one day must be selected" in r <==> s.Some? && s.value.days == []
    ensures "Departure window times are required" in r <==>
              s.Some? && (s.value.windowStart == "" || s.value.windowEnd == "")
  {
    if s.None? then ["Schedule is required"]
    else When(s.value.days == [], "At least one day must be selected")
         + When(s.value.windowStart == "" || s.value.windowEnd == "", "Departure window times are required")
  }

  function ThresholdErrors(a: Option<AlertThreshold>): (r: seq<string>)
    ensures r == [] <==> a.Some? && a.value.value > 0.0
    ensures r == ["Alert threshold is required"] <==> a.None?
    ensures r == [] || r == ["Alert threshold is required"] || r == ["Alert threshold must be greater than 0"]
  {
    if a.None? then ["Alert threshold is required"]
    else When(a.value.value <= 0.0, "Alert threshold must be greater than 0")
  }

  /**
   * `validateTripData`: one message per problem, in field order. A coordinate equal to 0 is
   * reported as missing, since the check tests truthiness.
   */
  function ValidateTripData(d: TripDraft): (errors: seq<string>)
    ensures errors == [] <==>
              d.name.Some? && !IsBlank(d.name.value)
              && d.origin.Some? && HasCoordinates(d.origin.value)
              && d.destination.Some? && HasCoordinates(d.destination.value)
              && d.schedule.Some? && d.schedule.value.days != []
              && d.schedule.value.windowStart != "" && d.schedule.value.windowEnd != ""
              && d.alertThreshold.Some? && d.alertThreshold.value.value > 0.0
  {
    NameErrors(d.name)
    + LocationErrors(d.origin, "Origin location is required", "Origin coordinates are required")
    + LocationErrors(d.destination, "Destination location is required", "Destination coordinates are required")
    + ScheduleErrors(d.schedule)
    + ThresholdErrors(d.alertThreshold)
  }

  const ScheduleMessages: seq<string> :=
    ["Schedule is required", "At least one day must be selected", "Departure window times are required"]

  lemma ScheduleErrorsAmong(s: Option<Schedule>)
    ensures forall m :: m in ScheduleErrors(s) ==> m in ScheduleMessages
  {
  }

  /** The name message is reported exactly when the name is missing or blank. */
  lemma ValidateTripDataNameMessage(d: TripDraft)
    ensures "Trip name is required" in ValidateTripData(d) <==> d.name.None? || IsBlank(d.name.value)
  {
    ScheduleErrorsAmong(d.schedule);
    var n := NameErrors(d.name);
    var o := LocationErrors(d.origin, "Origin location is required", "Origin coordinates are required");
    var e := LocationErrors(d.destination, "Destination location is required", "Destination coordinates are required");
    var s := ScheduleErrors(d.schedule);
    var a := ThresholdErrors(d.alertThreshold);
    assert ValidateTripData(d) == n + o + e + s + a;
    assert forall m :: m in s ==> m in ScheduleMessages;
  }

  /** The origin messages are reported exactly when their conditions hold. */
  lemma ValidateTripDataOriginMessages(d: TripDraft)
    ensures "Origin location is required" in ValidateTripData(d) <==> d.origin.None?
    ensures "Origin coordinates are required" in ValidateTripData(d) <==> d.origin.Some? && !HasCoordinates(d.origin.value)
  {
    ScheduleErrorsAmong(d.schedule);
    var n := NameErrors(d.name);
    var o := LocationErrors(d.origin, "Origin location is required", "Origin coordinates are required");
    var e := LocationErrors(d.destination, "Destination location is required", "Destination coordinates are required");
    var s := ScheduleErrors(d.schedule);
    var a := ThresholdErrors(d.alertThreshold);
    assert ValidateTripData(d) == n + o + e + s + a;
    assert forall m :: m in s ==> m in ScheduleMessages;
  }

  /** The destination messages are reported exactly when their conditions hold. */
  lemma ValidateTripDataDestinationMessages(d: TripDraft)
    ensures "Destination location is required" in ValidateTripData(d) <==> d.destination.None?
    ensures "Destination coordinates are required" in ValidateTripData(d) <==>
              d.destination.Some? && !HasCoordinates(d.destination.value)
  {
    ScheduleErrorsAmong(d.schedule);
    var n := NameErrors(d.name);
    var o := LocationErrors(d.origin, "Origin location is required", "Origin coordinates are required");
    var e := LocationErrors(d.destination, "Destination location is required", "Destination coordinates are required");
    var s := ScheduleErrors(d.schedule);
    var a := ThresholdErrors(d.alertThreshold);
    assert ValidateTripData(d) == n + o + e + s + a;
    assert forall m :: m in s ==> m in ScheduleMessages;
  }

  /** The threshold messages are reported exactly when their conditions hold. */
  lemma ValidateTripDataThresholdMessages(d: TripDraft)
    ensures "Alert threshold is required" in ValidateTripData(d) <==> d.alertThreshold.None?
    ensures "Alert threshold must be greater than 0" in ValidateTripData(d) <==>
              d.alertThreshold.Some? && d.alertThreshold.value.value <= 0.0
  {
    ScheduleErrorsAmong(d.schedule);
    var n := NameErrors(d.name);
    var o := LocationErrors(d.origin, "Origin location is required", "Origin coordinates are required");
    var e := LocationErrors(d.destination, "Destination location is required", "Destination coordinates are required");
    var s := ScheduleErrors(d.schedule);
    var a := ThresholdErrors(d.alertThreshold);
    assert ValidateTripData(d) == n + o + e + s + a;
    assert forall m :: m in s ==> m in ScheduleMessages;
  }

  /** The schedule messages are reported exactly when their conditions hold. */
  lemma ValidateTripDataScheduleMessages(d: TripDraft)
    ensures "Schedule is required" in ValidateTripData(d) <==> d.schedule.None?
    ensures "At least one day must be selected" in ValidateTripData(d) <==> d.schedule.Some? && d.schedule.value.days == []
    ensures "Departure window times are required" in ValidateTripData(d) <==>
              d.schedule.Some? && (d.schedule.value.windowStart == "" || d.schedule.value.windowEnd == "")
  {
    var n := NameErrors(d.name);
    var o := LocationErrors(d.origin, "Origin location is required", "Origin coordinates are required");
    var e := LocationErrors(d.destination, "Destination location is required", "Destination coordinates are required");
    var s := ScheduleErrors(d.schedule);
    var a := ThresholdErrors(d.alertThreshold);
    assert ValidateTripData(d) == n + o + e + s + a;
  }

  // ---------------------------------------------------------------------------------------
  // The store

  /** The stored trips among `ids`, in list order. */
  function PresentTrips(ids: seq<string>, trips: map<string, Trip>): (r: seq<Trip>)
    ensures forall t :: t in r <==> exists i :: 0 <= i < |ids| && ids[i] in trips && trips[ids[i]] == t
    ensures |r| <= |ids|
  {
    if ids == [] then []
    else
      var k := |ids| - 1;
      var prev := PresentTrips(ids[..k], trips);
      assert forall i :: 0 <= i < k ==> ids[..k][i] == ids[i];
      prev + (if ids[k] in trips then [trips[ids[k]]] else [])
  }

  /** The values of `vs` that are due, in order. */
  function DueTrips(vs: seq<Trip>, day: int, minuteOfDay: nat): (r: seq<Trip>)
    requires minuteOfDay < 1440
    ensures forall t :: t in r <==> t in vs && IsDue(t, day, minuteOfDay)
    ensures |r| <= |vs|
  {
    if vs == [] then []
    else
      var k := |vs| - 1;
      assert vs == vs[..k] + [vs[k]];
      DueTrips(vs[..k], day, minuteOfDay) + (if IsDue(vs[k], day, minuteOfDay) then [vs[k]] else [])
  }

  class TripService {
    var trips: OrderedMap<string, Trip>
    /** userId to the ids of that user's trips, in creation order. */
    var userTrips: map<string, seq<string>>
    var nextTrip: nat

    ghost predicate Valid()
      reads this
    {
      trips.Valid() && forall n: nat :: n >= nextTrip ==> TripId(n) !in trips.entries
    }

    constructor ()
      ensures Valid() && trips.keys == [] && userTrips == map[]
    {
      trips := Empty();
      userTrips := map[];
      nextTrip := 0;
    }

    function UserTripIds(userId: string): (r: seq<string>)
      reads this
      ensures userId in userTrips ==> r == userTrips[userId]
      ensures userId !in userTrips ==> r == []
    {
      if userId in userTrips then userTrips[userId] else []
    }

    /** `createTrip`: a fresh id, trimmed name, active, createdAt = updatedAt = now; the id joins the owner's list. */
    method CreateTrip(userId: string, name: string, origin: Location, destination: Location,
                      schedule: Schedule, alertThreshold: AlertThreshold, now: int) returns (trip: Trip)
      requires Valid()
      modifies this
      ensures Valid()
      ensures trip.id !in old(trips.entries)
      ensures trip == Trip(trip.id, userId, Trim(name), origin, destination, schedule, alertThreshold, true, now, now)
      ensures trips == old(trips).Put(trip.id, trip)
      ensures userTrips == old(userTrips)[userId := old(UserTripIds(userId)) + [trip.id]]
    {
      var id := TripId(nextTrip);
      forall n: nat | n >= nextTrip + 1
        ensures TripId(n) != id
      {
        PrefixedInjective("trip-", n, nextTrip);
      }
      nextTrip := nextTrip + 1;
      trip := Trip(id, userId, Trim(name), origin, destination, schedule, alertThreshold, true, now, now);
      trips := trips.Put(id, trip);
      userTrips := userTrips[userId := UserTripIds(userId) + [id]];
    }

    /** `getTripById`: the stored trip, or null. */
    function GetTripById(tripId: string): (r: Option<Trip>)
      reads this
      ensures r.None? <==> tripId !in trips.entries
      ensures r.Some? ==> r.value == trips.entries[tripId]
    {
      trips.Get(tripId)
    }

    /** `getTripsByUserId`: the user's trips still stored, most recently updated first. */
    method GetTripsByUserId(userId: string) returns (r: seq<Trip>)
      ensures SortedDesc(r, UpdatedAt)
      ensures multiset(r) == multiset(PresentTrips(UserTripIds(userId), trips.entries))
      ensures forall k :: KeyFilter(r, UpdatedAt, k) == KeyFilter(PresentTrips(UserTripIds(userId), trips.entries), UpdatedAt, k)
      ensures userId !in userTrips ==> r == []
    {
      var ids := UserTripIds(userId);
      var found: seq<Trip> := [];
      var i := 0;
      while i < |ids|
        invariant 0 <= i <= |ids|
        invariant found == PresentTrips(ids[..i], trips.entries)
      {
        Seqs.PrefixNext(ids, i);
        if ids[i] in trips.entries {
          found := found + [trips.entries[ids[i]]];
        }
        i := i + 1;
      }
      Seqs.PrefixAll(ids);
      r := SortDesc(found, UpdatedAt);
      SortDescStable(found, UpdatedAt);
    }

    /** `updateTrip`: null and no change for an unknown id; otherwise the merged record is stored. */
    method UpdateTrip(tripId: string, updates: TripUpdate, now: int) returns (r: Option<Trip>)
      requires Valid()
      modifies this
      ensures Valid()
      ensures userTrips == old(userTrips)
      ensures r.None? <==> tripId !in old(trips.entries)
      ensures r.None? ==> trips == old(trips)
      ensures r.Some? ==> r.value == ApplyUpdate(old(trips.entries[tripId]), updates, now)
                          && trips == old(trips).Put(tripId, r.value)
    {
      var existing := trips.Get(tripId);
      if existing.None? {
        return None;
      }
      var updated := ApplyUpdate(existing.value, updates, now);
      trips := trips.Put(tripId, updated);
      return Some(updated);
    }

    /**
     * `deleteTrip`: false and no change for an unknown id; otherwise the trip leaves the map
     * and its owner's list, and nothing else changes.
     */
    method DeleteTrip(tripId: string) returns (deleted: bool)
      requires Valid()
      modifies this
      ensures Valid()
      ensures deleted <==> tripId in old(trips.entries)
      ensures !deleted ==> trips == old(trips) && userTrips == old(userTrips)
      ensures deleted ==>
                var owner := old(trips.entries[tripId]).userId;
                trips == old(trips).Remove(tripId)
                && userTrips == old(userTrips)[owner := RemoveKey(old(UserTripIds(owner)), tripId)]
      ensures forall id :: id != tripId ==> trips.Get(id) == old(trips.Get(id))
    {
      var trip := trips.Get(tripId);
      if trip.None? {
        return false;
      }
      var owner := trip.value.userId;
      userTrips := userTrips[owner := RemoveKey(UserTripIds(owner), tripId)];
      trips := trips.Remove(tripId);
      return true;
    }

    /** `toggleTripActive`: null for an unknown id; otherwise the flag flips and updatedAt is now. */
    method ToggleTripActive(tripId: string, now: int) returns (r: Option<Trip>)
      requires Valid()
      modifies this
      ensures Valid()
      ensures userTrips == old(userTrips)
      ensures r.None? <==> tripId !in old(trips.entries)
      ensures r.None? ==> trips == old(trips)
      ensures r.Some? ==> r.value == Toggled(old(trips.entries[tripId]), now) && trips == old(trips).Put(tripId, r.value)
    {
      var trip := trips.Get(tripId);
      if trip.None? {
        return None;
      }
      var updated := Toggled(trip.value, now);
      trips := trips.Put(tripId, updated);
      return Some(updated);
    }

    /** `getActiveTripsForTime`: the due trips, in insertion order. */
    method GetActiveTripsForTime(day: int, minuteOfDay: nat) returns (r: seq<Trip>)
      requires Valid() && minuteOfDay < 1440
      ensures r == DueTrips(trips.Values(), day, minuteOfDay)
      ensures forall t :: t in r <==> IsDue(t, day, minuteOfDay) && exists id :: id in trips.entries && trips.entries[id] == t
    {
      var all := trips.Values();
      r := [];
      var i := 0;
      while i < |all|
        invariant 0 <= i <= |all|
        invariant r == DueTrips(all[..i], day, minuteOfDay)
      {
        Seqs.PrefixNext(all, i);
        if IsDue(all[i], day, minuteOfDay) {
          r := r + [all[i]];
        }
        i := i + 1;
      }
      Seqs.PrefixAll(all);
      forall t | t in all
        ensures exists id :: id in trips.entries && trips.entries[id] == t
      {
        var k :| 0 <= k < |all| && all[k] == t;
        assert trips.entries[trips.keys[k]] == t;
      }
      forall t | exists id :: id in trips.entries && trips.entries[id] == t
        ensures t in all
      {
        var id :| id in trips.entries && trips.entries[id] == t;
        assert all[IndexOf(trips.keys, id)] == t;
      }
    }
  }
}
