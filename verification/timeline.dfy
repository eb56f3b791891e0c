/** The Timeline page of one trip: the trip's days, the trip's activities bucketed by day and
    ordered by time, and the local list kept in step with the activity service after an
    activity is added, edited or deleted. Loading, toasts and rendering are left out. */
module Timeline {
  import opened Common
  import opened Seqs
  import opened Sorting
  import opened Grouping
  import opened Days
  import opened Entities
  import opened Store
  import ActivityService

  /** `getAvailableDates`: every day of the trip, first to last; none before the trip is loaded
      or when the end comes before the start (the interval helper throws and the page answers
      with an empty list). */
  function AvailableDates(trip: Option<Trip>): (r: seq<int>)
    ensures trip.None? ==> r == []
    ensures trip.Some? ==> |r| == if trip.value.startDate <= trip.value.endDate
      then DurationInDays(trip.value.startDate, trip.value.endDate) else 0
    ensures trip.Some? ==> forall i :: 0 <= i < |r| ==> r[i] == trip.value.startDate + i
  {
    match trip
    case None => []
    case Some(t) => DayRange(t.startDate, t.endDate)
  }

  /** A day is offered exactly when it falls within the loaded trip. */
  lemma AvailableDatesMembers(trip: Option<Trip>, d: int)
    ensures d in AvailableDates(trip) <==> trip.Some? && trip.value.startDate <= d <= trip.value.endDate
  {
    if trip.Some? {
      InDayRange(trip.value.startDate, trip.value.endDate, d);
    }
  }

  /** The in-day order: timed activities first by time, then the untimed ones. */
  function TimelineKey(a: Activity): Key
  {
    if a.time.Some? then Key(0, a.time.value) else Key(1, 0)
  }

  /** `activity => activity.date === date` */
  function OnDay(d: int): Activity -> bool
  {
    (a: Activity) => a.date == d
  }

  /** What the grouped timeline holds: for each available day, in day order, that day's
      activities sorted timed-first. */
  function DayBuckets(trip: Option<Trip>, activities: seq<Activity>): (r: seq<Group<int, Activity>>)
    ensures |r| == |AvailableDates(trip)|
    ensures forall k :: 0 <= k < |r| ==> r[k].key == AvailableDates(trip)[k]
    ensures forall k :: 0 <= k < |r| ==> multiset(r[k].items) == multiset(Filter(activities, OnDay(r[k].key)))
    ensures forall k :: 0 <= k < |r| ==> SortedBy(r[k].items, TimelineKey)
  {
    var dates := AvailableDates(trip);
    seq(|dates|, k requires 0 <= k < |dates| => Group(dates[k], Sort(Filter(activities, OnDay(dates[k])), TimelineKey)))
  }

  /** Visiting one more activity extends the activities of day `d` by it exactly when it is
      dated `d`. */
  lemma FilterStep(activities: seq<Activity>, j: nat, d: int)
    requires j < |activities|
    ensures Filter(activities[..j + 1], OnDay(d))
      == Filter(activities[..j], OnDay(d)) + (if activities[j].date == d then [activities[j]] else [])
  {
    assert activities[..j + 1] == activities[..j] + [activities[j]];
    FilterAppend(activities[..j], [activities[j]], OnDay(d));
  }

  /** The bucket loop of `groupActivitiesByDate`: an empty bucket per available day, then every
      activity pushed in list order onto the bucket of its day when there is one. */
  method FillBuckets(trip: Option<Trip>, activities: seq<Activity>) returns (buckets: seq<seq<Activity>>)
    ensures |buckets| == |AvailableDates(trip)|
    ensures forall k :: 0 <= k < |buckets| ==> buckets[k] == Filter(activities, OnDay(AvailableDates(trip)[k]))
  {
    var dates := AvailableDates(trip);
    buckets := seq(|dates|, _ => []);
    for j := 0 to |activities|
      invariant |buckets| == |dates|
      invariant forall k :: 0 <= k < |dates| ==> buckets[k] == Filter(activities[..j], OnDay(dates[k]))
    {
      var a := activities[j];
      ghost var prev := buckets;
      if |dates| > 0 && dates[0] <= a.date <= dates[|dates| - 1] {
        var k := a.date - dates[0];
        buckets := buckets[k := buckets[k] + [a]];
      }
      forall k | 0 <= k < |dates| ensures buckets[k] == Filter(activities[..j + 1], OnDay(dates[k])) {
        FilterStep(activities, j, dates[k]);
        assert buckets[k] == prev[k] + (if a.date == dates[k] then [a] else []);
      }
    }
    assert activities[..|activities|] == activities;
  }

  /** `groupActivitiesByDate`: the buckets filled in list order, then each sorted. */
  method GroupActivitiesByDate(trip: Option<Trip>, activities: seq<Activity>)
    returns (grouped: seq<Group<int, Activity>>)
    ensures grouped == DayBuckets(trip, activities)
  {
    var dates := AvailableDates(trip);
    var buckets := FillBuckets(trip, activities);
    grouped := seq(|dates|, k requires 0 <= k < |dates| => Group(dates[k], Sort(buckets[k], TimelineKey)));
  }

  /** In a sorted bucket no untimed activity comes before a timed one, and the timed ones are in
      time order. */
  lemma SortedBucketOrder(items: seq<Activity>, i: nat, j: nat)
    requires SortedBy(items, TimelineKey) && i < j < |items|
    ensures items[i].time.None? ==> items[j].time.None?
    ensures items[i].time.Some? && items[j].time.Some? ==> items[i].time.value <= items[j].time.value
  {
    assert KeyLe(TimelineKey(items[i]), TimelineKey(items[j]));
  }

  /** An activity is in the bucket of day `k` exactly when it is a listed activity of that day. */
  lemma BucketMembers(trip: Option<Trip>, activities: seq<Activity>, k: nat, a: Activity)
    requires k < |AvailableDates(trip)|
    ensures a in DayBuckets(trip, activities)[k].items
      <==> a in activities && a.date == AvailableDates(trip)[k]
  {
    var d := AvailableDates(trip)[k];
    var f := Filter(activities, OnDay(d));
    SortMembers(f, TimelineKey);
    FilterMembers(activities, OnDay(d));
    if a in f {
      var i :| 0 <= i < |f| && f[i] == a;
    }
    if a in activities && a.date == d {
      var i :| 0 <= i < |activities| && activities[i] == a;
    }
  }

  /** An activity is shown on the timeline exactly when its day is one of the trip's days, and
      then only in the bucket of that day. */
  lemma ShownIffInTrip(trip: Option<Trip>, activities: seq<Activity>, a: Activity)
    requires a in activities
    ensures var g := DayBuckets(trip, activities);
      (exists k :: 0 <= k < |g| && a in g[k].items) <==> a.date in AvailableDates(trip)
    ensures var g := DayBuckets(trip, activities);
      forall k :: 0 <= k < |g| && a in g[k].items ==> g[k].key == a.date
  {
    var g := DayBuckets(trip, activities);
    var dates := AvailableDates(trip);
    forall k | 0 <= k < |g| ensures a in g[k].items <==> dates[k] == a.date {
      BucketMembers(trip, activities, k, a);
    }
    if a.date in dates {
      var k :| 0 <= k < |dates| && dates[k] == a.date;
      assert a in g[k].items;
    }
  }

  /** `handleActivitySaved`: when editing, the saved activity replaces the listed one with its
      id; otherwise it is appended. */
  function HandleActivitySaved(activities: seq<Activity>, editing: Option<Activity>, saved: Activity): (r: seq<Activity>)
    ensures editing.Some? ==> |r| == |activities|
    ensures editing.Some? ==> forall i :: 0 <= i < |r| ==>
      r[i] == if activities[i].id == saved.id then saved else activities[i]
    ensures editing.None? ==> |r| == |activities| + 1 && r[..|activities|] == activities && r[|activities|] == saved
  {
    if editing.Some? then ReplaceWhere(activities, HasId(ActivityId, saved.id), saved)
    else activities + [saved]
  }

  /** `handleDeleteActivity`: nothing happens unless the user confirms; on a failed delete the
      list stays; otherwise the activity leaves both the store and the list. */
  function HandleDeleteActivity(activities: seq<Activity>, store: seq<Activity>, id: Id, confirmed: bool)
    : (r: Reply<seq<Activity>, seq<Activity>>)
    ensures !confirmed || ActivityService.Delete(store, id).Err? ==> r == Reply(store, activities)
    ensures confirmed && ActivityService.Delete(store, id).Ok? ==>
      r.store == ActivityService.Delete(store, id).value.store && r.value == WithoutId(activities, ActivityId, id)
  {
    if !confirmed then Reply(store, activities)
    else match ActivityService.Delete(store, id)
      case Err(_) => Reply(store, activities)
      case Ok(d) => Reply(d.store, WithoutId(activities, ActivityId, id))
  }

  /** After a new activity of this trip is created, the page's list is what the service would
      now return for the trip. */
  lemma CreateKeepsInSync(store: seq<Activity>, tripId: Id, data: Activity, newId: Id)
    requires data.tripId == tripId
    requires forall i :: 0 <= i < |store| ==> store[i].id != newId
    ensures var r := ActivityService.Create(store, data, newId);
      HandleActivitySaved(ActivityService.GetByTripId(store, tripId), None, r.value)
        == ActivityService.GetByTripId(r.store, tripId)
  {
    ActivityService.CreateThenGet(store, data, newId, tripId);
  }

  /** After an activity of this trip is edited (without moving it to another trip or renaming
      it), the page's list is what the service would now return for the trip. */
  lemma UpdateKeepsInSync(store: seq<Activity>, tripId: Id, id: Id, data: ActivityPatch, editing: Activity)
    requires DistinctIds(store, ActivityId)
    requires data.id.None? && (data.tripId.None? || data.tripId == Some(tripId))
    requires ActivityService.GetById(store, id).Ok? && ActivityService.GetById(store, id).value.tripId == tripId
    ensures ActivityService.Update(store, id, data).Ok?
    ensures var r := ActivityService.Update(store, id, data).value;
      HandleActivitySaved(ActivityService.GetByTripId(store, tripId), Some(editing), r.value)
        == ActivityService.GetByTripId(r.store, tripId)
  {
    var r := ActivityService.Update(store, id, data).value;
    var i :| 0 <= i < |store| && store[i].id == id && (forall j :: 0 <= j < i ==> store[j].id != id)
      && r.value == MergeActivity(store[i], data) && r.store == store[i := r.value];
    var g := ActivityService.GetById(store, id).value;
    var k :| 0 <= k < |store| && store[k] == g && g.id == id && forall j :: 0 <= j < k ==> store[j].id != id;
    assert k == i;
    ReplaceKeepsInSync(store, tripId, i, r.value);
  }

  /** Replacing a stored activity of the trip by one with the same id and trip shows in the
      trip's list as the page's replace-by-id. */
  lemma ReplaceKeepsInSync(store: seq<Activity>, tripId: Id, i: nat, x: Activity)
    requires DistinctIds(store, ActivityId) && i < |store|
    requires x.id == store[i].id && x.tripId == tripId && store[i].tripId == tripId
    ensures HandleActivitySaved(ActivityService.GetByTripId(store, tripId), Some(x), x)
      == ActivityService.GetByTripId(store[i := x], tripId)
  {
    DistinctOnlyAt(store, ActivityId, i);
    assert ActivityId(x) == ActivityId(store[i]);
    assert ActivityOfTrip(tripId)(x) && ActivityOfTrip(tripId)(store[i]);
    FilterOfUpdate(store, i, x, ActivityOfTrip(tripId), HasId(ActivityId, x.id));
  }

  /** After a confirmed delete, the page's list is what the service would now return for the trip. */
  lemma DeleteKeepsInSync(store: seq<Activity>, tripId: Id, id: Id)
    requires DistinctIds(store, ActivityId) && ActivityService.Delete(store, id).Ok?
    ensures var r := HandleDeleteActivity(ActivityService.GetByTripId(store, tripId), store, id, true);
      r.value == ActivityService.GetByTripId(r.store, tripId)
  {
    var d := ActivityService.Delete(store, id).value;
    var i :| 0 <= i < |store| && store[i].id == id && d.store == RemoveAt(store, i);
    DistinctOnlyAt(store, ActivityId, i);
    FilterOfRemove(store, i, ActivityOfTrip(tripId), HasId(ActivityId, id), LacksId(ActivityId, id));
  }
}
