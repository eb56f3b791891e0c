/** The Overview page of one trip: the trip's status today, the packing progress, the tally
    of activities by type and the next three activities. Loading, toasts and rendering are
    left out; the clock is a parameter `now`, in minutes. */
module Overview {
  import opened Common
  import opened Seqs
  import opened Sorting
  import opened Grouping
  import opened Days
  import opened Entities
  import ActivityCard
  import PackingCategory

  /** The trip's status badge. */
  datatype Status = Unknown | Upcoming | Completed | Active

  /** `getTripStatus` as the page computes it: upcoming before midnight of the first day,
      completed after midnight of the last day, active in between. */
  function TripStatusAsWritten(trip: Option<Trip>, now: int): (r: Status)
    ensures r == Unknown <==> trip.None?
    ensures trip.Some? ==> (r == Upcoming <==> now < Midnight(trip.value.startDate))
    ensures trip.Some? ==> (r == Completed <==> Midnight(trip.value.startDate) <= now && now > Midnight(trip.value.endDate))
  {
    match trip
    case None => Unknown
    case Some(t) =>
      if now < Midnight(t.startDate) then Upcoming
      else if now > Midnight(t.endDate) then Completed
      else Active
  }

  /** On its last day a one-day trip already reads "Completed" by the page's rule, though the
      day is one of the trip's days. */
  lemma LastDayReadsCompleted()
    ensures var t := Trip("1", "Day trip", "Lyon", 0, 0, "", 0);
      TripStatusAsWritten(Some(t), 600) == Completed && DayOf(600) == t.endDate
  {
  }

  /** The trip's status by calendar day: upcoming before the first day, completed after the
      last day, active on every day of the trip. */
  function TripStatus(trip: Option<Trip>, now: int): (r: Status)
    ensures r == Unknown <==> trip.None?
    ensures trip.Some? ==> (r == Upcoming <==> DayOf(now) < trip.value.startDate)
    ensures trip.Some? ==> (r == Active <==> trip.value.startDate <= DayOf(now) <= trip.value.endDate)
  {
    match trip
    case None => Unknown
    case Some(t) =>
      var today := DayOf(now);
      if today < t.startDate then Upcoming
      else if today > t.endDate then Completed
      else Active
  }

  /** The two rules disagree exactly on the last day of a trip that has begun, after its first
      minute: there the page says "Completed" where the day rule says "Active". */
  lemma StatusDiffersOnlyOnLastDay(trip: Option<Trip>, now: int)
    ensures TripStatusAsWritten(trip, now) != TripStatus(trip, now) <==> (trip.Some?
      && Midnight(trip.value.startDate) <= now && DayOf(now) == trip.value.endDate
      && now != Midnight(trip.value.endDate))
    ensures TripStatusAsWritten(trip, now) != TripStatus(trip, now) ==>
      TripStatusAsWritten(trip, now) == Completed && TripStatus(trip, now) == Active
  {
    if trip.Some? {
      var t := trip.value;
      var d := DayOf(now);
      assert now < Midnight(t.startDate) <==> d < t.startDate;
      assert now >= Midnight(t.endDate + 1) <==> d > t.endDate;
    }
  }

  /** `getPackingStats`. */
  datatype PackingStats = PackingStats(totalItems: nat, packedItems: nat, progress: real)

  /** Items, packed items, and the packed share in percent (0 for an empty list). */
  function GetPackingStats(items: seq<PackingItem>): (r: PackingStats)
    ensures r.totalItems == |items| && r.packedItems <= r.totalItems
    ensures r.packedItems == |Filter(items, IsPacked)|
    ensures r.totalItems > 0 ==> r.progress * (r.totalItems as real) == (r.packedItems as real) * 100.0
    ensures r.totalItems == 0 ==> r.progress == 0.0
    ensures 0.0 <= r.progress <= 100.0
    ensures r.progress == 0.0 <==> r.packedItems == 0
    ensures r.progress == 100.0 <==> r.totalItems > 0 && r.packedItems == r.totalItems
  {
    var total := |items|;
    var packed := |Filter(items, IsPacked)|;
    var progress := if total > 0 then (packed as real / total as real) * 100.0 else 0.0;
    PackingCategory.ShareBounds(packed, total);
    PackingStats(total, packed, progress)
  }

  /** The progress is 100 exactly when the list is non-empty and every item is packed, and 0
      exactly when no item is packed. */
  lemma PackingProgressMeaning(items: seq<PackingItem>)
    ensures GetPackingStats(items).progress == 100.0
      <==> |items| > 0 && forall i :: 0 <= i < |items| ==> items[i].packed
    ensures GetPackingStats(items).progress == 0.0
      <==> forall i :: 0 <= i < |items| ==> !items[i].packed
  {
    FilterKeepsAll(items, IsPacked);
    FilterKeepsNone(items, IsPacked);
  }

  /** `getActivityStats`. */
  datatype ActivityStats = ActivityStats(total: nat, byType: map<string, nat>)

  function GetActivityStats(activities: seq<Activity>): (r: ActivityStats)
    ensures r.total == |activities|
    ensures forall k :: k in r.byType ==> r.byType[k] > 0
  {
    var byType := Tally(activities, ActivityKind);
    assert forall k :: k in byType ==> byType[k] > 0 by {
      forall k | k in byType ensures byType[k] > 0 {
        TallyCounts(activities, ActivityKind, k);
      }
    }
    ActivityStats(|activities|, byType)
  }

  /** Each type in the breakdown counts the activities of that type, and a type appears
      exactly when some activity has it. */
  lemma ActivityStatsCounts(activities: seq<Activity>, kind: string)
    ensures var s := GetActivityStats(activities);
      kind in s.byType <==> exists i :: 0 <= i < |activities| && activities[i].kind == kind
    ensures var s := GetActivityStats(activities);
      kind in s.byType ==> s.byType[kind] == |Filter(activities, KeyIs(ActivityKind, kind))|
  {
    TallyCounts(activities, ActivityKind, kind);
    FilterKeepsNone(activities, KeyIs(ActivityKind, kind));
    forall i | 0 <= i < |activities|
      ensures KeyIs(ActivityKind, kind)(activities[i]) <==> activities[i].kind == kind
    {
      assert ActivityKind(activities[i]) == activities[i].kind;
    }
  }

  /** The breakdown's counts are the sizes of the groups by type, and those add up to the total. */
  lemma ActivityStatsTotal(activities: seq<Activity>, kind: string)
    ensures var s := GetActivityStats(activities);
      kind in s.byType ==> s.byType[kind] == |GroupOf(GroupBy(activities, ActivityKind), kind)|
    ensures TotalSize(GroupBy(activities, ActivityKind)) == GetActivityStats(activities).total
  {
    TallyMatchesGroupBy(activities, ActivityKind, kind);
    GroupBySize(activities, ActivityKind);
  }

  /** `Object.entries(activityStats.byType)`: each type with its count, in the order the types
      first occur in the list, which is the order the object's keys were inserted in. */
  function Breakdown(activities: seq<Activity>): (r: seq<(string, nat)>)
    ensures |r| == |GroupBy(activities, ActivityKind)|
    ensures forall i :: 0 <= i < |r| ==> (r[i].0 in GetActivityStats(activities).byType
      && GetActivityStats(activities).byType[r[i].0] == r[i].1)
    ensures forall k :: k in GetActivityStats(activities).byType ==> exists i :: 0 <= i < |r| && r[i].0 == k
  {
    var gs := GroupBy(activities, ActivityKind);
    var r := seq(|gs|, i requires 0 <= i < |gs| => (gs[i].key, |gs[i].items|));
    EntriesOfGroups(activities, gs, r);
    r
  }

  /** The entries built from the groups by type are the tally's entries. */
  lemma EntriesOfGroups(activities: seq<Activity>, gs: seq<Group<string, Activity>>, r: seq<(string, nat)>)
    requires gs == GroupBy(activities, ActivityKind)
    requires |r| == |gs| && forall i :: 0 <= i < |r| ==> r[i] == (gs[i].key, |gs[i].items|)
    ensures forall i :: 0 <= i < |r| ==> (r[i].0 in GetActivityStats(activities).byType
      && GetActivityStats(activities).byType[r[i].0] == r[i].1)
    ensures forall k :: k in GetActivityStats(activities).byType ==> exists i :: 0 <= i < |r| && r[i].0 == k
  {
    var t := GetActivityStats(activities).byType;
    assert t == Tally(activities, ActivityKind);
    TallyEntriesAreGroups(activities, ActivityKind);
    forall k | k in t ensures exists i :: 0 <= i < |r| && r[i].0 == k {
      var i :| 0 <= i < |gs| && gs[i].key == k;
      assert r[i].0 == k;
    }
  }

  /** The breakdown lists a type before another exactly as the list first mentions it: some
      activity of the earlier type comes before every activity of the later one. */
  lemma BreakdownInFirstOccurrenceOrder(activities: seq<Activity>, i: nat, j: nat)
    requires i < j < |Breakdown(activities)|
    ensures exists a :: (0 <= a < |activities| && activities[a].kind == Breakdown(activities)[i].0
                         && forall b :: 0 <= b <= a ==> activities[b].kind != Breakdown(activities)[j].0)
  {
    var gs := GroupBy(activities, ActivityKind);
    GroupByFirstOccurrence(activities, ActivityKind, i, j);
    var a :| 0 <= a < |activities| && ActivityKind(activities[a]) == gs[i].key
      && (forall b :: 0 <= b <= a ==> ActivityKind(activities[b]) != gs[j].key);
    forall b | 0 <= b <= a ensures activities[b].kind != Breakdown(activities)[j].0 {
      assert ActivityKind(activities[b]) == activities[b].kind;
    }
    assert ActivityKind(activities[a]) == activities[a].kind;
  }

  /** The upcoming-list order: by date, then by time, an untimed activity first within its day
      (its missing time compares as the empty string). */
  function UpcomingKey(a: Activity): Key
  {
    Key(a.date, if a.time.Some? then a.time.value else -1)
  }

  /** `activity => activity.date >= today` */
  function OnOrAfter(today: int): Activity -> bool
  {
    (a: Activity) => a.date >= today
  }

  /** `getUpcomingActivities`: the first three activities dated today or later, in date and
      time order. */
  function UpcomingActivities(activities: seq<Activity>, now: int): (r: seq<Activity>)
    ensures |r| == if |Filter(activities, OnOrAfter(DayOf(now)))| < 3 then |Filter(activities, OnOrAfter(DayOf(now)))| else 3
    ensures forall i :: 0 <= i < |r| ==> r[i] in activities && r[i].date >= DayOf(now)
    ensures SortedBy(r, UpcomingKey)
    ensures multiset(r) <= multiset(Filter(activities, OnOrAfter(DayOf(now))))
  {
    var f := Filter(activities, OnOrAfter(DayOf(now)));
    var sorted := Sort(f, UpcomingKey);
    UpcomingMembers(activities, DayOf(now), f, sorted);
    var n := if |sorted| < 3 then |sorted| else 3;
    PrefixSubMultiset(sorted, n);
    sorted[..n]
  }

  /** Everything in the sorted filtered list is an activity dated on or after `today`. */
  lemma UpcomingMembers(activities: seq<Activity>, today: int, f: seq<Activity>, sorted: seq<Activity>)
    requires f == Filter(activities, OnOrAfter(today)) && sorted == Sort(f, UpcomingKey)
    ensures forall i :: 0 <= i < |sorted| ==> sorted[i] in activities && sorted[i].date >= today
  {
    FilterMembers(activities, OnOrAfter(today));
    SortMembers(f, UpcomingKey);
    forall i | 0 <= i < |sorted| ensures sorted[i] in activities && sorted[i].date >= today {
      assert sorted[i] in f;
      var k :| 0 <= k < |f| && f[k] == sorted[i];
    }
  }

  /** No activity left out of the upcoming list, dated today or later, comes before one that is
      in it; and it is left out only when the list is full. */
  lemma UpcomingAreEarliest(activities: seq<Activity>, now: int, a: Activity)
    requires a in activities && a.date >= DayOf(now)
    requires a !in UpcomingActivities(activities, now)
    ensures |UpcomingActivities(activities, now)| == 3
    ensures forall i :: 0 <= i < 3 ==> KeyLe(UpcomingKey(UpcomingActivities(activities, now)[i]), UpcomingKey(a))
  {
    var f := Filter(activities, OnOrAfter(DayOf(now)));
    var sorted := Sort(f, UpcomingKey);
    FilterMembers(activities, OnOrAfter(DayOf(now)));
    SortMembers(f, UpcomingKey);
    var k :| 0 <= k < |activities| && activities[k] == a;
    assert a in sorted;
    var j :| 0 <= j < |sorted| && sorted[j] == a;
    var r := UpcomingActivities(activities, now);
    assert r == sorted[..|r|];
  }

  /** The icon beside an upcoming activity, as the page picks it: transport falls through to
      the default pin. */
  function UpcomingIconAsWritten(kind: string): (r: string)
    ensures kind == "transport" ==> r == "MapPin"
  {
    if kind == "flight" then "Plane"
    else if kind == "hotel" then "Building2"
    else if kind == "restaurant" then "Utensils"
    else if kind == "sightseeing" then "Camera"
    else "MapPin"
  }

  /** The page's upcoming-list icon disagrees with the activity card and the type breakdown
      exactly for transport. */
  lemma UpcomingIconDiffersOnTransport(kind: string)
    ensures UpcomingIconAsWritten(kind) != ActivityCard.ActivityIcon(kind) <==> kind == "transport"
  {
  }

  /** The icon beside an upcoming activity, the one the card and the breakdown use. */
  function UpcomingIcon(kind: string): (r: string)
    ensures r == ActivityCard.ActivityIcon(kind)
    ensures kind != "transport" ==> r == UpcomingIconAsWritten(kind)
  {
    ActivityCard.ActivityIcon(kind)
  }

  /** The icon beside each type in the activity breakdown. */
  function BreakdownIcon(kind: string): (r: string)
    ensures r == ActivityCard.ActivityIcon(kind)
  {
    if kind == "flight" then "Plane"
    else if kind == "hotel" then "Building2"
    else if kind == "restaurant" then "Utensils"
    else if kind == "sightseeing" then "Camera"
    else if kind == "transport" then "Car"
    else "MapPin"
  }
}
