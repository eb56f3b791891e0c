/** The Calendar page of one trip: activities turned into calendar events, the guard on the
    slot the user picks, the days the activity form offers, the event colours, and the local
    list kept in step after a save. An instant is a count of minutes (see `Days`); the
    calendar library, time zones and rendering are left out. */
module Calendar {
  import opened Common
  import opened Text
  import opened Days
  import opened Entities
  import opened Grouping
  import Timeline
  import ActivityModal

  /** One calendar event; `resource` is the activity it shows. */
  datatype Event = Event(
    id: Id, title: Option<string>, start: int, end: int, allDay: bool, resource: Activity)

  /** `activity.title || activity.name`: an empty title gives way to the legacy name. */
  function EventTitle(a: Activity): (r: Option<string>)
    ensures a.title != "" ==> r == Some(a.title)
    ensures a.title == "" ==> r == a.name
  {
    if a.title != "" then Some(a.title) else a.name
  }

  /** The length of a timed event: its duration, or an hour when the duration is 0. */
  function EventLength(a: Activity): int
  {
    if a.duration != 0 then a.duration else 60
  }

  /** The event of one activity: a timed activity starts at its time on its day and lasts its
      duration (an hour when that is 0); an untimed one covers its whole day. */
  function ToEvent(a: Activity): (r: Event)
    ensures r.id == a.id && r.resource == a && r.title == EventTitle(a)
    ensures r.allDay <==> a.time.None?
    ensures a.time.None? ==> r.start == Midnight(a.date) && r.end == Midnight(a.date + 1)
    ensures a.time.Some? ==> r.start - Midnight(a.date) == a.time.value
    ensures a.time.Some? && a.duration != 0 ==> r.end - r.start == a.duration
    ensures a.time.Some? && a.duration == 0 ==> r.end - r.start == 60
  {
    match a.time
    case None => Event(a.id, EventTitle(a), Midnight(a.date), Midnight(a.date) + MinutesPerDay, true, a)
    case Some(t) =>
      var start := Midnight(a.date) + t;
      Event(a.id, EventTitle(a), start, start + EventLength(a), false, a)
  }

  /** `calendarEvents`: one event per activity, in list order. */
  function CalendarEvents(activities: seq<Activity>): (r: seq<Event>)
    ensures |r| == |activities|
    ensures forall i :: 0 <= i < |r| ==> r[i].resource == activities[i] && r[i].id == activities[i].id
    ensures forall i :: 0 <= i < |r| ==> r[i].title == EventTitle(activities[i])
    ensures forall i :: 0 <= i < |r| ==> (r[i].allDay <==> activities[i].time.None?)
    ensures forall i :: 0 <= i < |r| && activities[i].time.None? ==>
      r[i].start == Midnight(activities[i].date) && r[i].end == Midnight(activities[i].date + 1)
    ensures forall i :: 0 <= i < |r| && activities[i].time.Some? ==>
      r[i].start - Midnight(activities[i].date) == activities[i].time.value
      && r[i].end - r[i].start == (if activities[i].duration != 0 then activities[i].duration else 60)
  {
    seq(|activities|, i requires 0 <= i < |activities| => ToEvent(activities[i]))
  }

  /** An activity whose time lies within its day starts on the day the timeline files it
      under, and an untimed one lasts exactly that day. */
  lemma EventOnActivityDay(a: Activity)
    requires a.time.None? || a.time.value < MinutesPerDay
    ensures DayOf(ToEvent(a).start) == a.date
    ensures ToEvent(a).allDay ==> ToEvent(a).end - ToEvent(a).start == MinutesPerDay
  {
    var r := ToEvent(a);
    assert Midnight(a.date) <= r.start < Midnight(a.date + 1);
    assert Midnight(DayOf(r.start)) <= r.start < Midnight(DayOf(r.start) + 1);
  }

  /** The calendar and the timeline agree: an activity's event starts on one of the trip's
      days exactly when the timeline shows the activity in some day's bucket. */
  lemma CalendarAgreesWithTimeline(trip: Option<Trip>, activities: seq<Activity>, i: nat)
    requires i < |activities|
    requires activities[i].time.None? || activities[i].time.value < MinutesPerDay
    ensures var g := Timeline.DayBuckets(trip, activities);
      (DayOf(CalendarEvents(activities)[i].start) in Timeline.AvailableDates(trip) <==>
        exists k :: 0 <= k < |g| && activities[i] in g[k].items)
  {
    EventOnActivityDay(activities[i]);
    Timeline.ShownIffInTrip(trip, activities, activities[i]);
  }

  /** `getAvailableDates`: the loop that steps one day at a time from the first day of the
      trip while the day is not after the last, computing the same days as the timeline. */
  method GetAvailableDates(trip: Option<Trip>) returns (dates: seq<int>)
    ensures dates == Timeline.AvailableDates(trip)
  {
    if trip.None? {
      return [];
    }
    var t := trip.value;
    dates := [];
    var d := t.startDate;
    while d <= t.endDate
      invariant t.startDate <= d
      invariant d == t.startDate || d <= t.endDate + 1
      invariant |dates| == d - t.startDate
      invariant forall i :: 0 <= i < |dates| ==> dates[i] == t.startDate + i
      decreases t.endDate - d
    {
      dates := dates + [d];
      d := d + 1;
    }
    assert |dates| == |Timeline.AvailableDates(trip)|;
  }

  const DefaultEventColor := "#3b82f6"

  /** `eventStyleGetter`'s background: a colour per known type, compared after lower-casing,
      and the default blue for every other type (and for a missing one). */
  function EventColor(kind: string): (r: string)
    ensures r != DefaultEventColor <==> ToLower(kind) in ["flight", "hotel", "restaurant", "activity"]
  {
    match ToLower(kind)
    case "flight" => "#ef4444"
    case "hotel" => "#8b5cf6"
    case "restaurant" => "#f59e0b"
    case "activity" => "#10b981"
    case _ => DefaultEventColor
  }

  /** The colour ignores letter case. */
  lemma EventColorIgnoresCase(kind: string)
    ensures EventColor(ToLower(kind)) == EventColor(kind)
  {
    ToLowerIdempotent(kind);
  }

  /** The known types are told apart by colour. */
  lemma EventColorsDistinct(k1: string, k2: string)
    requires ToLower(k1) in ["flight", "hotel", "restaurant", "activity"]
    ensures EventColor(k1) == EventColor(k2) <==> ToLower(k1) == ToLower(k2)
  {
  }

  /** The page state the handlers change. */
  datatype CalendarPage = CalendarPage(
    trip: Option<Trip>, activities: seq<Activity>, editing: Option<Activity>,
    selectedDate: Option<int>, modalOpen: bool)

  /** The page after a slot is accepted: its day is selected and the form opens for a new
      activity. */
  function OpenOnSlot(page: CalendarPage, start: int): CalendarPage
  {
    page.(selectedDate := Some(DayOf(start)), editing := None, modalOpen := true)
  }

  /** `handleSelectSlot` as written: the slot's start instant is compared with midnight of the
      first and of the last day, so on the last day only a slot starting at midnight passes. */
  function SelectSlotAsWritten(page: CalendarPage, start: int): (r: CalendarPage)
    ensures r.modalOpen && !page.modalOpen ==> page.trip.Some? && DayOf(start) in Timeline.AvailableDates(page.trip)
    ensures r == page || r == OpenOnSlot(page, start)
    ensures r == if page.trip.Some? && page.trip.value.startDate <= DayOf(start)
        && (DayOf(start) < page.trip.value.endDate || start == Midnight(page.trip.value.endDate))
      then OpenOnSlot(page, start) else page
  {
    match page.trip
    case None => page
    case Some(t) =>
      InstantVersusMidnight(start, t.startDate);
      InstantVersusMidnight(start, t.endDate);
      if start < Midnight(t.startDate) || start > Midnight(t.endDate) then page
      else
        Timeline.AvailableDatesMembers(page.trip, DayOf(start));
        OpenOnSlot(page, start)
  }

  /** `handleSelectSlot` with the guard on the slot's day: any slot on a day of the trip opens
      the form for that day, any other slot changes nothing. */
  function SelectSlot(page: CalendarPage, start: int): (r: CalendarPage)
    ensures page.trip.Some? && DayOf(start) in Timeline.AvailableDates(page.trip) ==> r == OpenOnSlot(page, start)
    ensures !(page.trip.Some? && DayOf(start) in Timeline.AvailableDates(page.trip)) ==> r == page
  {
    match page.trip
    case None => page
    case Some(t) =>
      Timeline.AvailableDatesMembers(page.trip, DayOf(start));
      if DayOf(start) < t.startDate || DayOf(start) > t.endDate then page
      else OpenOnSlot(page, start)
  }

  /** A two-day trip refuses a 10:00 slot on its last day as written, while the day guard
      accepts it. */
  lemma LastDaySlotRefused()
    ensures var page := CalendarPage(Some(Trip("1", "Weekend", "Lyon", 0, 1, "", 0)), [], None, None, false);
      SelectSlotAsWritten(page, Midnight(1) + 600) == page
      && SelectSlot(page, Midnight(1) + 600).modalOpen
  {
    var page := CalendarPage(Some(Trip("1", "Weekend", "Lyon", 0, 1, "", 0)), [], None, None, false);
    assert DayOf(Midnight(1) + 600) == 1;
    Timeline.AvailableDatesMembers(page.trip, 1);
  }

  /** The two guards agree on slots that start at midnight, which is what the month view
      hands over. */
  lemma SlotGuardsAgreeAtMidnight(page: CalendarPage, d: int)
    ensures SelectSlotAsWritten(page, Midnight(d)) == SelectSlot(page, Midnight(d))
  {
    assert DayOf(Midnight(d)) == d;
  }

  /** The two guards part exactly on the last day of a trip after its midnight: there the slot
      is refused as written and accepted by the day guard; everywhere else they agree. */
  lemma SlotGuardsDifferOnlyOnLastDay(page: CalendarPage, start: int)
    ensures (page.trip.Some? && page.trip.value.startDate <= page.trip.value.endDate
        && DayOf(start) == page.trip.value.endDate && start != Midnight(page.trip.value.endDate))
      ==> SelectSlotAsWritten(page, start) == page && SelectSlot(page, start) == OpenOnSlot(page, start)
    ensures !(page.trip.Some? && DayOf(start) == page.trip.value.endDate && start != Midnight(page.trip.value.endDate))
      ==> SelectSlotAsWritten(page, start) == SelectSlot(page, start)
  {
    if page.trip.Some? {
      Timeline.AvailableDatesMembers(page.trip, DayOf(start));
    }
  }

  /** `handleSelectEvent`: the event's activity opens for editing. */
  function SelectEvent(page: CalendarPage, e: Event): (r: CalendarPage)
    ensures r.editing == Some(e.resource) && r.modalOpen
    ensures r.activities == page.activities && r.selectedDate == page.selectedDate
  {
    page.(editing := Some(e.resource), modalOpen := true)
  }

  /** The activity form as this page opens it: the selected day is handed to the form, which
      has no such input, so a new activity is always prefilled with the trip's first day. */
  function FormOnOpenAsWritten(page: CalendarPage): (r: ActivityModal.ActivityForm)
    ensures page.editing.None? ==> r.date == if |Timeline.AvailableDates(page.trip)| > 0
      then Some(page.trip.value.startDate) else None
  {
    ActivityModal.Prefill(page.editing, Timeline.AvailableDates(page.trip))
  }

  /** The activity form prefilled with the selected day when a slot chose one. */
  function FormOnOpen(page: CalendarPage): (r: ActivityModal.ActivityForm)
    ensures page.editing.None? && page.selectedDate.Some? ==> r.date == page.selectedDate
    ensures page.editing.None? && page.selectedDate.None? ==> r == FormOnOpenAsWritten(page)
    ensures page.editing.Some? ==> r == FormOnOpenAsWritten(page)
  {
    var f := ActivityModal.Prefill(page.editing, Timeline.AvailableDates(page.trip));
    if page.editing.None? && page.selectedDate.Some? then f.(date := page.selectedDate) else f
  }

  /** Picking the third day of a three-day trip still prefills the first day as written. */
  lemma SelectedDayIgnored()
    ensures var page := SelectSlot(CalendarPage(Some(Trip("1", "Tour", "Rome", 0, 2, "", 0)), [], None, None, false), Midnight(2) + 600);
      page.selectedDate == Some(2) && FormOnOpenAsWritten(page).date == Some(0)
      && FormOnOpen(page).date == Some(2)
  {
    var p0 := CalendarPage(Some(Trip("1", "Tour", "Rome", 0, 2, "", 0)), [], None, None, false);
    assert DayOf(Midnight(2) + 600) == 2;
    Timeline.AvailableDatesMembers(p0.trip, 2);
  }

  /** `handleActivitySaved`: the list is updated as on the timeline, and the edited activity
      and the selected day are cleared. */
  function HandleActivitySaved(page: CalendarPage, saved: Activity): (r: CalendarPage)
    ensures r.editing.None? && r.selectedDate.None? && r.trip == page.trip
    ensures page.editing.Some? ==> (|r.activities| == |page.activities|
      && forall i :: 0 <= i < |r.activities| ==>
        r.activities[i] == if page.activities[i].id == saved.id then saved else page.activities[i])
    ensures page.editing.None? ==> r.activities == page.activities + [saved]
  {
    page.(activities := Timeline.HandleActivitySaved(page.activities, page.editing, saved),
      editing := None, selectedDate := None)
  }
}
