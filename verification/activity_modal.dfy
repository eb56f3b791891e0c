/** The activity form, used both to add an activity and to edit one: its fields, how they are
    prefilled, the validation, and the save through the activity service. A date is a day
    number and a time is minutes after midnight, as the date and time inputs produce them;
    `None` stands for an empty input. */
module ActivityModal {
  import opened Common
  import opened Text
  import opened Entities
  import opened Store
  import opened Forms
  import ActivityService
  import ActivityCard

  datatype ActivityForm = ActivityForm(
    kind: string, title: string, date: Option<int>, time: Option<nat>,
    duration: string, location: string, notes: string)

  /** One entry of the type picker. */
  datatype TypeOption = TypeOption(value: string, caption: string, icon: string)

  const ActivityTypes: seq<TypeOption> := [
    TypeOption("flight", "Flight", "Plane"),
    TypeOption("hotel", "Hotel", "Building2"),
    TypeOption("restaurant", "Restaurant", "Utensils"),
    TypeOption("sightseeing", "Sightseeing", "Camera"),
    TypeOption("transport", "Transport", "Car"),
    TypeOption("activity", "Activity", "MapPin")]

  /** The picker offers exactly the types the card knows, each with the card's icon. */
  lemma TypeIconsMatchCard()
    ensures |ActivityTypes| == |ActivityCard.KnownTypes|
    ensures forall i :: 0 <= i < |ActivityTypes| ==> (ActivityTypes[i].value == ActivityCard.KnownTypes[i]
      && ActivityTypes[i].icon == ActivityCard.ActivityIcon(ActivityTypes[i].value))
  {
  }

  /** The form when it opens: the activity's values when editing, otherwise a sightseeing
      activity on the first available day with every other field empty. */
  function Prefill(activity: Option<Activity>, availableDates: seq<int>): (r: ActivityForm)
    ensures activity.Some? ==> (r.kind == activity.value.kind && r.title == activity.value.title
      && r.date == Some(activity.value.date) && r.time == activity.value.time
      && ParseInt(r.duration) == Some(activity.value.duration))
    ensures activity.Some? ==> (r.location == if activity.value.location.Some? then activity.value.location.value else "")
    ensures activity.Some? ==> (r.notes == if activity.value.notes.Some? then activity.value.notes.value else "")
    ensures activity.None? ==> (r.kind == "sightseeing" && r.title == "" && r.time.None?
      && r.duration == "" && r.location == "" && r.notes == "")
    ensures activity.None? ==> r.date == if |availableDates| > 0 then Some(availableDates[0]) else None
  {
    match activity
    case Some(a) =>
      ParseIntRoundTrip(a.duration);
      ActivityForm(a.kind, a.title, Some(a.date), a.time, IntToString(a.duration),
        a.location.GetOr(""), a.notes.GetOr(""))
    case None =>
      ActivityForm("sightseeing", "", if |availableDates| > 0 then Some(availableDates[0]) else None,
        None, "", "", "")
  }

  /** One `handleChange` event: the field it names and the value it carries. */
  datatype ActivityEdit =
    | EditKind(kind: string) | EditTitle(title: string) | EditDate(date: Option<int>)
    | EditTime(time: Option<nat>) | EditDuration(duration: string)
    | EditLocation(location: string) | EditNotes(notes: string)

  /** The `name` attribute of the input an edit comes from. */
  function FieldName(e: ActivityEdit): string
  {
    match e
    case EditKind(_) => "type"
    case EditTitle(_) => "title"
    case EditDate(_) => "date"
    case EditTime(_) => "time"
    case EditDuration(_) => "duration"
    case EditLocation(_) => "location"
    case EditNotes(_) => "notes"
  }

  /** `handleChange`: the named field takes the new value and its error is cleared. */
  function HandleChange(form: ActivityForm, errors: Errors, e: ActivityEdit): (r: (ActivityForm, Errors))
    ensures r.1 == ClearError(errors, FieldName(e))
    ensures e.EditKind? ==> r.0 == form.(kind := e.kind)
    ensures e.EditTitle? ==> r.0 == form.(title := e.title)
    ensures e.EditDate? ==> r.0 == form.(date := e.date)
    ensures e.EditTime? ==> r.0 == form.(time := e.time)
    ensures e.EditDuration? ==> r.0 == form.(duration := e.duration)
    ensures e.EditLocation? ==> r.0 == form.(location := e.location)
    ensures e.EditNotes? ==> r.0 == form.(notes := e.notes)
  {
    var f := match e
      case EditKind(v) => form.(kind := v)
      case EditTitle(v) => form.(title := v)
      case EditDate(v) => form.(date := v)
      case EditTime(v) => form.(time := v)
      case EditDuration(v) => form.(duration := v)
      case EditLocation(v) => form.(location := v)
      case EditNotes(v) => form.(notes := v);
    (f, ClearError(errors, FieldName(e)))
  }

  /** `validateForm`: a title that is not blank, a date and a time are required. */
  function Validate(form: ActivityForm): (r: Errors)
    ensures "title" in r <==> IsBlank(form.title)
    ensures "date" in r <==> form.date.None?
    ensures "time" in r <==> form.time.None?
    ensures r.Keys <= {"title", "date", "time"}
    ensures r == map[] <==> !IsBlank(form.title) && form.date.Some? && form.time.Some?
  {
    TrimEmptyIffBlank(form.title);
    var e1 := Flag(map[], Trim(form.title) == "", "title", "Title is required");
    var e2 := Flag(e1, form.date.None?, "date", "Date is required");
    Flag(e2, form.time.None?, "time", "Time is required")
  }

  /** `parseInt(duration) || 0`: the number typed, 0 when there is none. */
  function Duration(form: ActivityForm): (r: int)
    ensures ParseInt(form.duration).Some? ==> r == ParseInt(form.duration).value
    ensures ParseInt(form.duration).None? ==> r == 0
  {
    match ParseInt(form.duration)
    case None => 0
    case Some(v) => v
  }

  /** The keys `{ ...formData, tripId, duration }` sends to `update`. */
  function Payload(form: ActivityForm, tripId: Id): (r: ActivityPatch)
    requires form.date.Some?
    ensures r.id.None? && r.name.None? && r.tripId == Some(tripId)
    ensures r.kind == Some(form.kind) && r.title == Some(form.title)
    ensures r.date == Some(form.date.value) && r.time == Some(form.time) && r.duration == Some(Duration(form))
    ensures r.location == Some(Some(form.location)) && r.notes == Some(Some(form.notes))
  {
    ActivityPatch(None, Some(tripId), Some(form.kind), Some(form.title), Some(form.date.value),
      Some(form.time), Some(Duration(form)), Some(Some(form.location)), Some(Some(form.notes)), None)
  }

  /** The record `{ ...formData, tripId, duration }` hands to `create`, before it gets an id. */
  function NewActivity(form: ActivityForm, tripId: Id): (r: Activity)
    requires form.date.Some?
    ensures r.tripId == tripId && r.date == form.date.value && r.time == form.time
    ensures r.kind == form.kind && r.title == form.title
    ensures r.duration == Duration(form) && r.name.None?
    ensures r.location == Some(form.location) && r.notes == Some(form.notes)
  {
    Activity("", tripId, form.kind, form.title, form.date.value, form.time, Duration(form),
      Some(form.location), Some(form.notes), None)
  }

  /** `handleSubmit`: refused while the form is invalid; otherwise the edited activity is
      updated, or a new one created under `newId`, and the saved record handed back. A failing
      service call keeps the store as it was. */
  function Submit(form: ActivityForm, tripId: Id, editing: Option<Activity>, store: seq<Activity>, newId: Id)
    : (r: Submission<Activity>)
    ensures r.Rejected? <==> Validate(form) != map[]
    ensures r.Rejected? ==> r.errors == Validate(form)
    ensures r.Saved? ==> (r.saved.tripId == tripId && r.saved.kind == form.kind && r.saved.title == form.title
      && Some(r.saved.date) == form.date && r.saved.time == form.time && r.saved.duration == Duration(form))
    ensures r.Saved? && editing.None? ==> r.saved.id == newId && r.store == store + [r.saved]
    ensures r.Saved? ==> r.saved.location == Some(form.location) && r.saved.notes == Some(form.notes)
    ensures r.Saved? && editing.Some? ==> r.saved.id == editing.value.id && |r.store| == |store|
    ensures r.Saved? && editing.Some? ==> exists i :: (0 <= i < |store| && store[i].id == editing.value.id
      && (forall j :: 0 <= j < i ==> store[j].id != editing.value.id)
      && r.saved.name == store[i].name && r.store == store[i := r.saved])
    ensures r.Failed? <==> (Validate(form) == map[] && editing.Some?
      && forall i :: 0 <= i < |store| ==> store[i].id != editing.value.id)
  {
    var errors := Validate(form);
    if errors != map[] then Rejected(errors)
    else match editing
      case Some(a) =>
        (match ActivityService.Update(store, a.id, Payload(form, tripId))
         case Err(m) => Failed(m)
         case Ok(u) => Saved(u.store, u.value))
      case None =>
        var c := ActivityService.Create(store, NewActivity(form, tripId), newId);
        Saved(c.store, c.value)
  }

  /** A new form cannot be submitted untouched: the title and the time are still missing. */
  lemma NewFormNeedsTitleAndTime(availableDates: seq<int>)
    ensures var e := Validate(Prefill(None, availableDates));
      "title" in e && "time" in e && ("date" in e <==> |availableDates| == 0)
  {
  }

  /** Opening a stored activity and saving it without a change leaves the store as it was and
      hands back the same record, when the activity has a title, a time, a location and notes. */
  lemma EditUnchangedKeepsStore(store: seq<Activity>, a: Activity, availableDates: seq<int>, newId: Id)
    requires DistinctIds(store, ActivityId) && a in store
    requires !IsBlank(a.title) && a.time.Some? && a.location.Some? && a.notes.Some?
    ensures Submit(Prefill(Some(a), availableDates), a.tripId, Some(a), store, newId) == Saved(store, a)
  {
    var form := Prefill(Some(a), availableDates);
    assert Validate(form) == map[];
    UnchangedFormMergesToItself(a, availableDates);
    UpdateToItself(store, a, Payload(form, a.tripId));
  }

  /** An update that merges a stored activity back into itself leaves the store unchanged. */
  lemma UpdateToItself(store: seq<Activity>, a: Activity, p: ActivityPatch)
    requires DistinctIds(store, ActivityId) && a in store && MergeActivity(a, p) == a
    ensures ActivityService.Update(store, a.id, p) == Ok(Reply(store, a))
  {
    var u := ActivityService.Update(store, a.id, p);
    var k :| 0 <= k < |store| && store[k] == a;
    assert u.Ok?;
    var i :| 0 <= i < |store| && store[i].id == a.id
      && u.value.value == MergeActivity(store[i], p) && u.value.store == store[i := u.value.value];
    assert i == k;
    assert store[i := a] == store;
  }

  /** The update sent by an unchanged edit form merges back into the same activity. */
  lemma UnchangedFormMergesToItself(a: Activity, availableDates: seq<int>)
    requires a.location.Some? && a.notes.Some?
    ensures MergeActivity(a, Payload(Prefill(Some(a), availableDates), a.tripId)) == a
  {
    var form := Prefill(Some(a), availableDates);
    assert Duration(form) == a.duration;
  }
}
