/** The new-trip form: name, destination, the two dates and an optional cover image, validated
    and saved through the trip service. A date is a day number as the date input produces it;
    `None` stands for an empty input. */
module CreateTripModal {
  import opened Common
  import opened Text
  import opened Entities
  import opened Forms
  import TripService
  import Timeline

  datatype TripForm = TripForm(
    name: string, destination: string, startDate: Option<int>, endDate: Option<int>, coverImage: string)

  /** The form as it starts and as it is reset after a trip is created. */
  const EmptyForm := TripForm("", "", None, None, "")

  /** The cover used when none is given. */
  const DefaultCoverImage: string :=
    "https://images.unsplash.com/photo-1488646953014-85cb44e25828?ixlib=rb-4.0.3&auto=format&fit=crop&w=1000&q=80"

  /** One `handleChange` event. */
  datatype TripEdit =
    | EditName(name: string) | EditDestination(destination: string)
    | EditStartDate(startDate: Option<int>) | EditEndDate(endDate: Option<int>)
    | EditCoverImage(coverImage: string)

  function FieldName(e: TripEdit): string
  {
    match e
    case EditName(_) => "name"
    case EditDestination(_) => "destination"
    case EditStartDate(_) => "startDate"
    case EditEndDate(_) => "endDate"
    case EditCoverImage(_) => "coverImage"
  }

  /** `handleChange`: the named field takes the new value and its error is cleared. */
  function HandleChange(form: TripForm, errors: Errors, e: TripEdit): (r: (TripForm, Errors))
    ensures r.1 == ClearError(errors, FieldName(e))
    ensures e.EditName? ==> r.0 == form.(name := e.name)
    ensures e.EditDestination? ==> r.0 == form.(destination := e.destination)
    ensures e.EditStartDate? ==> r.0 == form.(startDate := e.startDate)
    ensures e.EditEndDate? ==> r.0 == form.(endDate := e.endDate)
    ensures e.EditCoverImage? ==> r.0 == form.(coverImage := e.coverImage)
  {
    var f := match e
      case EditName(v) => form.(name := v)
      case EditDestination(v) => form.(destination := v)
      case EditStartDate(v) => form.(startDate := v)
      case EditEndDate(v) => form.(endDate := v)
      case EditCoverImage(v) => form.(coverImage := v);
    (f, ClearError(errors, FieldName(e)))
  }

  /** The errors of the two text fields: each is required and may not be blank. */
  function TextErrors(form: TripForm): (r: Errors)
    ensures "name" in r <==> IsBlank(form.name)
    ensures "destination" in r <==> IsBlank(form.destination)
    ensures r.Keys <= {"name", "destination"}
  {
    TrimEmptyIffBlank(form.name);
    TrimEmptyIffBlank(form.destination);
    var e1 := Flag(map[], Trim(form.name) == "", "name", "Trip name is required");
    Flag(e1, Trim(form.destination) == "", "destination", "Destination is required")
  }

  /** The errors of the two dates: each is required, and the end must come after the start. */
  function DateErrors(form: TripForm): (r: Errors)
    ensures "startDate" in r <==> form.startDate.None?
    ensures "endDate" in r <==> (form.endDate.None?
      || (form.startDate.Some? && form.endDate.value <= form.startDate.value))
    ensures r.Keys <= {"startDate", "endDate"}
    ensures form.startDate.Some? && form.endDate.Some? && form.endDate.value <= form.startDate.value
      ==> r["endDate"] == "End date must be after start date"
  {
    var e1 := Flag(map[], form.startDate.None?, "startDate", "Start date is required");
    var e2 := Flag(e1, form.endDate.None?, "endDate", "End date is required");
    Flag(e2, form.startDate.Some? && form.endDate.Some? && form.endDate.value <= form.startDate.value,
      "endDate", "End date must be after start date")
  }

  /** `validateForm`: a name and a destination that are not blank, both dates, and an end
      strictly after the start. */
  function Validate(form: TripForm): (r: Errors)
    ensures "name" in r <==> IsBlank(form.name)
    ensures "destination" in r <==> IsBlank(form.destination)
    ensures "startDate" in r <==> form.startDate.None?
    ensures "endDate" in r <==> (form.endDate.None?
      || (form.startDate.Some? && form.endDate.value <= form.startDate.value))
    ensures r.Keys <= {"name", "destination", "startDate", "endDate"}
    ensures form.startDate.Some? && form.endDate.Some? && form.endDate.value <= form.startDate.value
      ==> r["endDate"] == "End date must be after start date"
  {
    TextErrors(form) + DateErrors(form)
  }

  /** `formData.coverImage || <default>` */
  function CoverImageOrDefault(coverImage: string): (r: string)
    ensures r != ""
    ensures coverImage != "" ==> r == coverImage
  {
    if coverImage == "" then DefaultCoverImage else coverImage
  }

  /** `handleSubmit`: refused while the form is invalid; otherwise the trip is created under
      `newId` at time `now` and the form is reset. The form is kept whenever nothing was created. */
  function Submit(form: TripForm, store: seq<Trip>, newId: Id, now: int): (r: (Submission<Trip>, TripForm))
    ensures r.0.Rejected? <==> Validate(form) != map[]
    ensures r.0.Rejected? ==> r.0.errors == Validate(form) && r.1 == form
    ensures !r.0.Failed?
    ensures r.0.Saved? ==> (r.1 == EmptyForm && r.0.store == store + [r.0.saved]
      && r.0.saved.id == newId && r.0.saved.createdAt == now)
    ensures r.0.Saved? ==> (r.0.saved.name == form.name && r.0.saved.destination == form.destination
      && Some(r.0.saved.startDate) == form.startDate && Some(r.0.saved.endDate) == form.endDate
      && r.0.saved.coverImage == CoverImageOrDefault(form.coverImage))
  {
    var errors := Validate(form);
    if errors != map[] then (Rejected(errors), form)
    else
      var data := Trip("", form.name, form.destination, form.startDate.value, form.endDate.value,
        CoverImageOrDefault(form.coverImage), 0);
      var c := TripService.Create(store, data, newId, now);
      (Saved(c.store, c.value), EmptyForm)
  }

  /** A trip created through the form ends after it starts, so its timeline offers at least two
      days, and it always has a cover image. */
  lemma CreatedTripSpansTwoDays(form: TripForm, store: seq<Trip>, newId: Id, now: int)
    requires Submit(form, store, newId, now).0.Saved?
    ensures var t := Submit(form, store, newId, now).0.saved;
      t.startDate < t.endDate && |Timeline.AvailableDates(Some(t))| >= 2 && t.coverImage != ""
  {
    var errors := Validate(form);
    assert errors == map[];
    assert "endDate" !in errors && "startDate" !in errors;
  }
}
