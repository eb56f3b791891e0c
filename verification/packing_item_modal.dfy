/** The add-item form of the packing list: name, quantity and category, validated and saved
    through the packing service. */
module PackingItemModal {
  import opened Common
  import opened Text
  import opened Entities
  import opened Forms
  import PackingService
  import PackingCategory

  datatype PackingForm = PackingForm(name: string, quantity: string, category: string)

  /** One entry of the category picker. */
  datatype CategoryOption = CategoryOption(value: string, caption: string, icon: string)

  const Categories: seq<CategoryOption> := [
    CategoryOption("clothing", "Clothing", "Shirt"),
    CategoryOption("toiletries", "Toiletries", "Droplets"),
    CategoryOption("documents", "Documents", "FileText"),
    CategoryOption("electronics", "Electronics", "Smartphone"),
    CategoryOption("accessories", "Accessories", "Watch"),
    CategoryOption("medications", "Medications", "Pill"),
    CategoryOption("other", "Other", "Package")]

  /** The picker offers exactly the categories the category card knows, each with its icon. */
  lemma CategoryIconsMatchCard()
    ensures |Categories| == |PackingCategory.KnownCategories|
    ensures forall i :: 0 <= i < |Categories| ==> (Categories[i].value == PackingCategory.KnownCategories[i]
      && Categories[i].icon == PackingCategory.CategoryIcon(Categories[i].value))
  {
  }

  /** The form each time it opens: no name, quantity 1, the requested category or `other`. */
  function OpenForm(category: string): (r: PackingForm)
    ensures r.name == "" && r.quantity == "1"
    ensures category != "" ==> r.category == category
    ensures category == "" ==> r.category == "other"
  {
    PackingForm("", "1", if category == "" then "other" else category)
  }

  /** One `handleChange` event. */
  datatype PackingEdit = EditName(name: string) | EditQuantity(quantity: string) | EditCategory(category: string)

  function FieldName(e: PackingEdit): string
  {
    match e
    case EditName(_) => "name"
    case EditQuantity(_) => "quantity"
    case EditCategory(_) => "category"
  }

  /** `handleChange`: the named field takes the new value and its error is cleared. */
  function HandleChange(form: PackingForm, errors: Errors, e: PackingEdit): (r: (PackingForm, Errors))
    ensures r.1 == ClearError(errors, FieldName(e))
    ensures e.EditName? ==> r.0 == form.(name := e.name)
    ensures e.EditQuantity? ==> r.0 == form.(quantity := e.quantity)
    ensures e.EditCategory? ==> r.0 == form.(category := e.category)
  {
    var f := match e
      case EditName(v) => form.(name := v)
      case EditQuantity(v) => form.(quantity := v)
      case EditCategory(v) => form.(category := v);
    (f, ClearError(errors, FieldName(e)))
  }

  /** `!quantity || parseInt(quantity) < 1`; a quantity that does not parse compares false. */
  predicate QuantityTooSmall(quantity: string)
  {
    quantity == "" || (ParseInt(quantity).Some? && ParseInt(quantity).value < 1)
  }

  /** `validateForm`: a name that is not blank and a quantity of at least 1 are required. */
  function Validate(form: PackingForm): (r: Errors)
    ensures "name" in r <==> IsBlank(form.name)
    ensures "quantity" in r <==> QuantityTooSmall(form.quantity)
    ensures r.Keys <= {"name", "quantity"}
  {
    TrimEmptyIffBlank(form.name);
    var e1 := Flag(map[], Trim(form.name) == "", "name", "Item name is required");
    Flag(e1, QuantityTooSmall(form.quantity), "quantity", "Quantity must be at least 1")
  }

  /** `handleSubmit`: refused while the form is invalid; otherwise a new unpacked item of the
      trip is created under `newId` with the parsed quantity. */
  function Submit(form: PackingForm, tripId: Id, store: seq<PackingItem>, newId: Id): (r: Submission<PackingItem>)
    ensures r.Rejected? <==> Validate(form) != map[]
    ensures r.Rejected? ==> r.errors == Validate(form)
    ensures !r.Failed?
    ensures r.Saved? ==> r.store == store + [r.saved] && r.saved.id == newId && !r.saved.packed
    ensures r.Saved? ==> (r.saved.tripId == tripId && r.saved.name == form.name
      && r.saved.category == form.category && r.saved.quantity == ParseInt(form.quantity))
  {
    var errors := Validate(form);
    if errors != map[] then Rejected(errors)
    else
      var c := PackingService.Create(store, PackingItem("", tripId, form.category, form.name, ParseInt(form.quantity), false), newId);
      Saved(c.store, c.value)
  }

  /** A saved item never has a quantity below 1 (a quantity that does not parse is kept as
      missing). */
  lemma SavedQuantityAtLeastOne(form: PackingForm, tripId: Id, store: seq<PackingItem>, newId: Id)
    requires Submit(form, tripId, store, newId).Saved?
    ensures var q := Submit(form, tripId, store, newId).saved.quantity;
      q.None? || q.value >= 1
  {
    assert !QuantityTooSmall(form.quantity);
  }

  /** The quantity a form opens with passes validation. */
  lemma QuantityOneAccepted()
    ensures !QuantityTooSmall("1")
  {
    ParseIntOfDigits("1");
  }

  /** A form whose name is blank and whose quantity passes is refused on the name alone. */
  lemma OnlyNameRefused(form: PackingForm)
    requires IsBlank(form.name) && !QuantityTooSmall(form.quantity)
    ensures Validate(form).Keys == {"name"}
  {
    var errors := Validate(form);
    assert "name" in errors && "quantity" !in errors;
  }

  /** A freshly opened form is refused on the name alone. */
  lemma OpenFormNeedsOnlyName(category: string)
    ensures Validate(OpenForm(category)).Keys == {"name"}
  {
    QuantityOneAccepted();
    OnlyNameRefused(OpenForm(category));
  }
}
