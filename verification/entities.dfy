/** The three record kinds the planner stores, and the `{ ...record, ...data }` merge an update
    call performs on each. A JavaScript key absent from `data` keeps the stored value; here
    every key of `data` is an `Option`, `None` standing for the absent key. */
module Entities {
  import opened Common

  /** A trip. Dates are day numbers; `createdAt` is a timestamp in minutes. */
  datatype Trip = Trip(
    id: Id, name: string, destination: string,
    startDate: int, endDate: int, coverImage: string, createdAt: int)

  /** An activity of a trip. `time` is minutes after midnight, `None` when the activity has no
      time; `name` is the legacy label some records carry instead of a title. */
  datatype Activity = Activity(
    id: Id, tripId: Id, kind: string, title: string, date: int, time: Option<nat>,
    duration: int, location: Option<string>, notes: Option<string>, name: Option<string>)

  /** A packing-list entry. `quantity` is `None` for the `NaN` that `parseInt` can produce. */
  datatype PackingItem = PackingItem(
    id: Id, tripId: Id, category: string, name: string, quantity: Option<int>, packed: bool)

  /** The keys an update of a trip may carry. */
  datatype TripPatch = TripPatch(
    id: Option<Id>, name: Option<string>, destination: Option<string>,
    startDate: Option<int>, endDate: Option<int>, coverImage: Option<string>, createdAt: Option<int>)

  /** The keys an update of an activity may carry. */
  datatype ActivityPatch = ActivityPatch(
    id: Option<Id>, tripId: Option<Id>, kind: Option<string>, title: Option<string>,
    date: Option<int>, time: Option<Option<nat>>, duration: Option<int>,
    location: Option<Option<string>>, notes: Option<Option<string>>, name: Option<Option<string>>)

  /** The keys an update of a packing item may carry. */
  datatype PackingPatch = PackingPatch(
    id: Option<Id>, tripId: Option<Id>, category: Option<string>, name: Option<string>,
    quantity: Option<Option<int>>, packed: Option<bool>)

  const EmptyTripPatch := TripPatch(None, None, None, None, None, None, None)
  const EmptyActivityPatch := ActivityPatch(None, None, None, None, None, None, None, None, None, None)
  const EmptyPackingPatch := PackingPatch(None, None, None, None, None, None)

  /** `{ ...t, ...p }` */
  function MergeTrip(t: Trip, p: TripPatch): Trip
  {
    Trip(p.id.GetOr(t.id), p.name.GetOr(t.name), p.destination.GetOr(t.destination),
      p.startDate.GetOr(t.startDate), p.endDate.GetOr(t.endDate),
      p.coverImage.GetOr(t.coverImage), p.createdAt.GetOr(t.createdAt))
  }

  /** `{ ...a, ...p }` */
  function MergeActivity(a: Activity, p: ActivityPatch): Activity
  {
    Activity(p.id.GetOr(a.id), p.tripId.GetOr(a.tripId), p.kind.GetOr(a.kind),
      p.title.GetOr(a.title), p.date.GetOr(a.date), p.time.GetOr(a.time),
      p.duration.GetOr(a.duration), p.location.GetOr(a.location), p.notes.GetOr(a.notes),
      p.name.GetOr(a.name))
  }

  /** `{ ...x, ...p }` */
  function MergeItem(x: PackingItem, p: PackingPatch): PackingItem
  {
    PackingItem(p.id.GetOr(x.id), p.tripId.GetOr(x.tripId), p.category.GetOr(x.category),
      p.name.GetOr(x.name), p.quantity.GetOr(x.quantity), p.packed.GetOr(x.packed))
  }

  function TripId(t: Trip): Id { t.id }
  function ActivityId(a: Activity): Id { a.id }
  function ItemId(x: PackingItem): Id { x.id }
  function ActivityKind(a: Activity): string { a.kind }
  function ItemCategory(x: PackingItem): string { x.category }

  /** `a => a.tripId === tripId` */
  function ActivityOfTrip(tripId: Id): Activity -> bool
  {
    (a: Activity) => a.tripId == tripId
  }

  /** `a => a.tripId !== tripId` */
  function ActivityNotOfTrip(tripId: Id): Activity -> bool
  {
    (a: Activity) => a.tripId != tripId
  }

  /** `p => p.tripId === tripId` */
  function ItemOfTrip(tripId: Id): PackingItem -> bool
  {
    (x: PackingItem) => x.tripId == tripId
  }

  /** `item => item.packed` */
  function IsPacked(x: PackingItem): bool
  {
    x.packed
  }

  /** A trip merge whose patch carries no key changes nothing. */
  lemma MergeTripEmptyPatch(t: Trip)
    ensures MergeTrip(t, EmptyTripPatch) == t
  {
  }

  /** An activity merge whose patch carries no key changes nothing. */
  lemma MergeActivityEmptyPatch(a: Activity)
    ensures MergeActivity(a, EmptyActivityPatch) == a
  {
  }

  /** A packing-item merge whose patch carries no key changes nothing. */
  lemma MergeItemEmptyPatch(x: PackingItem)
    ensures MergeItem(x, EmptyPackingPatch) == x
  {
  }
}
