/** The activity service: an in-memory list of activities shared by every page. Here the store
    is a value threaded through the calls and records are values, so which object a caller holds
    does not matter. The artificial delay before each call and the clock that mints ids are left
    out; the new id is a parameter. */
module ActivityService {
  import opened Common
  import opened Seqs
  import opened Store
  import opened Entities

  const NotFound := "Activity not found"

  /** The merge `{ ...activity, ...data }` as a change applied to one record. */
  function ApplyPatch(p: ActivityPatch): Activity -> Activity
  {
    (a: Activity) => MergeActivity(a, p)
  }

  /** `getAll`: every stored activity, in storage order. */
  function GetAll(store: seq<Activity>): (r: seq<Activity>)
    ensures |r| == |store| && forall i :: 0 <= i < |r| ==> r[i] == store[i]
  {
    store
  }

  /** `getByTripId`: the activities of one trip, in storage order. */
  function GetByTripId(store: seq<Activity>, tripId: Id): (r: seq<Activity>)
    ensures |r| <= |store|
    ensures forall i :: 0 <= i < |r| ==> r[i].tripId == tripId && r[i] in store
    ensures forall i :: 0 <= i < |store| && store[i].tripId == tripId ==> store[i] in r
  {
    FilterMembers(store, ActivityOfTrip(tripId));
    Filter(store, ActivityOfTrip(tripId))
  }

  /** `getById`: the first activity with id `id`, or the "Activity not found" error. */
  function GetById(store: seq<Activity>, id: Id): (r: Result<Activity>)
    ensures r.Err? <==> forall i :: 0 <= i < |store| ==> store[i].id != id
    ensures r.Err? ==> r.message == NotFound
    ensures r.Ok? ==> exists i :: (0 <= i < |store| && store[i] == r.value && r.value.id == id
      && forall j :: 0 <= j < i ==> store[j].id != id)
  {
    Get(store, ActivityId, id, NotFound)
  }

  /** `create`: stores the data under a fresh id and returns the stored record. */
  function Create(store: seq<Activity>, data: Activity, newId: Id): (r: Reply<seq<Activity>, Activity>)
    ensures r.value.id == newId && r.value.(id := data.id) == data
    ensures r.store == store + [r.value]
  {
    var a := data.(id := newId);
    Reply(store + [a], a)
  }

  /** `update`: merges `data` into the first activity with id `id` and returns the merged record. */
  function Update(store: seq<Activity>, id: Id, data: ActivityPatch): (r: Result<Reply<seq<Activity>, Activity>>)
    ensures r.Err? <==> forall i :: 0 <= i < |store| ==> store[i].id != id
    ensures r.Err? ==> r.message == NotFound
    ensures r.Ok? ==> |r.value.store| == |store|
    ensures r.Ok? ==> exists i :: (0 <= i < |store| && store[i].id == id && (forall j :: 0 <= j < i ==> store[j].id != id)
      && r.value.value == MergeActivity(store[i], data) && r.value.store == store[i := r.value.value])
  {
    Modify(store, ActivityId, id, ApplyPatch(data), NotFound)
  }

  /** `delete`: removes the first activity with id `id` and answers `true`. */
  function Delete(store: seq<Activity>, id: Id): (r: Result<Reply<seq<Activity>, bool>>)
    ensures r.Err? <==> forall i :: 0 <= i < |store| ==> store[i].id != id
    ensures r.Err? ==> r.message == NotFound
    ensures r.Ok? ==> r.value.value && |r.value.store| == |store| - 1
    ensures r.Ok? ==> exists i :: (0 <= i < |store| && store[i].id == id && (forall j :: 0 <= j < i ==> store[j].id != id)
      && r.value.store == RemoveAt(store, i))
  {
    Remove(store, ActivityId, id, NotFound)
  }

  /** `reorder`: drops the trip's activities and appends the given list in its place. */
  function Reorder(store: seq<Activity>, tripId: Id, reordered: seq<Activity>): (r: Reply<seq<Activity>, seq<Activity>>)
    ensures r.value == reordered
    ensures forall i :: 0 <= i < |r.store| ==> r.store[i].tripId != tripId || r.store[i] in reordered
    ensures |r.store| == |store| - |GetByTripId(store, tripId)| + |reordered|
    ensures r.store[|r.store| - |reordered|..] == reordered
    ensures r.store[..|r.store| - |reordered|] == Filter(store, ActivityNotOfTrip(tripId))
  {
    var kept := Filter(store, ActivityNotOfTrip(tripId));
    FilterMembers(store, ActivityNotOfTrip(tripId));
    FilterSplitsMultiset(store, ActivityOfTrip(tripId), ActivityNotOfTrip(tripId));
    Reply(kept + reordered, reordered)
  }

  /** A created activity with an unused id can be fetched back, and is listed last under its trip
      while every other trip's list is unchanged. */
  lemma CreateThenGet(store: seq<Activity>, data: Activity, newId: Id, tripId: Id)
    requires forall i :: 0 <= i < |store| ==> store[i].id != newId
    ensures var r := Create(store, data, newId);
      GetById(r.store, newId) == Ok(r.value)
    ensures var r := Create(store, data, newId);
      GetByTripId(r.store, tripId)
        == GetByTripId(store, tripId) + (if data.tripId == tripId then [r.value] else [])
  {
    var r := Create(store, data, newId);
    GetAfterAppend(store, ActivityId, r.value, NotFound);
    FilterAppend(store, [r.value], ActivityOfTrip(tripId));
  }

  /** An update that does not rename the record is what a later fetch returns; other ids are untouched. */
  lemma UpdateThenGet(store: seq<Activity>, id: Id, data: ActivityPatch, other: Id)
    requires data.id.None? || data.id == Some(id)
    requires Update(store, id, data).Ok? && other != id
    ensures GetById(Update(store, id, data).value.store, id) == Ok(Update(store, id, data).value.value)
    ensures GetById(Update(store, id, data).value.store, other) == GetById(store, other)
  {
    GetAfterModify(store, ActivityId, id, ApplyPatch(data), NotFound);
    ModifyKeepsOthers(store, ActivityId, id, ApplyPatch(data), NotFound, other);
  }

  /** An update carrying no key changes nothing but still answers with the record. */
  lemma UpdateEmptyPatch(store: seq<Activity>, id: Id)
    requires exists i :: 0 <= i < |store| && store[i].id == id
    ensures Update(store, id, EmptyActivityPatch).Ok?
    ensures Update(store, id, EmptyActivityPatch).value.store == store
  {
    var r := Update(store, id, EmptyActivityPatch).value;
    var i :| 0 <= i < |store| && store[i].id == id && r.value == MergeActivity(store[i], EmptyActivityPatch)
      && r.store == store[i := r.value];
    MergeActivityEmptyPatch(store[i]);
  }

  /** After a delete under distinct ids, the id is gone and every other id is fetched as before. */
  lemma DeleteThenGet(store: seq<Activity>, id: Id, other: Id)
    requires DistinctIds(store, ActivityId) && Delete(store, id).Ok? && other != id
    ensures GetById(Delete(store, id).value.store, id) == Err(NotFound)
    ensures GetById(Delete(store, id).value.store, other) == GetById(store, other)
  {
    RemoveDeletes(store, ActivityId, id, NotFound);
    RemoveKeepsOthers(store, ActivityId, id, NotFound, other);
  }

  /** Reordering a trip with activities of that trip only: the trip then lists exactly the given
      order, and every other trip's list is unchanged. */
  lemma ReorderLists(store: seq<Activity>, tripId: Id, reordered: seq<Activity>, other: Id)
    requires forall i :: 0 <= i < |reordered| ==> reordered[i].tripId == tripId
    requires other != tripId
    ensures GetByTripId(Reorder(store, tripId, reordered).store, tripId) == reordered
    ensures GetByTripId(Reorder(store, tripId, reordered).store, other) == GetByTripId(store, other)
  {
    var kept := Filter(store, ActivityNotOfTrip(tripId));
    FilterAppend(kept, reordered, ActivityOfTrip(tripId));
    FilterAppend(kept, reordered, ActivityOfTrip(other));
    FilterMembers(store, ActivityNotOfTrip(tripId));
    FilterKeepsNone(kept, ActivityOfTrip(tripId));
    FilterKeepsAll(reordered, ActivityOfTrip(tripId));
    FilterKeepsNone(reordered, ActivityOfTrip(other));
    FilterFilterImplied(store, ActivityNotOfTrip(tripId), ActivityOfTrip(other));
  }

  /** What a reorder keeps in front of the new list: exactly the stored activities of the other
      trips, and nothing of the reordered trip. */
  lemma ReorderKeepsOtherTrips(store: seq<Activity>, tripId: Id, reordered: seq<Activity>)
    ensures var r := Reorder(store, tripId, reordered).store;
      forall i :: 0 <= i < |r| - |reordered| ==> r[i].tripId != tripId && r[i] in store
    ensures var r := Reorder(store, tripId, reordered).store;
      forall j :: 0 <= j < |store| && store[j].tripId != tripId ==> store[j] in r[..|r| - |reordered|]
  {
    var r := Reorder(store, tripId, reordered).store;
    var kept := Filter(store, ActivityNotOfTrip(tripId));
    FilterMembers(store, ActivityNotOfTrip(tripId));
    assert r[..|r| - |reordered|] == kept;
  }

  /** Reordering a trip with a permutation of its own activities keeps the same records overall. */
  lemma ReorderPermutes(store: seq<Activity>, tripId: Id, reordered: seq<Activity>)
    requires multiset(reordered) == multiset(GetByTripId(store, tripId))
    ensures multiset(Reorder(store, tripId, reordered).store) == multiset(store)
  {
    FilterSplitsMultiset(store, ActivityOfTrip(tripId), ActivityNotOfTrip(tripId));
  }
}
