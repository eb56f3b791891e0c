/** The trip service: an in-memory list of trips. Deleting a trip leaves its activities and
    packing items where they are; those live in their own services. The delay before each call
    and the clock that mints ids and creation times are left out; both are parameters. */
module TripService {
  import opened Common
  import opened Seqs
  import opened Store
  import opened Entities

  const NotFound := "Trip not found"

  /** The merge `{ ...trip, ...data }` as a change applied to one record. */
  function ApplyPatch(p: TripPatch): Trip -> Trip
  {
    (t: Trip) => MergeTrip(t, p)
  }

  /** `getAll`: every stored trip, in storage order. */
  function GetAll(store: seq<Trip>): (r: seq<Trip>)
    ensures |r| == |store| && forall i :: 0 <= i < |r| ==> r[i] == store[i]
  {
    store
  }

  /** `getById`: the first trip with id `id`, or the "Trip not found" error. */
  function GetById(store: seq<Trip>, id: Id): (r: Result<Trip>)
    ensures r.Err? <==> forall i :: 0 <= i < |store| ==> store[i].id != id
    ensures r.Err? ==> r.message == NotFound
    ensures r.Ok? ==> exists i :: (0 <= i < |store| && store[i] == r.value && r.value.id == id
      && forall j :: 0 <= j < i ==> store[j].id != id)
  {
    Get(store, TripId, id, NotFound)
  }

  /** `create`: stores the data under a fresh id and creation time and returns the stored record. */
  function Create(store: seq<Trip>, data: Trip, newId: Id, now: int): (r: Reply<seq<Trip>, Trip>)
    ensures r.value.id == newId && r.value.createdAt == now
    ensures r.value.(id := data.id, createdAt := data.createdAt) == data
    ensures r.store == store + [r.value]
  {
    var t := data.(id := newId, createdAt := now);
    Reply(store + [t], t)
  }

  /** `update`: merges `data` into the first trip with id `id` and returns the merged record. */
  function Update(store: seq<Trip>, id: Id, data: TripPatch): (r: Result<Reply<seq<Trip>, Trip>>)
    ensures r.Err? <==> forall i :: 0 <= i < |store| ==> store[i].id != id
    ensures r.Err? ==> r.message == NotFound
    ensures r.Ok? ==> |r.value.store| == |store|
    ensures r.Ok? ==> exists i :: (0 <= i < |store| && store[i].id == id && (forall j :: 0 <= j < i ==> store[j].id != id)
      && r.value.value == MergeTrip(store[i], data) && r.value.store == store[i := r.value.value])
  {
    Modify(store, TripId, id, ApplyPatch(data), NotFound)
  }

  /** `delete`: removes the first trip with id `id` and answers `true`. */
  function Delete(store: seq<Trip>, id: Id): (r: Result<Reply<seq<Trip>, bool>>)
    ensures r.Err? <==> forall i :: 0 <= i < |store| ==> store[i].id != id
    ensures r.Err? ==> r.message == NotFound
    ensures r.Ok? ==> r.value.value && |r.value.store| == |store| - 1
    ensures r.Ok? ==> exists i :: (0 <= i < |store| && store[i].id == id && (forall j :: 0 <= j < i ==> store[j].id != id)
      && r.value.store == RemoveAt(store, i))
  {
    Remove(store, TripId, id, NotFound)
  }

  /** A created trip with an unused id can be fetched back, and is listed last. */
  lemma CreateThenGet(store: seq<Trip>, data: Trip, newId: Id, now: int)
    requires forall i :: 0 <= i < |store| ==> store[i].id != newId
    ensures var r := Create(store, data, newId, now);
      GetById(r.store, newId) == Ok(r.value) && GetAll(r.store)[|store|] == r.value
  {
    var r := Create(store, data, newId, now);
    GetAfterAppend(store, TripId, r.value, NotFound);
  }

  /** An update that does not rename the trip is what a later fetch returns; other ids are untouched. */
  lemma UpdateThenGet(store: seq<Trip>, id: Id, data: TripPatch, other: Id)
    requires data.id.None? || data.id == Some(id)
    requires Update(store, id, data).Ok? && other != id
    ensures GetById(Update(store, id, data).value.store, id) == Ok(Update(store, id, data).value.value)
    ensures GetById(Update(store, id, data).value.store, other) == GetById(store, other)
  {
    GetAfterModify(store, TripId, id, ApplyPatch(data), NotFound);
    ModifyKeepsOthers(store, TripId, id, ApplyPatch(data), NotFound, other);
  }

  /** After a delete under distinct ids, the id is gone and every other id is fetched as before. */
  lemma DeleteThenGet(store: seq<Trip>, id: Id, other: Id)
    requires DistinctIds(store, TripId) && Delete(store, id).Ok? && other != id
    ensures GetById(Delete(store, id).value.store, id) == Err(NotFound)
    ensures GetById(Delete(store, id).value.store, other) == GetById(store, other)
  {
    RemoveDeletes(store, TripId, id, NotFound);
    RemoveKeepsOthers(store, TripId, id, NotFound, other);
  }
}
