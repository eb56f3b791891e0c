/** The packing service: an in-memory list of packing items, with the same call shapes as the
    activity service plus `togglePacked`. The delay before each call and the clock that mints
    ids are left out; the new id is a parameter. */
module PackingService {
  import opened Common
  import opened Seqs
  import opened Store
  import opened Entities

  const NotFound := "Packing item not found"

  /** The merge `{ ...item, ...data }` as a change applied to one record. */
  function ApplyPatch(p: PackingPatch): PackingItem -> PackingItem
  {
    (x: PackingItem) => MergeItem(x, p)
  }

  /** `item.packed = !item.packed` */
  function Flip(x: PackingItem): (r: PackingItem)
    ensures r.packed != x.packed && r.(packed := x.packed) == x
  {
    x.(packed := !x.packed)
  }

  /** `getAll`: every stored item, in storage order. */
  function GetAll(store: seq<PackingItem>): (r: seq<PackingItem>)
    ensures |r| == |store| && forall i :: 0 <= i < |r| ==> r[i] == store[i]
  {
    store
  }

  /** `getByTripId`: the items of one trip, in storage order. */
  function GetByTripId(store: seq<PackingItem>, tripId: Id): (r: seq<PackingItem>)
    ensures |r| <= |store|
    ensures forall i :: 0 <= i < |r| ==> r[i].tripId == tripId && r[i] in store
    ensures forall i :: 0 <= i < |store| && store[i].tripId == tripId ==> store[i] in r
  {
    FilterMembers(store, ItemOfTrip(tripId));
    Filter(store, ItemOfTrip(tripId))
  }

  /** `getById`: the first item with id `id`, or the "Packing item not found" error. */
  function GetById(store: seq<PackingItem>, id: Id): (r: Result<PackingItem>)
    ensures r.Err? <==> forall i :: 0 <= i < |store| ==> store[i].id != id
    ensures r.Err? ==> r.message == NotFound
    ensures r.Ok? ==> exists i :: (0 <= i < |store| && store[i] == r.value && r.value.id == id
      && forall j :: 0 <= j < i ==> store[j].id != id)
  {
    Get(store, ItemId, id, NotFound)
  }

  /** `create`: stores the data under a fresh id, always unpacked, and returns the stored record. */
  function Create(store: seq<PackingItem>, data: PackingItem, newId: Id): (r: Reply<seq<PackingItem>, PackingItem>)
    ensures r.value.id == newId && !r.value.packed
    ensures r.value.(id := data.id, packed := data.packed) == data
    ensures r.store == store + [r.value]
  {
    var x := data.(id := newId, packed := false);
    Reply(store + [x], x)
  }

  /** `update`: merges `data` into the first item with id `id` and returns the merged record. */
  function Update(store: seq<PackingItem>, id: Id, data: PackingPatch): (r: Result<Reply<seq<PackingItem>, PackingItem>>)
    ensures r.Err? <==> forall i :: 0 <= i < |store| ==> store[i].id != id
    ensures r.Err? ==> r.message == NotFound
    ensures r.Ok? ==> |r.value.store| == |store|
    ensures r.Ok? ==> exists i :: (0 <= i < |store| && store[i].id == id && (forall j :: 0 <= j < i ==> store[j].id != id)
      && r.value.value == MergeItem(store[i], data) && r.value.store == store[i := r.value.value])
  {
    Modify(store, ItemId, id, ApplyPatch(data), NotFound)
  }

  /** `delete`: removes the first item with id `id` and answers `true`. */
  function Delete(store: seq<PackingItem>, id: Id): (r: Result<Reply<seq<PackingItem>, bool>>)
    ensures r.Err? <==> forall i :: 0 <= i < |store| ==> store[i].id != id
    ensures r.Err? ==> r.message == NotFound
    ensures r.Ok? ==> r.value.value && |r.value.store| == |store| - 1
    ensures r.Ok? ==> exists i :: (0 <= i < |store| && store[i].id == id && (forall j :: 0 <= j < i ==> store[j].id != id)
      && r.value.store == RemoveAt(store, i))
  {
    Remove(store, ItemId, id, NotFound)
  }

  /** `togglePacked`: flips the packed flag of the first item with id `id` in place. */
  function TogglePacked(store: seq<PackingItem>, id: Id): (r: Result<Reply<seq<PackingItem>, PackingItem>>)
    ensures r.Err? <==> forall i :: 0 <= i < |store| ==> store[i].id != id
    ensures r.Err? ==> r.message == NotFound
    ensures r.Ok? ==> exists i :: (0 <= i < |store| && store[i].id == id && (forall j :: 0 <= j < i ==> store[j].id != id)
      && r.value.value.packed == !store[i].packed && r.value.value.(packed := store[i].packed) == store[i]
      && r.value.store == store[i := r.value.value])
  {
    Modify(store, ItemId, id, Flip, NotFound)
  }

  /** A created item with an unused id can be fetched back, and is listed last under its trip
      while every other trip's list is unchanged. */
  lemma CreateThenGet(store: seq<PackingItem>, data: PackingItem, newId: Id, tripId: Id)
    requires forall i :: 0 <= i < |store| ==> store[i].id != newId
    ensures var r := Create(store, data, newId);
      GetById(r.store, newId) == Ok(r.value)
    ensures var r := Create(store, data, newId);
      GetByTripId(r.store, tripId)
        == GetByTripId(store, tripId) + (if data.tripId == tripId then [r.value] else [])
  {
    var r := Create(store, data, newId);
    GetAfterAppend(store, ItemId, r.value, NotFound);
    FilterAppend(store, [r.value], ItemOfTrip(tripId));
  }

  /** An update that does not rename the record is what a later fetch returns; other ids are untouched. */
  lemma UpdateThenGet(store: seq<PackingItem>, id: Id, data: PackingPatch, other: Id)
    requires data.id.None? || data.id == Some(id)
    requires Update(store, id, data).Ok? && other != id
    ensures GetById(Update(store, id, data).value.store, id) == Ok(Update(store, id, data).value.value)
    ensures GetById(Update(store, id, data).value.store, other) == GetById(store, other)
  {
    GetAfterModify(store, ItemId, id, ApplyPatch(data), NotFound);
    ModifyKeepsOthers(store, ItemId, id, ApplyPatch(data), NotFound, other);
  }

  /** After a delete under distinct ids, the id is gone and every other id is fetched as before. */
  lemma DeleteThenGet(store: seq<PackingItem>, id: Id, other: Id)
    requires DistinctIds(store, ItemId) && Delete(store, id).Ok? && other != id
    ensures GetById(Delete(store, id).value.store, id) == Err(NotFound)
    ensures GetById(Delete(store, id).value.store, other) == GetById(store, other)
  {
    RemoveDeletes(store, ItemId, id, NotFound);
    RemoveKeepsOthers(store, ItemId, id, NotFound, other);
  }

  /** Toggling is what a later fetch sees, and toggling the same item twice restores the store. */
  lemma ToggleTwiceRestores(store: seq<PackingItem>, id: Id)
    requires TogglePacked(store, id).Ok?
    ensures GetById(TogglePacked(store, id).value.store, id) == Ok(TogglePacked(store, id).value.value)
    ensures TogglePacked(TogglePacked(store, id).value.store, id).Ok?
    ensures TogglePacked(TogglePacked(store, id).value.store, id).value.store == store
  {
    GetAfterModify(store, ItemId, id, Flip, NotFound);
    ModifyTwiceRestores(store, ItemId, id, Flip, NotFound);
  }
}
