/** The Packing page of one trip: the trip's items grouped into category cards, the totals,
    and the local list kept in step with the packing service when an item is toggled, deleted
    or added. Loading, toasts and rendering are left out. */
module PackingPage {
  import opened Common
  import opened Seqs
  import opened Grouping
  import opened Entities
  import opened Store
  import PackingService
  import PackingItemModal
  import Overview

  /** The page state the handlers change. */
  datatype PackingPage = PackingPage(items: seq<PackingItem>, modalOpen: bool, selectedCategory: string)

  /** `groupItemsByCategory`: one card per category, in the order the categories first occur,
      each holding that category's items in list order. */
  function GroupItemsByCategory(items: seq<PackingItem>): (r: seq<Group<string, PackingItem>>)
    ensures Partitions(r, items, ItemCategory)
    ensures TotalSize(r) == |items|
  {
    GroupByPartitions(items, ItemCategory);
    GroupBySize(items, ItemCategory);
    GroupBy(items, ItemCategory)
  }

  /** A category's card holds exactly the items of that category, in list order, and a
      category has a card exactly when some item carries it. */
  lemma CardOfCategory(items: seq<PackingItem>, category: string)
    ensures GroupOf(GroupItemsByCategory(items), category) == Filter(items, KeyIs(ItemCategory, category))
    ensures GroupIndex(GroupItemsByCategory(items), category).Some?
      <==> exists i :: 0 <= i < |items| && items[i].category == category
  {
    var gs := GroupItemsByCategory(items);
    GroupOfIsFilter(items, ItemCategory, category);
    FilterKeepsNone(items, KeyIs(ItemCategory, category));
    assert GroupIndex(gs, category).Some? <==> GroupOf(gs, category) != [];
    forall i | 0 <= i < |items| ensures KeyIs(ItemCategory, category)(items[i]) <==> items[i].category == category {
      assert ItemCategory(items[i]) == items[i].category;
    }
  }

  /** The cards add up to the page's totals: their item counts sum to the item count and their
      packed counts to the packed count. */
  lemma CardsAddUpToStats(items: seq<PackingItem>)
    ensures TotalSize(GroupItemsByCategory(items)) == Overview.GetPackingStats(items).totalItems
    ensures CountWhere(GroupItemsByCategory(items), IsPacked) == Overview.GetPackingStats(items).packedItems
  {
    GroupByCount(items, ItemCategory, IsPacked);
  }

  /** `handleToggleItem`: the service flips the item; the listed item with the returned id is
      replaced by the returned one. When the service fails the page is unchanged. */
  function HandleToggleItem(page: PackingPage, store: seq<PackingItem>, id: Id): (r: Reply<seq<PackingItem>, PackingPage>)
    ensures PackingService.TogglePacked(store, id).Err? ==> r == Reply(store, page)
    ensures PackingService.TogglePacked(store, id).Ok? ==>
      var t := PackingService.TogglePacked(store, id).value;
      (r.store == t.store && r.value == page.(items := r.value.items)
      && |r.value.items| == |page.items|
      && forall i :: 0 <= i < |page.items| ==>
        r.value.items[i] == if page.items[i].id == t.value.id then t.value else page.items[i])
  {
    match PackingService.TogglePacked(store, id)
    case Err(_) => Reply(store, page)
    case Ok(t) => Reply(t.store, page.(items := ReplaceWhere(page.items, HasId(ItemId, t.value.id), t.value)))
  }

  /** `handleDeleteItem`: nothing happens unless the user confirms; a failed delete leaves the
      list; otherwise every listed item with that id is dropped. */
  function HandleDeleteItem(page: PackingPage, store: seq<PackingItem>, id: Id, confirmed: bool)
    : (r: Reply<seq<PackingItem>, PackingPage>)
    ensures !confirmed || PackingService.Delete(store, id).Err? ==> r == Reply(store, page)
    ensures confirmed && PackingService.Delete(store, id).Ok? ==>
      (r.store == PackingService.Delete(store, id).value.store
      && r.value == page.(items := r.value.items)
      && r.value.items == WithoutId(page.items, ItemId, id))
  {
    if !confirmed then Reply(store, page)
    else match PackingService.Delete(store, id)
      case Err(_) => Reply(store, page)
      case Ok(d) =>
        Reply(d.store, page.(items := WithoutId(page.items, ItemId, id)))
  }

  /** `handleItemSaved`: the saved item is appended and the preselected category cleared. */
  function HandleItemSaved(page: PackingPage, saved: PackingItem): (r: PackingPage)
    ensures |r.items| == |page.items| + 1 && r.items[..|page.items|] == page.items && r.items[|page.items|] == saved
    ensures r.selectedCategory == "" && r.modalOpen == page.modalOpen
  {
    page.(items := page.items + [saved], selectedCategory := "")
  }

  /** `handleAddItem`: the form opens for the card's category. */
  function HandleAddItem(page: PackingPage, category: string): (r: PackingPage)
    ensures r.modalOpen && r.selectedCategory == category && r.items == page.items
  {
    page.(selectedCategory := category, modalOpen := true)
  }

  /** Adding from a card opens a form with an empty name, a quantity of 1 and that card's
      category; the header button opens it on "other". */
  lemma AddFromCardPrefillsCategory(page: PackingPage, category: string)
    ensures var f := PackingItemModal.OpenForm(HandleAddItem(page, category).selectedCategory);
      f.name == "" && f.quantity == "1" && f.category == (if category == "" then "other" else category)
  {
  }

  /** A saved item joins the end of its own category's card; every other card is unchanged. */
  lemma SavedItemJoinsItsCard(page: PackingPage, saved: PackingItem, category: string)
    ensures var before := GroupItemsByCategory(page.items);
      var after := GroupItemsByCategory(HandleItemSaved(page, saved).items);
      GroupOf(after, category)
        == GroupOf(before, category) + (if saved.category == category then [saved] else [])
  {
    var items := HandleItemSaved(page, saved).items;
    assert items == page.items + [saved];
    GroupOfIsFilter(items, ItemCategory, category);
    GroupOfIsFilter(page.items, ItemCategory, category);
    FilterSnoc(page.items, saved, ItemCategory, category);
  }

  /** After a toggle, the page's list is what the service would now return for the trip. */
  lemma ToggleKeepsInSync(store: seq<PackingItem>, tripId: Id, id: Id, page: PackingPage)
    requires DistinctIds(store, ItemId) && PackingService.TogglePacked(store, id).Ok?
    requires page.items == PackingService.GetByTripId(store, tripId)
    ensures var r := HandleToggleItem(page, store, id);
      r.value.items == PackingService.GetByTripId(r.store, tripId)
  {
    var t := PackingService.TogglePacked(store, id).value;
    var i :| 0 <= i < |store| && store[i].id == id
      && t.value.packed == !store[i].packed && t.value.(packed := store[i].packed) == store[i]
      && t.store == store[i := t.value];
    DistinctOnlyAt(store, ItemId, i);
    assert t.value.id == id && t.value.tripId == store[i].tripId;
    assert ItemId(t.value) == id;
    assert HasId(ItemId, id)(t.value) && HasId(ItemId, id)(store[i]);
    assert ItemOfTrip(tripId)(t.value) == ItemOfTrip(tripId)(store[i]);
    FilterOfUpdate(store, i, t.value, ItemOfTrip(tripId), HasId(ItemId, id));
  }

  /** After a confirmed delete, the page's list is what the service would now return for the trip. */
  lemma DeleteKeepsInSync(store: seq<PackingItem>, tripId: Id, id: Id, page: PackingPage)
    requires DistinctIds(store, ItemId) && PackingService.Delete(store, id).Ok?
    requires page.items == PackingService.GetByTripId(store, tripId)
    ensures var r := HandleDeleteItem(page, store, id, true);
      r.value.items == PackingService.GetByTripId(r.store, tripId)
  {
    var d := PackingService.Delete(store, id).value;
    var i :| 0 <= i < |store| && store[i].id == id && d.store == RemoveAt(store, i);
    DistinctOnlyAt(store, ItemId, i);
    FilterOfRemove(store, i, ItemOfTrip(tripId), HasId(ItemId, id), LacksId(ItemId, id));
  }

  /** After a new item of this trip is created, the page's list is what the service would now
      return for the trip. */
  lemma CreateKeepsInSync(store: seq<PackingItem>, tripId: Id, data: PackingItem, newId: Id, page: PackingPage)
    requires data.tripId == tripId
    requires forall i :: 0 <= i < |store| ==> store[i].id != newId
    requires page.items == PackingService.GetByTripId(store, tripId)
    ensures var r := PackingService.Create(store, data, newId);
      HandleItemSaved(page, r.value).items == PackingService.GetByTripId(r.store, tripId)
  {
    PackingService.CreateThenGet(store, data, newId, tripId);
  }
}
