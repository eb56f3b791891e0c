/** The in-memory record store behind each entity service: an array of records looked up by
    `findIndex(r => r.id === id)`. The three services differ only in the record type and the
    not-found message, so the lookup, in-place change and removal are stated once here. */
module Store {
  import opened Common
  import opened Seqs

  /** `r => r.id === id` */
  function HasId<T>(idOf: T -> Id, id: Id): T -> bool
  {
    x => idOf(x) == id
  }

  /** `r => r.id !== id` */
  function LacksId<T>(idOf: T -> Id, id: Id): T -> bool
  {
    x => idOf(x) != id
  }

  /** `list.filter(r => r.id !== id)`: the listed records other than those with id `id`, in
      list order. */
  function WithoutId<T>(s: seq<T>, idOf: T -> Id, id: Id): (r: seq<T>)
    ensures forall i :: 0 <= i < |r| ==> idOf(r[i]) != id && r[i] in s
    ensures forall i :: 0 <= i < |s| && idOf(s[i]) != id ==> s[i] in r
  {
    FilterMembers(s, LacksId(idOf, id));
    assert forall i :: 0 <= i < |s| && idOf(s[i]) != id ==> LacksId(idOf, id)(s[i]);
    Filter(s, LacksId(idOf, id))
  }

  /** No two records share an id (what minting ids from the clock is meant to guarantee). */
  ghost predicate DistinctIds<T>(store: seq<T>, idOf: T -> Id)
  {
    forall i, j | 0 <= i < j < |store| :: idOf(store[i]) != idOf(store[j])
  }

  /** No record has id `id`. */
  ghost predicate Absent<T>(store: seq<T>, idOf: T -> Id, id: Id)
  {
    forall i | 0 <= i < |store| :: idOf(store[i]) != id
  }

  /** `i` is the first index holding a record with id `id`. */
  ghost predicate FirstWithId<T>(store: seq<T>, idOf: T -> Id, id: Id, i: int)
  {
    0 <= i < |store| && idOf(store[i]) == id && forall j | 0 <= j < i :: idOf(store[j]) != id
  }

  /** `store.find(r => r.id === id)`, throwing `notFound` when there is none. */
  function Get<T>(store: seq<T>, idOf: T -> Id, id: Id, notFound: string): (r: Result<T>)
    ensures r.Err? <==> Absent(store, idOf, id)
    ensures r.Err? ==> r.message == notFound
    ensures r.Ok? ==> exists i :: FirstWithId(store, idOf, id, i) && r.value == store[i]
  {
    match IndexWhere(store, HasId(idOf, id))
    case None => Err(notFound)
    case Some(i) => Ok(store[i])
  }

  /** `store[i] = change(store[i])` at the first index with id `id`, returning the new record;
      throwing `notFound` when there is none. */
  function Modify<T>(store: seq<T>, idOf: T -> Id, id: Id, change: T -> T, notFound: string)
    : (r: Result<Reply<seq<T>, T>>)
    ensures r.Err? <==> Absent(store, idOf, id)
    ensures r.Err? ==> r.message == notFound
    ensures r.Ok? ==> exists i :: (FirstWithId(store, idOf, id, i)
      && r.value.store == store[i := change(store[i])] && r.value.value == change(store[i]))
  {
    match IndexWhere(store, HasId(idOf, id))
    case None => Err(notFound)
    case Some(i) => Ok(Reply(store[i := change(store[i])], change(store[i])))
  }

  /** `store.splice(i, 1)` at the first index with id `id`, returning `true`; throwing
      `notFound` when there is none. */
  function Remove<T>(store: seq<T>, idOf: T -> Id, id: Id, notFound: string)
    : (r: Result<Reply<seq<T>, bool>>)
    ensures r.Err? <==> Absent(store, idOf, id)
    ensures r.Err? ==> r.message == notFound
    ensures r.Ok? ==> r.value.value && |r.value.store| == |store| - 1
    ensures r.Ok? ==> exists i :: FirstWithId(store, idOf, id, i) && r.value.store == RemoveAt(store, i)
  {
    match IndexWhere(store, HasId(idOf, id))
    case None => Err(notFound)
    case Some(i) => Ok(Reply(RemoveAt(store, i), true))
  }

  /** The first index holding id `id` is the one the lookup finds. */
  lemma FirstIsFound<T>(store: seq<T>, idOf: T -> Id, id: Id, i: int)
    requires FirstWithId(store, idOf, id, i)
    ensures IndexWhere(store, HasId(idOf, id)) == Some(i)
  {
    assert HasId(idOf, id)(store[i]);
  }

  /** With distinct ids, the record at `i` is the only one with its id. */
  lemma DistinctOnlyAt<T>(store: seq<T>, idOf: T -> Id, i: nat)
    requires DistinctIds(store, idOf) && i < |store|
    ensures OnlyAt(store, HasId(idOf, idOf(store[i])), i)
  {
  }

  /** A record appended under an unused id is what a lookup of that id finds. */
  lemma GetAfterAppend<T>(store: seq<T>, idOf: T -> Id, x: T, notFound: string)
    requires Absent(store, idOf, idOf(x))
    ensures Get(store + [x], idOf, idOf(x), notFound) == Ok(x)
    ensures DistinctIds(store, idOf) ==> DistinctIds(store + [x], idOf)
  {
    FirstIsFound(store + [x], idOf, idOf(x), |store|);
  }

  /** A change that keeps the id is what a later lookup of that id finds. */
  lemma GetAfterModify<T>(store: seq<T>, idOf: T -> Id, id: Id, change: T -> T, notFound: string)
    requires forall x :: idOf(x) == id ==> idOf(change(x)) == id
    requires Modify(store, idOf, id, change, notFound).Ok?
    ensures var r := Modify(store, idOf, id, change, notFound).value;
      Get(r.store, idOf, id, notFound) == Ok(r.value)
  {
    var r := Modify(store, idOf, id, change, notFound).value;
    var i :| FirstWithId(store, idOf, id, i) && r.store == store[i := change(store[i])]
      && r.value == change(store[i]);
    assert FirstWithId(r.store, idOf, id, i);
    FirstIsFound(r.store, idOf, id, i);
  }

  /** A change that keeps the id keeps the ids distinct. */
  lemma ModifyKeepsDistinct<T>(store: seq<T>, idOf: T -> Id, id: Id, change: T -> T, notFound: string)
    requires forall x :: idOf(x) == id ==> idOf(change(x)) == id
    requires Modify(store, idOf, id, change, notFound).Ok? && DistinctIds(store, idOf)
    ensures DistinctIds(Modify(store, idOf, id, change, notFound).value.store, idOf)
  {
    var r := Modify(store, idOf, id, change, notFound).value;
    var i :| FirstWithId(store, idOf, id, i) && r.store == store[i := change(store[i])];
    assert forall j | 0 <= j < |store| :: idOf(r.store[j]) == idOf(store[j]);
  }

  /** A change at one id leaves every other id's lookup as it was. */
  lemma ModifyKeepsOthers<T>(store: seq<T>, idOf: T -> Id, id: Id, change: T -> T, notFound: string, other: Id)
    requires forall x :: idOf(x) == id ==> idOf(change(x)) == id
    requires Modify(store, idOf, id, change, notFound).Ok? && other != id
    ensures Get(Modify(store, idOf, id, change, notFound).value.store, idOf, other, notFound)
      == Get(store, idOf, other, notFound)
  {
    var r := Modify(store, idOf, id, change, notFound).value;
    var i :| FirstWithId(store, idOf, id, i) && r.store == store[i := change(store[i])];
    match IndexWhere(store, HasId(idOf, other))
    case None =>
      assert Absent(r.store, idOf, other) by {
        forall j | 0 <= j < |r.store| ensures idOf(r.store[j]) != other {
          if j != i { assert !HasId(idOf, other)(store[j]); }
        }
      }
    case Some(k) =>
      assert FirstWithId(store, idOf, other, k);
      assert k != i;
      assert FirstWithId(r.store, idOf, other, k) by {
        forall j | 0 <= j < k ensures idOf(r.store[j]) != other {
          if j == i { assert idOf(r.store[j]) == id; }
        }
      }
      FirstIsFound(r.store, idOf, other, k);
  }

  /** Applying an involution twice at the same id restores the store. */
  lemma ModifyTwiceRestores<T>(store: seq<T>, idOf: T -> Id, id: Id, change: T -> T, notFound: string)
    requires forall x :: idOf(change(x)) == idOf(x) && change(change(x)) == x
    requires !Absent(store, idOf, id)
    ensures var once := Modify(store, idOf, id, change, notFound).value.store;
      Modify(once, idOf, id, change, notFound).Ok?
      && Modify(once, idOf, id, change, notFound).value.store == store
  {
    var once := Modify(store, idOf, id, change, notFound).value.store;
    var i :| FirstWithId(store, idOf, id, i) && once == store[i := change(store[i])];
    assert FirstWithId(once, idOf, id, i);
    FirstIsFound(once, idOf, id, i);
  }

  /** With distinct ids, a removed id is gone and the remaining ids stay distinct. */
  lemma RemoveDeletes<T>(store: seq<T>, idOf: T -> Id, id: Id, notFound: string)
    requires DistinctIds(store, idOf) && Remove(store, idOf, id, notFound).Ok?
    ensures var r := Remove(store, idOf, id, notFound).value.store;
      Get(r, idOf, id, notFound) == Err(notFound) && DistinctIds(r, idOf)
  {
    var r := Remove(store, idOf, id, notFound).value.store;
    var i :| FirstWithId(store, idOf, id, i) && r == RemoveAt(store, i);
    assert Absent(r, idOf, id) by {
      forall j | 0 <= j < |r| ensures idOf(r[j]) != id {
        if j >= i { assert idOf(store[j + 1]) != idOf(store[i]); }
      }
    }
  }

  /** A record absent before a removal is absent after it. */
  lemma AbsentAfterRemove<T>(store: seq<T>, idOf: T -> Id, i: nat, other: Id)
    requires i < |store| && Absent(store, idOf, other)
    ensures Absent(RemoveAt(store, i), idOf, other)
  {
    var r := RemoveAt(store, i);
    forall j | 0 <= j < |r| ensures idOf(r[j]) != other {
      if j >= i { assert r[j] == store[j + 1]; }
    }
  }

  /** Removing a record at another index moves the first record with `other` down by one
      when it comes after the removed one, and leaves it in place otherwise. */
  lemma FirstAfterRemove<T>(store: seq<T>, idOf: T -> Id, i: nat, other: Id, k: nat)
    requires i < |store| && FirstWithId(store, idOf, other, k) && k != i
    ensures FirstWithId(RemoveAt(store, i), idOf, other, if k < i then k else k - 1)
  {
    var r := RemoveAt(store, i);
    var k' := if k < i then k else k - 1;
    assert r[k'] == store[k];
    forall j | 0 <= j < k' ensures idOf(r[j]) != other {
      if j >= i { assert r[j] == store[j + 1]; }
    }
  }

  /** Removing a record whose id is not `other` leaves the lookup of `other` as it was. */
  lemma GetAfterRemoveAt<T>(store: seq<T>, idOf: T -> Id, i: nat, other: Id, notFound: string)
    requires i < |store| && idOf(store[i]) != other
    ensures Get(RemoveAt(store, i), idOf, other, notFound) == Get(store, idOf, other, notFound)
  {
    var r := RemoveAt(store, i);
    if Absent(store, idOf, other) {
      AbsentAfterRemove(store, idOf, i, other);
    } else {
      var w :| 0 <= w < |store| && idOf(store[w]) == other;
      assert HasId(idOf, other)(store[w]);
      var k := IndexWhere(store, HasId(idOf, other)).value;
      assert FirstWithId(store, idOf, other, k) by {
        forall j | 0 <= j < k ensures idOf(store[j]) != other {
          assert !HasId(idOf, other)(store[j]);
        }
      }
      FirstAfterRemove(store, idOf, i, other, k);
      FirstIsFound(r, idOf, other, if k < i then k else k - 1);
    }
  }

  /** Removing one id leaves every other id's lookup as it was. */
  lemma RemoveKeepsOthers<T>(store: seq<T>, idOf: T -> Id, id: Id, notFound: string, other: Id)
    requires Remove(store, idOf, id, notFound).Ok? && other != id
    ensures Get(Remove(store, idOf, id, notFound).value.store, idOf, other, notFound)
      == Get(store, idOf, other, notFound)
  {
    var i :| FirstWithId(store, idOf, id, i) && Remove(store, idOf, id, notFound).value.store == RemoveAt(store, i);
    GetAfterRemoveAt(store, idOf, i, other, notFound);
  }
}
