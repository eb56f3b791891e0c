/** Grouping a list into an insertion-ordered object of arrays keyed by a field: the
    `grouped[key] = grouped[key] || []; grouped[key].push(x)` loop. A JavaScript object
    enumerates keys that are not array indices in insertion order, so for such keys the object
    is a sequence of groups. */
module Grouping {
  import opened Common
  import opened Seqs

  /** One key of the grouped object with its array. */
  datatype Group<K, T> = Group(key: K, items: seq<T>)

  /** The position of the group keyed `k`, if there is one. */
  function GroupIndex<K(==), T>(gs: seq<Group<K, T>>, k: K): (r: Option<nat>)
    ensures r.Some? ==> r.value < |gs| && gs[r.value].key == k
    ensures r.None? ==> forall i :: 0 <= i < |gs| ==> gs[i].key != k
  {
    if |gs| == 0 then None
    else match GroupIndex(gs[..|gs| - 1], k)
      case Some(i) => Some(i)
      case None => if gs[|gs| - 1].key == k then Some(|gs| - 1) else None
  }

  /** `grouped[k]` created empty when missing, then `x` pushed onto it. */
  function AddItem<K(==), T>(gs: seq<Group<K, T>>, k: K, x: T): (r: seq<Group<K, T>>)
    ensures |gs| <= |r| <= |gs| + 1
    ensures forall j :: 0 <= j < |gs| ==> r[j].key == gs[j].key
    ensures |r| == |gs| + 1 ==> r[|gs|] == Group(k, [x]) && GroupIndex(gs, k).None?
    ensures GroupIndex(r, k).Some?
  {
    match GroupIndex(gs, k)
    case Some(i) => gs[i := Group(k, gs[i].items + [x])]
    case None => gs + [Group(k, [x])]
  }

  /** The grouped object after visiting every element of `s` in order. */
  function GroupBy<K(==), T>(s: seq<T>, key: T -> K): seq<Group<K, T>>
  {
    if |s| == 0 then []
    else
      var n := |s| - 1;
      AddItem(GroupBy(s[..n], key), key(s[n]), s[n])
  }

  /** The predicate "has key `k`". */
  function KeyIs<K(==), T>(key: T -> K, k: K): T -> bool
  {
    x => key(x) == k
  }

  /** The array under key `k`, or the empty array when the key is absent. */
  function GroupOf<K(==), T>(gs: seq<Group<K, T>>, k: K): seq<T>
  {
    match GroupIndex(gs, k)
    case Some(i) => gs[i].items
    case None => []
  }

  /** Sum of the array lengths. */
  function TotalSize<K, T>(gs: seq<Group<K, T>>): nat
  {
    if |gs| == 0 then 0 else TotalSize(gs[..|gs| - 1]) + |gs[|gs| - 1].items|
  }

  /** `gs` partitions `s` by `key`: distinct keys, no empty group, each group holds exactly the
      elements with its key in their original order, and every element's key has a group. */
  ghost predicate Partitions<K, T>(gs: seq<Group<K, T>>, s: seq<T>, key: T -> K)
  {
    && (forall i, j | 0 <= i < j < |gs| :: gs[i].key != gs[j].key)
    && (forall i | 0 <= i < |gs| :: |gs[i].items| > 0)
    && (forall i | 0 <= i < |gs| :: gs[i].items == Filter(s, KeyIs(key, gs[i].key)))
    && (forall i | 0 <= i < |s| :: GroupIndex(gs, key(s[i])).Some?)
  }

  /** Appending `x` to `s` leaves the filter of every key other than `x`'s unchanged and
      appends `x` to the filter of its own key. */
  lemma {:induction false} FilterSnoc<K, T>(s: seq<T>, x: T, key: T -> K, k: K)
    ensures Filter(s + [x], KeyIs(key, k)) == Filter(s, KeyIs(key, k)) + (if key(x) == k then [x] else [])
  {
    FilterAppend(s, [x], KeyIs(key, k));
    assert [x][1..] == [];
  }

  /** After one more visit every group still holds exactly the elements with its key. */
  lemma {:induction false} AddItemFilters<K, T>(gs: seq<Group<K, T>>, pre: seq<T>, x: T, key: T -> K)
    requires Partitions(gs, pre, key)
    ensures var gs' := AddItem(gs, key(x), x);
      forall j | 0 <= j < |gs'| :: gs'[j].items == Filter(pre + [x], KeyIs(key, gs'[j].key))
  {
    var gs' := AddItem(gs, key(x), x);
    forall j | 0 <= j < |gs'| ensures gs'[j].items == Filter(pre + [x], KeyIs(key, gs'[j].key)) {
      FilterSnoc(pre, x, key, gs'[j].key);
      if j == |gs| {
        assert GroupIndex(gs, key(x)).None?;
        forall i | 0 <= i < |pre| ensures !KeyIs(key, key(x))(pre[i]) {
          assert GroupIndex(gs, key(pre[i])).Some?;
        }
        FilterKeepsNone(pre, KeyIs(key, key(x)));
      } else if gs[j].key == key(x) {
        assert GroupIndex(gs, key(x)) == Some(j);
      } else {
        assert gs'[j] == gs[j];
      }
    }
  }

  /** After one more visit every visited element's key still has a group. */
  lemma {:induction false} AddItemCovers<K, T>(gs: seq<Group<K, T>>, pre: seq<T>, x: T, key: T -> K)
    requires Partitions(gs, pre, key)
    ensures var gs' := AddItem(gs, key(x), x);
      forall i | 0 <= i < |pre + [x]| :: GroupIndex(gs', key((pre + [x])[i])).Some?
  {
    var s := pre + [x];
    var gs' := AddItem(gs, key(x), x);
    forall i | 0 <= i < |s| ensures GroupIndex(gs', key(s[i])).Some? {
      if i < |pre| {
        assert s[i] == pre[i];
        var gi := GroupIndex(gs, key(s[i])).value;
        assert gs'[gi].key == key(s[i]);
      }
    }
  }

  /** One more visit keeps the partition: the new element lands in its key's group, at the end. */
  lemma {:induction false} AddItemPartitions<K, T>(gs: seq<Group<K, T>>, pre: seq<T>, x: T, key: T -> K)
    requires Partitions(gs, pre, key)
    ensures Partitions(AddItem(gs, key(x), x), pre + [x], key)
  {
    AddItemFilters(gs, pre, x, key);
    AddItemCovers(gs, pre, x, key);
    AddItemShape(gs, key(x), x);
  }

  /** Replacing a group by a non-empty one under the same key keeps the keys distinct and no
      group empty. */
  lemma ShapeAfterReplace<K, T>(gs: seq<Group<K, T>>, g: nat, grp: Group<K, T>, gs': seq<Group<K, T>>)
    requires forall i, j | 0 <= i < j < |gs| :: gs[i].key != gs[j].key
    requires forall i | 0 <= i < |gs| :: |gs[i].items| > 0
    requires g < |gs| && grp.key == gs[g].key && |grp.items| > 0
    requires gs' == gs[g := grp]
    ensures forall i, j | 0 <= i < j < |gs'| :: gs'[i].key != gs'[j].key
    ensures forall i | 0 <= i < |gs'| :: |gs'[i].items| > 0
  {
    assert forall i | 0 <= i < |gs'| :: gs'[i].key == gs[i].key;
  }

  /** Appending a non-empty group under a new key keeps the keys distinct and no group empty. */
  lemma ShapeAfterAppend<K, T>(gs: seq<Group<K, T>>, grp: Group<K, T>, gs': seq<Group<K, T>>)
    requires forall i, j | 0 <= i < j < |gs| :: gs[i].key != gs[j].key
    requires forall i | 0 <= i < |gs| :: |gs[i].items| > 0
    requires (forall i | 0 <= i < |gs| :: gs[i].key != grp.key) && |grp.items| > 0
    requires gs' == gs + [grp]
    ensures forall i, j | 0 <= i < j < |gs'| :: gs'[i].key != gs'[j].key
    ensures forall i | 0 <= i < |gs'| :: |gs'[i].items| > 0
  {
    assert forall i | 0 <= i < |gs| :: gs'[i] == gs[i];
  }

  /** One more visit keeps the keys distinct and no group empty. */
  lemma {:induction false} AddItemShape<K, T>(gs: seq<Group<K, T>>, k: K, x: T)
    requires forall i, j | 0 <= i < j < |gs| :: gs[i].key != gs[j].key
    requires forall i | 0 <= i < |gs| :: |gs[i].items| > 0
    ensures var gs' := AddItem(gs, k, x);
      (forall i, j | 0 <= i < j < |gs'| :: gs'[i].key != gs'[j].key)
      && (forall i | 0 <= i < |gs'| :: |gs'[i].items| > 0)
  {
    match GroupIndex(gs, k) {
      case Some(g) =>
        var grp := Group(k, gs[g].items + [x]);
        ShapeAfterReplace(gs, g, grp, gs[g := grp]);
      case None =>
        ShapeAfterAppend(gs, Group(k, [x]), gs + [Group(k, [x])]);
    }
  }

  /** The grouping loop partitions its input. */
  lemma {:induction false} GroupByPartitions<K, T>(s: seq<T>, key: T -> K)
    ensures Partitions(GroupBy(s, key), s, key)
  {
    if |s| > 0 {
      var n := |s| - 1;
      assert s == s[..n] + [s[n]];
      GroupByPartitions(s[..n], key);
      AddItemPartitions(GroupBy(s[..n], key), s[..n], s[n], key);
    }
  }

  /** Groups come in the order their keys first occur: for `i < j`, an element with group `i`'s
      key comes before every element with group `j`'s key. */
  lemma {:induction false} GroupByFirstOccurrence<K, T>(s: seq<T>, key: T -> K, i: nat, j: nat)
    requires i < j < |GroupBy(s, key)|
    ensures exists a :: (0 <= a < |s| && key(s[a]) == GroupBy(s, key)[i].key
                         && forall b :: 0 <= b <= a ==> key(s[b]) != GroupBy(s, key)[j].key)
  {
    var n := |s| - 1;
    var pre := s[..n];
    var gp := GroupBy(pre, key);
    var gs := GroupBy(s, key);
    assert gs == AddItem(gp, key(s[n]), s[n]);
    if j < |gp| {
      GroupByFirstOccurrence(pre, key, i, j);
      var a :| 0 <= a < |pre| && key(pre[a]) == gp[i].key
        && (forall b :: 0 <= b <= a ==> key(pre[b]) != gp[j].key);
      assert s[a] == pre[a];
      forall b | 0 <= b <= a ensures key(s[b]) != gs[j].key {
        assert s[b] == pre[b];
      }
    } else {
      GroupByPartitions(pre, key);
      var f := Filter(pre, KeyIs(key, gp[i].key));
      assert gp[i].items == f && |f| > 0;
      FilterMembers(pre, KeyIs(key, gp[i].key));
      assert f[0] in pre;
      var a :| 0 <= a < |pre| && pre[a] == f[0];
      assert s[a] == pre[a];
      forall b | 0 <= b <= a ensures key(s[b]) != gs[j].key {
        assert s[b] == pre[b];
        assert GroupIndex(gp, key(pre[b])).Some?;
      }
    }
  }

  /** The tally's entries are the groups: every group's key is tallied with its group's size,
      and every tallied key has a group. */
  lemma TallyEntriesAreGroups<K, T>(s: seq<T>, key: T -> K)
    ensures var gs := GroupBy(s, key);
      forall i :: 0 <= i < |gs| ==> gs[i].key in Tally(s, key) && Tally(s, key)[gs[i].key] == |gs[i].items|
    ensures var gs := GroupBy(s, key);
      forall k :: k in Tally(s, key) ==> exists i :: 0 <= i < |gs| && gs[i].key == k
  {
    var gs := GroupBy(s, key);
    GroupByPartitions(s, key);
    forall i | 0 <= i < |gs|
      ensures gs[i].key in Tally(s, key) && Tally(s, key)[gs[i].key] == |gs[i].items|
    {
      var k := gs[i].key;
      TallyMatchesGroupBy(s, key, k);
      assert GroupIndex(gs, k).Some?;
      var g := GroupIndex(gs, k).value;
      assert gs[g].key == gs[i].key;
      assert g == i;
    }
    forall k | k in Tally(s, key) ensures exists i :: 0 <= i < |gs| && gs[i].key == k {
      TallyMatchesGroupBy(s, key, k);
      var g := GroupIndex(gs, k).value;
      assert gs[g].key == k;
    }
  }

  /** The array under any key is exactly the elements with that key, in order (empty when absent). */
  lemma {:induction false} GroupOfIsFilter<K, T>(s: seq<T>, key: T -> K, k: K)
    ensures GroupOf(GroupBy(s, key), k) == Filter(s, KeyIs(key, k))
  {
    GroupByPartitions(s, key);
    var gs := GroupBy(s, key);
    if GroupIndex(gs, k).None? {
      forall i | 0 <= i < |s| ensures !KeyIs(key, k)(s[i]) {
        assert GroupIndex(gs, key(s[i])).Some?;
      }
      FilterKeepsNone(s, KeyIs(key, k));
    }
  }

  /** Replacing one group's array changes the total by the difference in lengths. */
  lemma {:induction false} TotalSizeUpdate<K, T>(gs: seq<Group<K, T>>, i: nat, g: Group<K, T>)
    requires i < |gs|
    ensures TotalSize(gs[i := g]) == TotalSize(gs) - |gs[i].items| + |g.items|
  {
    var n := |gs| - 1;
    if i < n {
      assert gs[i := g][..n] == gs[..n][i := g];
      TotalSizeUpdate(gs[..n], i, g);
    } else {
      assert gs[i := g][..n] == gs[..n];
    }
  }

  /** The group sizes add up to the number of grouped elements. */
  lemma {:induction false} GroupBySize<K, T>(s: seq<T>, key: T -> K)
    ensures TotalSize(GroupBy(s, key)) == |s|
  {
    if |s| > 0 {
      var n := |s| - 1;
      GroupBySize(s[..n], key);
      var gs := GroupBy(s[..n], key);
      match GroupIndex(gs, key(s[n]))
      case Some(i) =>
        TotalSizeUpdate(gs, i, Group(key(s[n]), gs[i].items + [s[n]]));
      case None =>
        assert (gs + [Group(key(s[n]), [s[n]])])[..|gs|] == gs;
    }
  }

  /** How many grouped elements satisfy `p`, summed over the groups. */
  function CountWhere<K, T>(gs: seq<Group<K, T>>, p: T -> bool): nat
  {
    if |gs| == 0 then 0 else CountWhere(gs[..|gs| - 1], p) + |Filter(gs[|gs| - 1].items, p)|
  }

  /** Replacing one group's array changes the count by the difference in that array's count. */
  lemma {:induction false} CountWhereUpdate<K, T>(gs: seq<Group<K, T>>, i: nat, g: Group<K, T>, p: T -> bool)
    requires i < |gs|
    ensures CountWhere(gs[i := g], p) == CountWhere(gs, p) - |Filter(gs[i].items, p)| + |Filter(g.items, p)|
  {
    var n := |gs| - 1;
    if i < n {
      assert gs[i := g][..n] == gs[..n][i := g];
      CountWhereUpdate(gs[..n], i, g, p);
    } else {
      assert gs[i := g][..n] == gs[..n];
    }
  }

  /** Grouping neither loses nor invents an element satisfying `p`: the per-group counts add
      up to the count over the whole list. */
  lemma {:induction false} GroupByCount<K, T>(s: seq<T>, key: T -> K, p: T -> bool)
    ensures CountWhere(GroupBy(s, key), p) == |Filter(s, p)|
  {
    if |s| > 0 {
      var n := |s| - 1;
      var x := s[n];
      GroupByCount(s[..n], key, p);
      assert s == s[..n] + [x];
      FilterAppend(s[..n], [x], p);
      var gs := GroupBy(s[..n], key);
      match GroupIndex(gs, key(x))
      case Some(i) =>
        FilterAppend(gs[i].items, [x], p);
        CountWhereUpdate(gs, i, Group(key(x), gs[i].items + [x]), p);
      case None =>
        assert (gs + [Group(key(x), [x])])[..|gs|] == gs;
    }
  }

  /** `s.reduce((acc, x) => { acc[key(x)] = (acc[key(x)] || 0) + 1; return acc }, {})`:
      how many elements carry each key. */
  function Tally<K(==), T>(s: seq<T>, key: T -> K): map<K, nat>
  {
    if |s| == 0 then map[]
    else
      var n := |s| - 1;
      var acc := Tally(s[..n], key);
      var k := key(s[n]);
      acc[k := (if k in acc then acc[k] else 0) + 1]
  }

  /** A key is tallied exactly when some element carries it, and its count is the number of
      elements that do. */
  lemma {:induction false} TallyCounts<K, T>(s: seq<T>, key: T -> K, k: K)
    ensures k in Tally(s, key) <==> |Filter(s, KeyIs(key, k))| > 0
    ensures k in Tally(s, key) ==> Tally(s, key)[k] == |Filter(s, KeyIs(key, k))|
  {
    if |s| > 0 {
      var n := |s| - 1;
      TallyCounts(s[..n], key, k);
      FilterSnoc(s[..n], s[n], key, k);
      assert s[..n] + [s[n]] == s;
    }
  }

  /** The tally agrees with the grouped object: each count is the size of that key's group. */
  lemma TallyMatchesGroupBy<K, T>(s: seq<T>, key: T -> K, k: K)
    ensures k in Tally(s, key) <==> GroupIndex(GroupBy(s, key), k).Some?
    ensures k in Tally(s, key) ==> Tally(s, key)[k] == |GroupOf(GroupBy(s, key), k)|
  {
    TallyCounts(s, key, k);
    GroupOfIsFilter(s, key, k);
    GroupByPartitions(s, key);
    var gs := GroupBy(s, key);
    if GroupIndex(gs, k).Some? {
      var i := GroupIndex(gs, k).value;
      assert |gs[i].items| > 0;
    }
  }
}
