/** Stable insertion sort by a two-part key, the shape of every comparator the pages pass
    to `Array.prototype.sort`. */
module Sorting {
  import opened Seqs

  /** A sort key compared lexicographically: first `major`, then `minor`. */
  datatype Key = Key(major: int, minor: int)

  /** The (total, transitive) order on keys. */
  predicate KeyLe(a: Key, b: Key)
  {
    a.major < b.major || (a.major == b.major && a.minor <= b.minor)
  }

  /** `s` is in non-decreasing key order. */
  ghost predicate SortedBy<T>(s: seq<T>, key: T -> Key)
  {
    forall i, j | 0 <= i < j < |s| :: KeyLe(key(s[i]), key(s[j]))
  }

  /** `x` placed before the first element of the sorted `s` whose key is not smaller. */
  function Insert<T>(x: T, s: seq<T>, key: T -> Key): (r: seq<T>)
    requires SortedBy(s, key)
    ensures |r| == |s| + 1
    ensures forall i :: 0 <= i < |r| ==> r[i] == x || r[i] in s
    ensures multiset(r) == multiset(s) + multiset{x}
    ensures SortedBy(r, key)
  {
    if |s| == 0 then [x]
    else if KeyLe(key(x), key(s[0])) then [x] + s
    else
      var rest := Insert(x, s[1..], key);
      assert forall i :: 0 <= i < |rest| ==> KeyLe(key(s[0]), key(rest[i]));
      assert s == [s[0]] + s[1..];
      [s[0]] + rest
  }

  /** Insertion sort: a permutation of `s` in non-decreasing key order; elements with equal
      keys keep their input order. */
  function Sort<T>(s: seq<T>, key: T -> Key): (r: seq<T>)
    ensures |r| == |s|
    ensures multiset(r) == multiset(s)
    ensures SortedBy(r, key)
  {
    if |s| == 0 then []
    else
      assert s == [s[0]] + s[1..];
      Insert(s[0], Sort(s[1..], key), key)
  }

  /** Every element of a sorted sequence is in it: membership survives sorting both ways. */
  lemma {:induction false} SortMembers<T>(s: seq<T>, key: T -> Key)
    ensures forall x :: x in Sort(s, key) <==> x in s
  {
    var r := Sort(s, key);
    forall x ensures x in r <==> x in s {
      assert x in r <==> x in multiset(r);
      assert x in s <==> x in multiset(s);
    }
  }

  /** The elements whose key is `k`. */
  function HasKey<T>(key: T -> Key, k: Key): T -> bool
  {
    x => key(x) == k
  }

  /** Inserting `x` puts it before every element of `s` with the same key. */
  lemma {:induction false} InsertBeforeEqualKeys<T>(x: T, s: seq<T>, key: T -> Key, k: Key)
    requires SortedBy(s, key)
    ensures Filter(Insert(x, s, key), HasKey(key, k))
      == (if key(x) == k then [x] else []) + Filter(s, HasKey(key, k))
  {
    var p := HasKey(key, k);
    var fx := if key(x) == k then [x] else [];
    FilterSingleton(x, p);
    if |s| == 0 {
      assert Insert(x, s, key) == [x];
      assert Filter(s, p) == [];
      assert fx + [] == fx;
    } else if KeyLe(key(x), key(s[0])) {
      assert Insert(x, s, key) == [x] + s;
      FilterAppend([x], s, p);
    } else {
      var rest := Insert(x, s[1..], key);
      assert Insert(x, s, key) == [s[0]] + rest;
      InsertBeforeEqualKeys(x, s[1..], key, k);
      assert key(s[0]) != key(x);
      FilterConsSwap(s[0], rest, s[1..], fx, p);
      assert s == [s[0]] + s[1..];
    }
  }

  /** `Sort` is stable: the elements with any one key come out in their input order. */
  lemma {:induction false} SortStable<T>(s: seq<T>, key: T -> Key, k: Key)
    ensures Filter(Sort(s, key), HasKey(key, k)) == Filter(s, HasKey(key, k))
  {
    if |s| > 0 {
      SortStable(s[1..], key, k);
      InsertBeforeEqualKeys(s[0], Sort(s[1..], key), key, k);
    }
  }
}
