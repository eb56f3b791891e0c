/** The array operations the services and pages use (`filter`, `findIndex`, `splice`,
    `map` replacing one element), stated once over sequences. */
module Seqs {
  import opened Common

  /** The elements of `s` that satisfy `p`, in their original order (`Array.prototype.filter`). */
  function Filter<T>(s: seq<T>, p: T -> bool): (r: seq<T>)
    ensures |r| <= |s|
  {
    if |s| == 0 then [] else (if p(s[0]) then [s[0]] else []) + Filter(s[1..], p)
  }

  /** What `Filter` keeps: exactly the elements of `s` that satisfy `p`. */
  lemma {:induction false} FilterMembers<T>(s: seq<T>, p: T -> bool)
    ensures forall i :: 0 <= i < |Filter(s, p)| ==> Filter(s, p)[i] in s && p(Filter(s, p)[i])
    ensures forall i :: 0 <= i < |s| && p(s[i]) ==> s[i] in Filter(s, p)
  {
    if |s| > 0 {
      FilterMembers(s[1..], p);
      var r := Filter(s, p);
      var head := if p(s[0]) then [s[0]] else [];
      assert r == head + Filter(s[1..], p);
      forall i | 0 <= i < |r| ensures r[i] in s && p(r[i]) {
        if i >= |head| {
          assert r[i] == Filter(s[1..], p)[i - |head|];
        }
      }
      forall i | 0 <= i < |s| && p(s[i]) ensures s[i] in r {
        if i > 0 {
          assert s[i] == s[1..][i - 1];
        }
      }
    }
  }

  /** The index of the first element satisfying `p` (`Array.prototype.findIndex`, with -1 as None). */
  function IndexWhere<T>(s: seq<T>, p: T -> bool): (r: Option<nat>)
    ensures r.Some? ==> r.value < |s| && p(s[r.value])
    ensures r.Some? ==> forall j :: 0 <= j < r.value ==> !p(s[j])
    ensures r.None? ==> forall j :: 0 <= j < |s| ==> !p(s[j])
  {
    if |s| == 0 then None
    else if p(s[0]) then Some(0)
    else match IndexWhere(s[1..], p)
      case None => None
      case Some(i) => Some(i + 1)
  }

  /** `s` without its element at `i` (`Array.prototype.splice(i, 1)`). */
  function RemoveAt<T>(s: seq<T>, i: nat): (r: seq<T>)
    requires i < |s|
    ensures |r| == |s| - 1
    ensures forall j :: 0 <= j < |r| ==> r[j] == if j < i then s[j] else s[j + 1]
  {
    s[..i] + s[i + 1..]
  }

  /** Every element satisfying `p` replaced by `x` (`list.map(e => p(e) ? x : e)`). */
  function ReplaceWhere<T>(s: seq<T>, p: T -> bool, x: T): (r: seq<T>)
  {
    seq(|s|, i requires 0 <= i < |s| => if p(s[i]) then x else s[i])
  }

  /** At most the element at index `i` satisfies `q`. */
  ghost predicate OnlyAt<T>(s: seq<T>, q: T -> bool, i: nat)
  {
    forall j :: 0 <= j < |s| && j != i ==> !q(s[j])
  }

  /** Filtering distributes over concatenation: the relative order of what is kept never changes. */
  lemma {:induction false} FilterAppend<T>(a: seq<T>, b: seq<T>, p: T -> bool)
    ensures Filter(a + b, p) == Filter(a, p) + Filter(b, p)
  {
    if |a| == 0 {
      assert a + b == b;
    } else {
      var head := if p(a[0]) then [a[0]] else [];
      assert (a + b)[0] == a[0];
      assert (a + b)[1..] == a[1..] + b;
      FilterAppend(a[1..], b, p);
      calc {
        Filter(a + b, p);
        head + Filter(a[1..] + b, p);
        head + (Filter(a[1..], p) + Filter(b, p));
        (head + Filter(a[1..], p)) + Filter(b, p);
        Filter(a, p) + Filter(b, p);
      }
    }
  }

  /** Filtering keeps everything exactly when every element satisfies the predicate. */
  lemma {:induction false} FilterKeepsAll<T>(s: seq<T>, p: T -> bool)
    ensures Filter(s, p) == s <==> forall i :: 0 <= i < |s| ==> p(s[i])
    ensures |Filter(s, p)| == |s| <==> forall i :: 0 <= i < |s| ==> p(s[i])
  {
    if |s| > 0 {
      FilterKeepsAll(s[1..], p);
      if !p(s[0]) {
        assert |Filter(s, p)| < |s|;
      } else {
        assert forall i :: 1 <= i < |s| ==> s[i] == s[1..][i - 1];
      }
    }
  }

  /** Filtering keeps nothing exactly when no element satisfies the predicate. */
  lemma {:induction false} FilterKeepsNone<T>(s: seq<T>, p: T -> bool)
    ensures Filter(s, p) == [] <==> forall i :: 0 <= i < |s| ==> !p(s[i])
  {
    if |s| > 0 {
      FilterKeepsNone(s[1..], p);
      assert forall i :: 1 <= i < |s| ==> s[i] == s[1..][i - 1];
    }
  }

  /** Filtering twice, where the second predicate implies the first, is filtering once by the second. */
  lemma {:induction false} FilterFilterImplied<T>(s: seq<T>, p: T -> bool, q: T -> bool)
    requires forall x :: q(x) ==> p(x)
    ensures Filter(Filter(s, p), q) == Filter(s, q)
  {
    if |s| > 0 {
      FilterFilterImplied(s[1..], p, q);
      var head := if p(s[0]) then [s[0]] else [];
      FilterAppend(head, Filter(s[1..], p), q);
    }
  }

  /** `ReplaceWhere` works element by element, so it distributes over concatenation. */
  lemma {:induction false} ReplaceWhereAppend<T>(a: seq<T>, b: seq<T>, q: T -> bool, x: T)
    ensures ReplaceWhere(a + b, q, x) == ReplaceWhere(a, q, x) + ReplaceWhere(b, q, x)
  {
  }

  /** `ReplaceWhere` changes nothing when no element satisfies the predicate. */
  lemma {:induction false} ReplaceWhereNone<T>(s: seq<T>, q: T -> bool, x: T)
    requires forall k :: 0 <= k < |s| ==> !q(s[k])
    ensures ReplaceWhere(s, q, x) == s
  {
  }

  /** Filtering cannot bring in an element that `q` accepts when `s` holds none. */
  lemma FilterKeepsOutside<T>(s: seq<T>, p: T -> bool, q: T -> bool)
    requires forall j :: 0 <= j < |s| ==> !q(s[j])
    ensures forall k :: 0 <= k < |Filter(s, p)| ==> !q(Filter(s, p)[k])
  {
    FilterMembers(s, p);
  }

  /** Replacing the only element that satisfies `q`, by a value that `p` treats the same way,
      shows through `Filter(_, p)` as the list-level `ReplaceWhere`. */
  lemma {:induction false} FilterOfUpdate<T>(s: seq<T>, i: nat, x: T, p: T -> bool, q: T -> bool)
    requires i < |s| && q(s[i]) && q(x) && p(s[i]) == p(x)
    requires OnlyAt(s, q, i)
    ensures Filter(s[i := x], p) == ReplaceWhere(Filter(s, p), q, x)
  {
    var head := if p(s[0]) then [s[0]] else [];
    var rest := Filter(s[1..], p);
    assert Filter(s, p) == head + rest;
    ReplaceWhereAppend(head, rest, q, x);
    if i == 0 {
      assert s[0 := x][1..] == s[1..];
      assert Filter(s[i := x], p) == (if p(x) then [x] else []) + rest;
      var tail := s[1..];
      assert forall j :: 0 <= j < |tail| ==> !q(tail[j]) by {
        forall j | 0 <= j < |tail| ensures !q(tail[j]) {
          assert tail[j] == s[j + 1];
        }
      }
      FilterKeepsOutside(tail, p, q);
      ReplaceWhereNone(rest, q, x);
    } else {
      assert s[i := x][1..] == s[1..][i - 1 := x];
      assert OnlyAt(s[1..], q, i - 1) by {
        forall j | 0 <= j < |s[1..]| && j != i - 1 ensures !q(s[1..][j]) {
          assert s[1..][j] == s[j + 1];
        }
      }
      FilterOfUpdate(s[1..], i - 1, x, p, q);
      assert !q(s[0]);
      ReplaceWhereNone(head, q, x);
    }
  }

  /** Every element of `Filter(s, p)` comes from `s`, so a predicate true of all of `s` is true of it. */
  lemma {:induction false} FilterAllFrom<T>(s: seq<T>, p: T -> bool, r: T -> bool)
    requires forall k :: 0 <= k < |s| ==> r(s[k])
    ensures forall k :: 0 <= k < |Filter(s, p)| ==> r(Filter(s, p)[k])
  {
    var f := Filter(s, p);
    FilterMembers(s, p);
    forall k | 0 <= k < |f| ensures r(f[k]) {
      assert f[k] in s;
    }
  }

  /** Filtering by `nq`, the negation of `q`, keeps a filtered part of `s` whole when no element of `s` satisfies `q`. */
  lemma {:induction false} FilterNegationKeeps<T>(s: seq<T>, p: T -> bool, q: T -> bool, nq: T -> bool)
    requires forall k :: 0 <= k < |s| ==> !q(s[k])
    requires forall x :: nq(x) == !q(x)
    ensures Filter(Filter(s, p), nq) == Filter(s, p)
  {
    FilterAllFrom(s, p, nq);
    FilterKeepsAll(Filter(s, p), nq);
  }

  /** Filtering around position `i`: what is kept before, at and after `i`. */
  lemma {:induction false} FilterSplitAt<T>(s: seq<T>, i: nat, p: T -> bool)
    requires i < |s|
    ensures Filter(s, p) == Filter(s[..i], p) + Filter([s[i]], p) + Filter(s[i + 1..], p)
    ensures Filter(RemoveAt(s, i), p) == Filter(s[..i], p) + Filter(s[i + 1..], p)
  {
    var a, b := s[..i], s[i + 1..];
    assert s == a + [s[i]] + b;
    FilterAppend(a, b, p);
    FilterAppend(a + [s[i]], b, p);
    FilterAppend(a, [s[i]], p);
  }

  /** Around the only element satisfying `q`, filtering by its negation `nq` keeps everything,
      and at that element it keeps nothing. */
  lemma {:induction false} NegationAroundOnly<T>(s: seq<T>, i: nat, p: T -> bool, q: T -> bool, nq: T -> bool)
    requires i < |s| && q(s[i]) && OnlyAt(s, q, i)
    requires forall x :: nq(x) == !q(x)
    ensures Filter(Filter(s[..i], p), nq) == Filter(s[..i], p)
    ensures Filter(Filter(s[i + 1..], p), nq) == Filter(s[i + 1..], p)
    ensures Filter(Filter([s[i]], p), nq) == []
  {
    var a, b := s[..i], s[i + 1..];
    assert forall k :: 0 <= k < |a| ==> !q(a[k]) by {
      forall k | 0 <= k < |a| ensures !q(a[k]) { assert a[k] == s[k]; }
    }
    FilterNegationKeeps(a, p, q, nq);
    assert forall k :: 0 <= k < |b| ==> !q(b[k]) by {
      forall k | 0 <= k < |b| ensures !q(b[k]) { assert b[k] == s[i + 1 + k]; }
    }
    FilterNegationKeeps(b, p, q, nq);
    FilterAllFrom([s[i]], p, q);
    FilterKeepsNone(Filter([s[i]], p), nq);
  }

  /** Filtering `Filter(s, p)` by `nq`, the negation of `q`, drops exactly the element at `i`. */
  lemma {:induction false} NegationDropsOnly<T>(s: seq<T>, i: nat, p: T -> bool, q: T -> bool, nq: T -> bool)
    requires i < |s| && q(s[i]) && OnlyAt(s, q, i)
    requires forall x :: nq(x) == !q(x)
    ensures Filter(Filter(s, p), nq) == Filter(s[..i], p) + Filter(s[i + 1..], p)
  {
    var fa, fb, fm := Filter(s[..i], p), Filter(s[i + 1..], p), Filter([s[i]], p);
    NegationAroundOnly(s, i, p, q, nq);
    calc {
      Filter(Filter(s, p), nq);
      { FilterSplitAt(s, i, p); }
      Filter(fa + fm + fb, nq);
      { FilterAppend(fa + fm, fb, nq); }
      Filter(fa + fm, nq) + Filter(fb, nq);
      { FilterAppend(fa, fm, nq); }
      Filter(fa, nq) + Filter(fm, nq) + Filter(fb, nq);
      fa + [] + fb;
      { assert fa + [] == fa; }
      fa + fb;
    }
  }

  /** Removing the only element that satisfies `q` shows through `Filter(_, p)` as filtering
      the list by the negation `nq`. */
  lemma {:induction false} FilterOfRemove<T>(s: seq<T>, i: nat, p: T -> bool, q: T -> bool, nq: T -> bool)
    requires i < |s| && q(s[i]) && OnlyAt(s, q, i)
    requires forall x :: nq(x) == !q(x)
    ensures Filter(RemoveAt(s, i), p) == Filter(Filter(s, p), nq)
  {
    NegationDropsOnly(s, i, p, q, nq);
    FilterSplitAt(s, i, p);
  }

  /** Filtering one element keeps it exactly when it satisfies `p`. */
  lemma FilterSingleton<T>(x: T, p: T -> bool)
    ensures Filter([x], p) == if p(x) then [x] else []
  {
    assert [x][1..] == [];
  }

  /** An element that `p` drops, or a part that is empty, can trade places in front of a filter. */
  lemma FilterConsSwap<T>(y: T, rest: seq<T>, t: seq<T>, fx: seq<T>, p: T -> bool)
    requires Filter(rest, p) == fx + Filter(t, p)
    requires fx == [] || !p(y)
    ensures Filter([y] + rest, p) == fx + Filter([y] + t, p)
  {
    FilterAppend([y], rest, p);
    FilterAppend([y], t, p);
    FilterSingleton(y, p);
    var f0, ft := Filter([y], p), Filter(t, p);
    if fx == [] {
      assert f0 + (fx + ft) == f0 + ft;
      assert fx + (f0 + ft) == f0 + ft;
    } else {
      assert f0 == [];
      assert f0 + (fx + ft) == fx + ft;
      assert fx + (f0 + ft) == fx + ft;
    }
  }

  /** A prefix holds no element more often than the whole sequence. */
  lemma PrefixSubMultiset<T>(s: seq<T>, n: nat)
    requires n <= |s|
    ensures multiset(s[..n]) <= multiset(s)
  {
    assert s == s[..n] + s[n..];
  }

  /** The multiset of a non-empty sequence is its head plus the multiset of its tail. */
  lemma ConsMultiset<T>(s: seq<T>)
    requires |s| > 0
    ensures multiset(s) == multiset{s[0]} + multiset(s[1..])
  {
    assert s == [s[0]] + s[1..];
  }

  /** One element of `s` goes to exactly one of the two filters. */
  lemma SplitStep<T>(s: seq<T>, p: T -> bool, np: T -> bool)
    requires |s| > 0 && np(s[0]) == !p(s[0])
    ensures multiset(Filter(s, np)) + multiset(Filter(s, p))
      == multiset{s[0]} + multiset(Filter(s[1..], np)) + multiset(Filter(s[1..], p))
    ensures |Filter(s, np)| + |Filter(s, p)| == 1 + |Filter(s[1..], np)| + |Filter(s[1..], p)|
  {
    var x := s[0];
    var fp, fn := Filter(s[1..], p), Filter(s[1..], np);
    if p(x) {
      assert Filter(s, p) == [x] + fp;
      assert Filter(s, np) == fn;
      ConsMultiset([x] + fp);
      assert ([x] + fp)[1..] == fp;
    } else {
      assert Filter(s, p) == fp;
      assert Filter(s, np) == [x] + fn;
      ConsMultiset([x] + fn);
      assert ([x] + fn)[1..] == fn;
    }
  }

  /** A predicate and its negation split `s` between them: together they keep every element once. */
  lemma {:induction false} FilterSplitsMultiset<T>(s: seq<T>, p: T -> bool, np: T -> bool)
    requires forall x :: np(x) == !p(x)
    ensures multiset(Filter(s, np)) + multiset(Filter(s, p)) == multiset(s)
    ensures |Filter(s, np)| + |Filter(s, p)| == |s|
  {
    if |s| > 0 {
      FilterSplitsMultiset(s[1..], p, np);
      SplitStep(s, p, np);
      ConsMultiset(s);
    }
  }
}
