/** Orderings of loaded relations: `orderBy('sort_order')` / `sortBy('sort_order')`
    as a stable sort on an integer key. */
module Ordering {

  predicate SortedBy<T>(xs: seq<T>, key: T -> int) {
    forall i, j :: 0 <= i < j < |xs| ==> key(xs[i]) <= key(xs[j])
  }

  /** The elements of `xs` whose key is `k`, in their order in `xs`. */
  function WithKey<T>(xs: seq<T>, key: T -> int, k: int): (r: seq<T>)
    ensures |r| <= |xs|
    ensures forall i :: 0 <= i < |r| ==> key(r[i]) == k
  {
    if |xs| == 0 then []
    else (if key(xs[0]) == k then [xs[0]] else []) + WithKey(xs[1..], key, k)
  }

  /** Puts `x` in front of the first element whose key is not smaller. */
  function InsertBy<T>(x: T, xs: seq<T>, key: T -> int): (r: seq<T>)
    requires SortedBy(xs, key)
    ensures SortedBy(r, key)
    ensures multiset(r) == multiset(xs) + multiset{x}
    ensures |r| == |xs| + 1
  {
    if |xs| == 0 || key(x) <= key(xs[0]) then [x] + xs
    else
      var rest := InsertBy(x, xs[1..], key);
      assert xs == [xs[0]] + xs[1..];
      assert forall i :: 0 <= i < |rest| ==> key(xs[0]) <= key(rest[i]) by {
        forall i | 0 <= i < |rest|
          ensures key(xs[0]) <= key(rest[i])
        {
          assert rest[i] in multiset(rest);
          assert rest[i] == x || rest[i] in multiset(xs[1..]);
          if rest[i] != x {
            var j :| 0 <= j < |xs[1..]| && xs[1..][j] == rest[i];
            assert xs[j + 1] == rest[i];
          }
        }
      }
      [xs[0]] + rest
  }

  /** A stable sort on `key`: equal keys keep their relative order. */
  function SortBy<T>(xs: seq<T>, key: T -> int): (r: seq<T>)
    ensures SortedBy(r, key)
    ensures multiset(r) == multiset(xs)
    ensures |r| == |xs|
  {
    if |xs| == 0 then []
    else
      assert xs == [xs[0]] + xs[1..];
      InsertBy(xs[0], SortBy(xs[1..], key), key)
  }

  lemma {:induction false} WithKeyInsertBy<T>(x: T, xs: seq<T>, key: T -> int, k: int)
    requires SortedBy(xs, key)
    ensures WithKey(InsertBy(x, xs, key), key, k)
            == (if key(x) == k then [x] else []) + WithKey(xs, key, k)
    decreases |xs|
  {
    if |xs| == 0 || key(x) <= key(xs[0]) {
      assert ([x] + xs)[1..] == xs;
    } else {
      var rest := InsertBy(x, xs[1..], key);
      assert ([xs[0]] + rest)[1..] == rest;
      WithKeyInsertBy(x, xs[1..], key, k);
      if key(x) == k {
        // every element before x's place has a smaller key, so none has key k
        assert key(xs[0]) < k;
      }
    }
  }

  /** Stability: for every key, the elements with that key appear in the
      sorted sequence exactly in their input order. */
  lemma {:induction false} SortByIsStable<T>(xs: seq<T>, key: T -> int, k: int)
    ensures WithKey(SortBy(xs, key), key, k) == WithKey(xs, key, k)
  {
    if |xs| > 0 {
      SortByIsStable(xs[1..], key, k);
      WithKeyInsertBy(xs[0], SortBy(xs[1..], key), key, k);
    }
  }

  /** Re-sorting an already ordered sequence changes nothing, so the
      renderer's `sortBy` over an `orderBy` relation keeps the relation's order. */
  lemma {:induction false} SortBySorted<T>(xs: seq<T>, key: T -> int)
    requires SortedBy(xs, key)
    ensures SortBy(xs, key) == xs
  {
    if |xs| > 0 {
      assert SortedBy(xs[1..], key);
      SortBySorted(xs[1..], key);
      assert xs == [xs[0]] + xs[1..];
    }
  }

  /** `->map($f)->values()`: `f` applied to every element, in order. */
  function MapSeq<T, V>(xs: seq<T>, f: T -> V): (r: seq<V>)
    ensures |r| == |xs|
    ensures forall i :: 0 <= i < |xs| ==> r[i] == f(xs[i])
  {
    seq(|xs|, i requires 0 <= i < |xs| => f(xs[i]))
  }

  /** `->take($n)`: the first `n` elements, or all of them when there are fewer. */
  function Take<T>(xs: seq<T>, n: nat): (r: seq<T>)
    ensures |r| == if |xs| <= n then |xs| else n
    ensures r == xs[..|r|]
  {
    if |xs| <= n then xs else xs[..n]
  }

  /** `vkey` reads off a view the key its source element was sorted on. */
  ghost predicate KeepsKey<T(!new), V>(f: T -> V, key: T -> int, vkey: V -> int) {
    forall x :: vkey(f(x)) == key(x)
  }

  lemma {:induction false} MapInsertBy<T(!new), V>(x: T, xs: seq<T>, key: T -> int, f: T -> V, vkey: V -> int)
    requires SortedBy(xs, key) && KeepsKey(f, key, vkey)
    ensures SortedBy(MapSeq(xs, f), vkey)
    ensures MapSeq(InsertBy(x, xs, key), f) == InsertBy(f(x), MapSeq(xs, f), vkey)
    decreases |xs|
  {
    var ys := MapSeq(xs, f);
    assert SortedBy(ys, vkey) by {
      forall i, j | 0 <= i < j < |ys| ensures vkey(ys[i]) <= vkey(ys[j]) {
        assert vkey(ys[i]) == key(xs[i]) && vkey(ys[j]) == key(xs[j]);
      }
    }
    if |xs| == 0 || key(x) <= key(xs[0]) {
      assert MapSeq([x] + xs, f) == [f(x)] + ys;
    } else {
      assert SortedBy(xs[1..], key);
      MapInsertBy(x, xs[1..], key, f, vkey);
      assert ys[1..] == MapSeq(xs[1..], f);
      assert MapSeq([xs[0]] + InsertBy(x, xs[1..], key), f) == [f(xs[0])] + MapSeq(InsertBy(x, xs[1..], key), f);
    }
  }

  /** Sorting elements and then mapping them to views is the same as sorting
      the views on the key they carry: `sortBy('sort_order')->map(...)` yields
      views in `sort_order` order, equal keys in their loaded order. */
  lemma {:induction false} MapSortBy<T(!new), V>(xs: seq<T>, key: T -> int, f: T -> V, vkey: V -> int)
    requires KeepsKey(f, key, vkey)
    ensures MapSeq(SortBy(xs, key), f) == SortBy(MapSeq(xs, f), vkey)
    decreases |xs|
  {
    if |xs| > 0 {
      var ys := MapSeq(xs, f);
      MapSortBy(xs[1..], key, f, vkey);
      MapInsertBy(xs[0], SortBy(xs[1..], key), key, f, vkey);
      assert ys[1..] == MapSeq(xs[1..], f);
    }
  }
}
