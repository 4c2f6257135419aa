/**
 * Python's built-in `sorted(xs, key=...)`, as both move orderings of the connect-four
 * heuristics use it: a stable sort that orders ascending by an integer key and keeps
 * elements with equal keys in their original order.
 */
module StableSort {

  /** Keys never decrease along `xs`. */
  predicate SortedBy(xs: seq<int>, key: int -> int)
  {
    forall i, j :: 0 <= i < j < |xs| ==> key(xs[i]) <= key(xs[j])
  }

  /** The elements of `xs` whose key is `v`, in their order in `xs`. */
  function KeyFilter(xs: seq<int>, key: int -> int, v: int): (r: seq<int>)
    ensures |r| <= |xs|
    ensures forall x :: x in r ==> x in xs && key(x) == v
  {
    if xs == [] then []
    else (if key(xs[0]) == v then [xs[0]] else []) + KeyFilter(xs[1..], key, v)
  }

  /** `x` placed before the first element of `ys` whose key is at least `key(x)`. */
  function Insert(x: int, ys: seq<int>, key: int -> int): (r: seq<int>)
    ensures |r| == |ys| + 1
    ensures forall z :: z in r <==> z == x || z in ys
  {
    if ys == [] then [x]
    else if key(x) <= key(ys[0]) then [x] + ys
    else [ys[0]] + Insert(x, ys[1..], key)
  }

  /** An element whose key exceeds every key in `ys` goes to the end. */
  lemma {:induction false} InsertLast(x: int, ys: seq<int>, key: int -> int)
    requires forall k :: 0 <= k < |ys| ==> key(ys[k]) < key(x)
    ensures Insert(x, ys, key) == ys + [x]
  {
    if ys != [] {
      assert key(ys[0]) < key(x);
      assert forall k :: 0 <= k < |ys[1..]| ==> ys[1..][k] == ys[k + 1];
      InsertLast(x, ys[1..], key);
      assert ys + [x] == [ys[0]] + (ys[1..] + [x]);
    }
  }

  /** Insertion sort from the back: each element goes in front of its equal-keyed successors. */
  function SortBy(xs: seq<int>, key: int -> int): (r: seq<int>)
    ensures |r| == |xs|
  {
    if xs == [] then [] else Insert(xs[0], SortBy(xs[1..], key), key)
  }

  /** The three promises of a stable sort: a permutation, ordered by key, ties kept in order. */
  ghost predicate IsStableSortOf(r: seq<int>, xs: seq<int>, key: int -> int)
  {
    multiset(r) == multiset(xs) && SortedBy(r, key) &&
    forall v :: KeyFilter(r, key, v) == KeyFilter(xs, key, v)
  }

  lemma {:induction false} InsertPermutes(x: int, ys: seq<int>, key: int -> int)
    ensures multiset(Insert(x, ys, key)) == multiset(ys) + multiset{x}
  {
    if ys != [] && key(x) > key(ys[0]) {
      InsertPermutes(x, ys[1..], key);
      assert ys == [ys[0]] + ys[1..];
    }
  }

  /** A sorted sequence stays sorted without its first element, which has the least key. */
  lemma SortedTail(ys: seq<int>, key: int -> int)
    requires ys != [] && SortedBy(ys, key)
    ensures SortedBy(ys[1..], key)
    ensures forall z :: z in ys ==> key(ys[0]) <= key(z)
  {
    forall i, j | 0 <= i < j < |ys[1..]| ensures key(ys[1..][i]) <= key(ys[1..][j]) {
      assert ys[1..][i] == ys[i + 1] && ys[1..][j] == ys[j + 1];
    }
  }

  lemma {:induction false} InsertSorted(x: int, ys: seq<int>, key: int -> int)
    requires SortedBy(ys, key)
    ensures SortedBy(Insert(x, ys, key), key)
  {
    if ys != [] {
      SortedTail(ys, key);
      if key(x) > key(ys[0]) {
        InsertSorted(x, ys[1..], key);
        ConsSorted(ys[0], Insert(x, ys[1..], key), key);
      }
    }
  }

  /** An element whose key is at most every key of a sorted sequence can go in front of it. */
  lemma ConsSorted(y: int, rest: seq<int>, key: int -> int)
    requires SortedBy(rest, key)
    requires forall z :: z in rest ==> key(y) <= key(z)
    ensures SortedBy([y] + rest, key)
  {
    var r := [y] + rest;
    forall i, j | 0 <= i < j < |r| ensures key(r[i]) <= key(r[j]) {
      assert r[j] == rest[j - 1];
      if i > 0 {
        assert r[i] == rest[i - 1];
      }
    }
  }

  /** Inserting `x` adds it to the slice of its own key and leaves every other slice alone. */
  lemma {:induction false} InsertFilter(x: int, ys: seq<int>, key: int -> int, v: int)
    ensures KeyFilter(Insert(x, ys, key), key, v) ==
              (if key(x) == v then [x] else []) + KeyFilter(ys, key, v)
  {
    if ys == [] {
      assert KeyFilter([x], key, v) == (if key(x) == v then [x] else []) + KeyFilter([], key, v);
    } else if key(x) <= key(ys[0]) {
      assert ([x] + ys)[1..] == ys;
    } else {
      var y, rest := ys[0], Insert(x, ys[1..], key);
      var keepX := if key(x) == v then [x] else [];
      var keepY := if key(y) == v then [y] else [];
      InsertFilter(x, ys[1..], key, v);
      assert ([y] + rest)[1..] == rest;
      assert KeyFilter([y] + rest, key, v) == keepY + (keepX + KeyFilter(ys[1..], key, v));
      assert KeyFilter(ys, key, v) == keepY + KeyFilter(ys[1..], key, v);
      // `y` sorts strictly before `x`, so at most one of them has key `v`.
      assert keepX == [] || keepY == [];
    }
  }

  /** `SortBy` is a stable sort: a permutation of its input, ordered by key, stable on ties. */
  lemma {:induction false} SortByCorrect(xs: seq<int>, key: int -> int)
    ensures IsStableSortOf(SortBy(xs, key), xs, key)
  {
    if xs != [] {
      var rest := SortBy(xs[1..], key);
      SortByCorrect(xs[1..], key);
      InsertPermutes(xs[0], rest, key);
      InsertSorted(xs[0], rest, key);
      assert xs == [xs[0]] + xs[1..];
      forall v ensures KeyFilter(SortBy(xs, key), key, v) == KeyFilter(xs, key, v) {
        InsertFilter(xs[0], rest, key, v);
      }
    }
  }

  /**
   * A stable sort has only one possible result: any two sequences that are stable sorts
   * of the same input are equal, so `SortBy` is exactly what `sorted` returns.
   */
  lemma {:induction false} StableSortUnique(r1: seq<int>, r2: seq<int>, xs: seq<int>, key: int -> int)
    requires IsStableSortOf(r1, xs, key) && IsStableSortOf(r2, xs, key)
    ensures r1 == r2
  {
    SortedSameFilters(r1, r2, key);
  }

  /** Two key-sorted sequences with the same slice for every key are equal. */
  lemma {:induction false} SortedSameFilters(r1: seq<int>, r2: seq<int>, key: int -> int)
    requires SortedBy(r1, key) && SortedBy(r2, key)
    requires forall v :: KeyFilter(r1, key, v) == KeyFilter(r2, key, v)
    ensures r1 == r2
    decreases |r1| + |r2|
  {
    // An element of a non-empty one shows up in the other's slice of its key.
    assert r1 == [] <==> r2 == [] by {
      if r1 != [] {
        assert KeyFilter(r1, key, key(r1[0])) != [];
      }
      if r2 != [] {
        assert KeyFilter(r2, key, key(r2[0])) != [];
      }
    }
    if r1 == [] {
    } else {
      var k1, k2 := key(r1[0]), key(r2[0]);
      // Both heads carry the least key present, so the heads agree.
      MinKeyHead(r1, r2, key);
      assert k1 == k2;
      var f1 := KeyFilter(r1, key, k1);
      assert f1 == [r1[0]] + KeyFilter(r1[1..], key, k1);
      assert KeyFilter(r2, key, k1) == [r2[0]] + KeyFilter(r2[1..], key, k1);
      assert r1[0] == r2[0];
      forall v ensures KeyFilter(r1[1..], key, v) == KeyFilter(r2[1..], key, v) {
        var head := if k1 == v then [r1[0]] else [];
        assert KeyFilter(r1, key, v) == head + KeyFilter(r1[1..], key, v);
        assert KeyFilter(r2, key, v) == head + KeyFilter(r2[1..], key, v);
        assert KeyFilter(r1[1..], key, v) == KeyFilter(r1, key, v)[|head|..];
        assert KeyFilter(r2[1..], key, v) == KeyFilter(r2, key, v)[|head|..];
      }
      SortedTail(r1, key);
      SortedTail(r2, key);
      SortedSameFilters(r1[1..], r2[1..], key);
      assert r1 == [r1[0]] + r1[1..] && r2 == [r2[0]] + r2[1..];
    }
  }

  /** Non-empty sorted sequences with equal slices start with elements of the same key. */
  lemma MinKeyHead(r1: seq<int>, r2: seq<int>, key: int -> int)
    requires r1 != [] && r2 != []
    requires SortedBy(r1, key) && SortedBy(r2, key)
    requires forall v :: KeyFilter(r1, key, v) == KeyFilter(r2, key, v)
    ensures key(r1[0]) == key(r2[0])
  {
    var k1, k2 := key(r1[0]), key(r2[0]);
    assert r1[0] in KeyFilter(r1, key, k1);
    assert r2[0] in KeyFilter(r2, key, k2);
    assert r1[0] in KeyFilter(r2, key, k1);
    assert r2[0] in KeyFilter(r1, key, k2);
    var i :| 0 <= i < |r2| && r2[i] == r1[0];
    var j :| 0 <= j < |r1| && r1[j] == r2[0];
    assert k2 <= key(r2[i]) == k1;
    assert k1 <= key(r1[j]) == k2;
  }
}
