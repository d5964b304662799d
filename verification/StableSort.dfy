/** Sorting by a numeric key that keeps equal keys in their original order. */
module StableSort {

  function Insert<T(!new)>(x: T, sorted: seq<T>, key: T -> real): seq<T> {
    if sorted == [] || key(x) <= key(sorted[0]) then [x] + sorted
    else [sorted[0]] + Insert(x, sorted[1..], key)
  }

  function SortBy<T(!new)>(xs: seq<T>, key: T -> real): seq<T> {
    if xs == [] then [] else Insert(xs[0], SortBy(xs[1..], key), key)
  }

  ghost predicate Ascending<T(!new)>(xs: seq<T>, key: T -> real) {
    forall i, j :: 0 <= i < j < |xs| ==> key(xs[i]) <= key(xs[j])
  }

  lemma {:induction false} InsertAdds<T(!new)>(x: T, sorted: seq<T>, key: T -> real)
    ensures multiset(Insert(x, sorted, key)) == multiset(sorted) + multiset{x}
  {
    if sorted != [] && !(key(x) <= key(sorted[0])) {
      InsertAdds(x, sorted[1..], key);
      assert sorted == [sorted[0]] + sorted[1..];
    }
  }

  lemma {:induction false} InsertSorts<T(!new)>(x: T, sorted: seq<T>, key: T -> real)
    requires Ascending(sorted, key)
    ensures Ascending(Insert(x, sorted, key), key)
  {
    if sorted != [] && !(key(x) <= key(sorted[0])) {
      InsertSorts(x, sorted[1..], key);
      InsertAdds(x, sorted[1..], key);
      var rest := Insert(x, sorted[1..], key);
      forall j | 0 <= j < |rest| ensures key(sorted[0]) <= key(rest[j]) {
        assert rest[j] in multiset(rest);
        assert rest[j] == x || rest[j] in sorted[1..];
      }
    }
  }

  lemma {:induction false} SortSorts<T(!new)>(xs: seq<T>, key: T -> real)
    ensures Ascending(SortBy(xs, key), key)
    ensures multiset(SortBy(xs, key)) == multiset(xs)
    ensures |SortBy(xs, key)| == |xs|
  {
    if xs != [] {
      SortSorts(xs[1..], key);
      InsertSorts(xs[0], SortBy(xs[1..], key), key);
      InsertAdds(xs[0], SortBy(xs[1..], key), key);
      assert xs == [xs[0]] + xs[1..];
      assert |multiset(SortBy(xs, key))| == |multiset(xs)|;
    }
  }

  /** The entries with one particular key keep their order. */
  function WithKey<T(!new)>(xs: seq<T>, key: T -> real, k: real): seq<T> {
    if xs == [] then []
    else (if key(xs[0]) == k then [xs[0]] else []) + WithKey(xs[1..], key, k)
  }

  lemma {:induction false} InsertStable<T(!new)>(x: T, sorted: seq<T>, key: T -> real, k: real)
    requires Ascending(sorted, key)
    ensures WithKey(Insert(x, sorted, key), key, k) == (if key(x) == k then [x] else []) + WithKey(sorted, key, k)
  {
    if sorted == [] || key(x) <= key(sorted[0]) {
      WithKeyCons(x, sorted, key, k);
    } else {
      InsertStable(x, sorted[1..], key, k);
      WithKeyCons(sorted[0], Insert(x, sorted[1..], key), key, k);
      WithKeyCons(sorted[0], sorted[1..], key, k);
      assert sorted == [sorted[0]] + sorted[1..];
    }
  }

  lemma WithKeyCons<T(!new)>(x: T, xs: seq<T>, key: T -> real, k: real)
    ensures WithKey([x] + xs, key, k) == (if key(x) == k then [x] else []) + WithKey(xs, key, k)
  {
    assert ([x] + xs)[1..] == xs;
  }

  lemma {:induction false} SortStable<T(!new)>(xs: seq<T>, key: T -> real, k: real)
    ensures WithKey(SortBy(xs, key), key, k) == WithKey(xs, key, k)
  {
    if xs != [] {
      SortSorts(xs[1..], key);
      SortStable(xs[1..], key, k);
      InsertStable(xs[0], SortBy(xs[1..], key), key, k);
    }
  }
}
