/**
 Array.prototype.sort by a number, largest first, as ECMAScript requires it since 2019: stable. The result is the
 only list that is sorted and has the elements of each key in their old order.
 */
module StableSort {
  import opened JsCollections

  /** The elements with this key, in order. */
  function WithKey<T>(s: seq<T>, key: T -> real, v: real): seq<T> {
    if s == [] then []
    else
      var before, last := WithKey(s[..|s| - 1], key, v), s[|s| - 1];
      if key(last) == v then before + [last] else before
  }

  lemma {:induction false} WithKeyJoins<T>(a: seq<T>, b: seq<T>, key: T -> real, v: real)
    ensures WithKey(a + b, key, v) == WithKey(a, key, v) + WithKey(b, key, v)
  {
    if b == [] {
      assert a + b == a;
    } else {
      assert (a + b)[..|a + b| - 1] == a + b[..|b| - 1];
      WithKeyJoins(a, b[..|b| - 1], key, v);
    }
  }

  lemma WithKeyOne<T>(x: T, key: T -> real, v: real)
    ensures WithKey([x], key, v) == if key(x) == v then [x] else []
  {
    assert [x][..0] == [];
  }

  lemma {:induction false} NoneWithKey<T>(s: seq<T>, key: T -> real, v: real)
    requires forall i :: 0 <= i < |s| ==> key(s[i]) != v
    ensures WithKey(s, key, v) == []
  {
    if s != [] {
      NoneWithKey(s[..|s| - 1], key, v);
    }
  }

  lemma {:induction false} InsertIsStable<T(!new)>(s: seq<T>, x: T, key: T -> real, v: real)
    ensures WithKey(InsertDesc(s, x, key), key, v) == WithKey(s, key, v) + WithKey([x], key, v)
  {
    if s == [] || key(s[|s| - 1]) >= key(x) {
      WithKeyJoins(s, [x], key, v);
      assert [] + [x] == [x];
    } else {
      var init, last := s[..|s| - 1], s[|s| - 1];
      InsertIsStable(init, x, key, v);
      WithKeyJoins(InsertDesc(init, x, key), [last], key, v);
      WithKeyOne(x, key, v);
      WithKeyOne(last, key, v);
    }
  }

  /** Elements with the same key keep their order. */
  lemma {:induction false} SortIsStable<T(!new)>(s: seq<T>, key: T -> real, v: real)
    ensures WithKey(SortDesc(s, key), key, v) == WithKey(s, key, v)
  {
    if s != [] {
      var init, last := s[..|s| - 1], s[|s| - 1];
      SortIsStable(init, key, v);
      InsertIsStable(SortDesc(init, key), last, key, v);
      WithKeyOne(last, key, v);
    }
  }

  lemma FirstWithKey<T>(s: seq<T>, key: T -> real)
    requires s != []
    ensures WithKey(s, key, key(s[0])) != [] && WithKey(s, key, key(s[0]))[0] == s[0]
    ensures forall v :: WithKey(s, key, v) == (if key(s[0]) == v then [s[0]] else []) + WithKey(s[1..], key, v)
  {
    assert s == [s[0]] + s[1..];
    forall v ensures WithKey(s, key, v) == (if key(s[0]) == v then [s[0]] else []) + WithKey(s[1..], key, v) {
      WithKeyJoins([s[0]], s[1..], key, v);
      WithKeyOne(s[0], key, v);
    }
  }

  lemma LeadsWithLeast<T>(a: seq<T>, b: seq<T>, key: T -> real)
    requires a != [] && Descending(b, key) && WithKey(b, key, key(a[0])) == WithKey(a, key, key(a[0]))
    ensures b != [] && key(b[0]) >= key(a[0])
  {
    FirstWithKey(a, key);
    if forall i :: 0 <= i < |b| ==> key(b[i]) != key(a[0]) {
      NoneWithKey(b, key, key(a[0]));
    } else {
      var i :| 0 <= i < |b| && key(b[i]) == key(a[0]);
      assert i > 0 ==> key(b[0]) >= key(b[i]);
    }
  }

  lemma SameTail<T>(head: seq<T>, x: seq<T>, y: seq<T>)
    requires head + x == head + y
    ensures x == y
  {
    assert x == (head + x)[|head|..] && y == (head + y)[|head|..];
  }

  lemma {:induction false} SortedAlike<T(!new)>(a: seq<T>, b: seq<T>, key: T -> real)
    requires Descending(a, key) && Descending(b, key) && forall v :: WithKey(a, key, v) == WithKey(b, key, v)
    ensures a == b
  {
    if a == [] {
      if b != [] {
        LeadsWithLeast(b, a, key);
      }
    } else {
      LeadsWithLeast(a, b, key);
      LeadsWithLeast(b, a, key);
      FirstWithKey(a, key);
      FirstWithKey(b, key);
      assert a[0] == b[0];
      forall v ensures WithKey(a[1..], key, v) == WithKey(b[1..], key, v) {
        assert WithKey(a, key, v) == WithKey(b, key, v);
        SameTail(if key(a[0]) == v then [a[0]] else [], WithKey(a[1..], key, v), WithKey(b[1..], key, v));
      }
      SortedAlike(a[1..], b[1..], key);
      assert a == [a[0]] + a[1..] && b == [b[0]] + b[1..];
    }
  }

  /** The elements of each key are the same, in the same order. */
  ghost predicate AlikeByKey<T>(r: seq<T>, s: seq<T>, key: T -> real) {
    forall v :: WithKey(r, key, v) == WithKey(s, key, v)
  }

  /** A list is the result of sorting exactly when it is sorted, and has the elements of each key in their old order. */
  lemma SortIff<T(!new)>(s: seq<T>, key: T -> real, r: seq<T>)
    ensures r == SortDesc(s, key) <==> Descending(r, key) && AlikeByKey(r, s, key)
  {
    var sorted := SortDesc(s, key);
    SortDescSorted(s, key);
    forall v ensures WithKey(sorted, key, v) == WithKey(s, key, v) {
      SortIsStable(s, key, v);
    }
    assert AlikeByKey(sorted, s, key);
    if Descending(r, key) && AlikeByKey(r, s, key) {
      SortedAlike(r, sorted, key);
    }
  }
}
