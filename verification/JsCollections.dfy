/**
 The JavaScript collections the other modules rely on: a Map that remembers insertion order,
 Array.prototype.slice from the front, and the stable Array.prototype.sort.
 */
module JsCollections {

  datatype Option<+T> = None | Some(value: T)

  function Max(a: int, b: int): int { if a < b then b else a }

  function Min(a: int, b: int): int { if a < b then a else b }

  ghost predicate NoDup<T>(s: seq<T>) {
    forall i, j :: 0 <= i < j < |s| ==> s[i] != s[j]
  }

  /** Removes every occurrence of `x`, keeping the order of the rest. */
  function Without<T(==)>(s: seq<T>, x: T): seq<T> {
    if s == [] then []
    else if s[0] == x then Without(s[1..], x)
    else [s[0]] + Without(s[1..], x)
  }

  lemma {:induction false} WithoutMembers<T(!new)>(s: seq<T>, x: T)
    ensures forall y :: y in Without(s, x) <==> y in s && y != x
  {
    if s != [] {
      WithoutMembers(s[1..], x);
      assert s == [s[0]] + s[1..];
    }
  }

  lemma {:induction false} WithoutAbsent<T>(s: seq<T>, x: T)
    requires x !in s
    ensures Without(s, x) == s
  {
    if s != [] {
      assert s == [s[0]] + s[1..];
      WithoutAbsent(s[1..], x);
    }
  }

  lemma {:induction false} WithoutNoDup<T(!new)>(s: seq<T>, x: T)
    requires NoDup(s)
    ensures NoDup(Without(s, x))
    ensures |Without(s, x)| == if x in s then |s| - 1 else |s|
  {
    if s != [] {
      var rest := s[1..];
      assert forall i :: 0 <= i < |rest| ==> rest[i] == s[i + 1];
      assert s[0] !in rest;
      assert s == [s[0]] + rest;
      WithoutNoDup(rest, x);
      WithoutMembers(rest, x);
      if s[0] == x {
        WithoutAbsent(rest, x);
      }
    }
  }

  lemma {:induction false} WithoutConcat<T(!new)>(s: seq<T>, t: seq<T>, x: T)
    ensures Without(s + t, x) == Without(s, x) + Without(t, x)
  {
    if s == [] {
      assert s + t == t;
    } else {
      assert (s + t)[1..] == s[1..] + t;
      WithoutConcat(s[1..], t, x);
    }
  }

  lemma {:induction false} WithoutCommutes<T(!new)>(s: seq<T>, x: T, y: T)
    ensures Without(Without(s, x), y) == Without(Without(s, y), x)
  {
    if s != [] {
      WithoutCommutes(s[1..], x, y);
    }
  }

  /** Array.prototype.slice(0, k), for any integer k. */
  function SliceTo<T>(s: seq<T>, k: int): (r: seq<T>)
    ensures r <= s
    ensures 0 <= k ==> |r| == Min(k, |s|)
    ensures k < 0 ==> |r| == Max(|s| + k, 0)
  {
    if k >= 0 then s[..Min(k, |s|)] else s[..Max(|s| + k, 0)]
  }

  /** Array.prototype.splice(i, 1). */
  function RemoveAt<T>(s: seq<T>, i: nat): seq<T>
    requires i < |s|
  {
    s[..i] + s[i + 1..]
  }

  lemma {:induction false} SizeIsCardinality<T>(s: seq<T>)
    requires NoDup(s)
    ensures |set x | x in s| == |s|
  {
    if s != [] {
      var init, last := s[..|s| - 1], s[|s| - 1];
      SizeIsCardinality(init);
      assert s == init + [last];
      assert (set x | x in s) == (set x | x in init) + {last};
    }
  }

  // ---------- Map with insertion order ----------

  datatype OrderedMap<K(==, !new), V> = OrderedMap(keys: seq<K>, vals: map<K, V>) {

    ghost predicate Valid() {
      && NoDup(keys)
      && (forall k :: k in keys <==> k in vals)
    }

    predicate Has(k: K) { k in vals }

    function Size(): nat { |keys| }

    /** Map.prototype.set: an existing key keeps its position. */
    function Set(k: K, v: V): (r: OrderedMap<K, V>)
      requires Valid()
      ensures r.Valid()
    {
      OrderedMap(if k in vals then keys else keys + [k], vals[k := v])
    }

    /** Map.prototype.delete. */
    function Delete(k: K): (r: OrderedMap<K, V>)
      requires Valid()
      ensures r.Valid()
      ensures r.Size() == if Has(k) then Size() - 1 else Size()
    {
      WithoutNoDup(keys, k);
      WithoutMembers(keys, k);
      OrderedMap(Without(keys, k), map x | x in vals && x != k :: vals[x])
    }
  }

  type JsMap<K(==, !new), V> = m: OrderedMap<K, V> | m.Valid() witness OrderedMap([], map[])

  function EmptyMap<K(==, !new), V>(): JsMap<K, V> { OrderedMap([], map[]) }

  /** Array.from(map.values()). */
  function ValuesOf<K(!new), V>(m: JsMap<K, V>): seq<V> {
    seq(|m.keys|, i requires 0 <= i < |m.keys| =>
      assert m.keys[i] in m.keys;
      m.vals[m.keys[i]])
  }

  // ---------- Stable sort, largest key first ----------

  ghost predicate Descending<T>(s: seq<T>, key: T -> real) {
    forall i, j :: 0 <= i < j < |s| ==> key(s[i]) >= key(s[j])
  }

  function InsertDesc<T>(s: seq<T>, x: T, key: T -> real): seq<T> {
    if s == [] then [x]
    else if key(s[|s| - 1]) >= key(x) then s + [x]
    else InsertDesc(s[..|s| - 1], x, key) + [s[|s| - 1]]
  }

  /** Array.prototype.sort((a, b) => b.key - a.key), which is stable. */
  function SortDesc<T>(s: seq<T>, key: T -> real): seq<T> {
    if s == [] then [] else InsertDesc(SortDesc(s[..|s| - 1], key), s[|s| - 1], key)
  }

  lemma {:induction false} InsertDescPermutes<T>(s: seq<T>, x: T, key: T -> real)
    ensures |InsertDesc(s, x, key)| == |s| + 1
    ensures multiset(InsertDesc(s, x, key)) == multiset(s) + multiset{x}
  {
    if s != [] && key(s[|s| - 1]) < key(x) {
      assert s == s[..|s| - 1] + [s[|s| - 1]];
      InsertDescPermutes(s[..|s| - 1], x, key);
    }
  }

  /** Sorting permutes. */
  lemma {:induction false} SortDescPermutes<T>(s: seq<T>, key: T -> real)
    ensures |SortDesc(s, key)| == |s|
    ensures multiset(SortDesc(s, key)) == multiset(s)
  {
    if s != [] {
      assert s == s[..|s| - 1] + [s[|s| - 1]];
      SortDescPermutes(s[..|s| - 1], key);
      InsertDescPermutes(SortDesc(s[..|s| - 1], key), s[|s| - 1], key);
    }
  }

  lemma {:induction false} InsertDescSorted<T(!new)>(s: seq<T>, x: T, key: T -> real)
    requires Descending(s, key)
    ensures Descending(InsertDesc(s, x, key), key)
  {
    if s != [] && key(s[|s| - 1]) < key(x) {
      var init, last := s[..|s| - 1], s[|s| - 1];
      InsertDescSorted(init, x, key);
      InsertDescPermutes(init, x, key);
      var r := InsertDesc(init, x, key);
      forall i | 0 <= i < |r| ensures key(r[i]) >= key(last) {
        assert r[i] in multiset(r);
        if r[i] != x {
          assert r[i] in multiset(init);
          assert r[i] in init;
        }
      }
    }
  }

  lemma {:induction false} SortDescSorted<T(!new)>(s: seq<T>, key: T -> real)
    ensures Descending(SortDesc(s, key), key)
  {
    if s != [] {
      var init, last := s[..|s| - 1], s[|s| - 1];
      SortDescSorted(init, key);
      InsertDescSorted(SortDesc(init, key), last, key);
    }
  }

  lemma SameMultisetSameMembers<T(!new)>(s: seq<T>, t: seq<T>)
    requires multiset(s) == multiset(t)
    ensures forall y :: y in s <==> y in t
  {
    forall y ensures y in s <==> y in t {
      assert y in s <==> y in multiset(s);
      assert y in t <==> y in multiset(t);
    }
  }

  lemma {:induction false} NoDupCounts<T>(s: seq<T>, x: T)
    requires NoDup(s)
    ensures multiset(s)[x] <= 1
  {
    if s != [] {
      var init, last := s[..|s| - 1], s[|s| - 1];
      assert s == init + [last];
      NoDupCounts(init, x);
      if x == last {
        assert x !in init;
      }
    }
  }

  lemma TwiceCounts<T>(s: seq<T>, i: nat, j: nat)
    requires i < j < |s| && s[i] == s[j]
    ensures multiset(s)[s[i]] >= 2
  {
    assert s == s[..j] + [s[j]] + s[j + 1..];
    assert s[i] in s[..j];
  }

  lemma SameMultisetNoDup<T(!new)>(s: seq<T>, t: seq<T>)
    requires NoDup(s) && multiset(s) == multiset(t)
    ensures NoDup(t)
  {
    forall i, j | 0 <= i < j < |t| ensures t[i] != t[j] {
      if t[i] == t[j] {
        TwiceCounts(t, i, j);
        NoDupCounts(s, t[i]);
      }
    }
  }

  /** What is sorted and cut off keeps the best: nothing that is left out scores higher than anything kept. */
  lemma SortedSlice<T(!new)>(list: seq<T>, key: T -> real, limit: int)
    ensures var r := SliceTo(SortDesc(list, key), limit);
      && Descending(r, key) && (forall x :: x in r ==> x in list)
      && (forall x, y :: x in list && x !in r && y in r ==> key(x) <= key(y))
      && (limit >= 0 ==> |r| == Min(limit, |list|))
      && (|r| == |list| ==> forall x :: x in list ==> x in r)
  {
    var sorted := SortDesc(list, key);
    var r := SliceTo(sorted, limit);
    SortDescSorted(list, key);
    SortDescPermutes(list, key);
    SameMultisetSameMembers(list, sorted);
    forall x, y | x in list && x !in r && y in r ensures key(x) <= key(y) {
      assert x in sorted;
      var i :| 0 <= i < |sorted| && sorted[i] == x;
      var j :| 0 <= j < |r| && r[j] == y;
      assert forall n :: 0 <= n < |r| ==> r[n] == sorted[n] && sorted[n] in r;
      assert i >= |r| && sorted[j] == y;
    }
  }
}
