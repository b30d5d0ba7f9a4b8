/** The bounded cache with least-recently-used eviction: a key index beside a recency list. */
module Lru {
  import opened Wrappers

  // ---------------------------------------------------------------- a recency-ordered sequence, oldest first

  function Without<K(==), V>(s: seq<(K, V)>, k: K): seq<(K, V)>
  {
    if s == [] then [] else (if s[0].0 == k then [] else [s[0]]) + Without(s[1..], k)
  }

  function Value<K(==), V>(s: seq<(K, V)>, k: K): (r: Option<V>)
    ensures r.Some? <==> exists i :: 0 <= i < |s| && s[i].0 == k
  {
    if s == [] then None else if s[0].0 == k then Some(s[0].1) else Value(s[1..], k)
  }

  /** A read that promotes. */
  function Touched<K(==), V>(s: seq<(K, V)>, k: K): seq<(K, V)>
  {
    if Value(s, k).Some? then Without(s, k) + [(k, Value(s, k).value)] else s
  }

  /** A write: the key becomes the newest, and a new key at capacity pushes out the oldest. */
  function Put<K(==), V>(s: seq<(K, V)>, cap: int, k: K, v: V): seq<(K, V)>
  {
    if Value(s, k).Some? then Without(s, k) + [(k, v)]
    else (if |s| >= cap && s != [] then s[1..] else s) + [(k, v)]
  }

  function DropWhere<K, V>(s: seq<(K, V)>, pred: (K, V) -> bool): seq<(K, V)>
  {
    if s == [] then [] else (if pred(s[0].0, s[0].1) then [] else [s[0]]) + DropWhere(s[1..], pred)
  }

  predicate DistinctKeys<K(==), V>(s: seq<(K, V)>) { forall i, j :: 0 <= i < j < |s| ==> s[i].0 != s[j].0 }

  lemma {:induction false} ValueAt<K, V>(s: seq<(K, V)>, i: nat)
    requires DistinctKeys(s) && i < |s|
    ensures Value(s, s[i].0) == Some(s[i].1)
  {
    if i > 0 { ValueAt(s[1..], i - 1); }
  }

  lemma {:induction false} WithoutAbsent<K, V>(s: seq<(K, V)>, k: K)
    requires forall i :: 0 <= i < |s| ==> s[i].0 != k
    ensures Without(s, k) == s
  {
    if s != [] { WithoutAbsent(s[1..], k); assert s == [s[0]] + s[1..]; }
  }

  /** With distinct keys, dropping a key drops one position. */
  lemma {:induction false} WithoutAt<K, V>(s: seq<(K, V)>, i: nat)
    requires DistinctKeys(s) && i < |s|
    ensures Without(s, s[i].0) == s[..i] + s[i + 1..]
  {
    if i == 0 {
      WithoutAbsent(s[1..], s[0].0);
      assert s[..0] + s[1..] == s[1..];
    } else {
      WithoutAt(s[1..], i - 1);
      assert s[..i] + s[i + 1..] == [s[0]] + (s[1..][..i - 1] + s[1..][i..]);
    }
  }

  lemma {:induction false} WithoutConcat<K, V>(a: seq<(K, V)>, b: seq<(K, V)>, k: K)
    ensures Without(a + b, k) == Without(a, k) + Without(b, k)
  {
    if a == [] {
      assert a + b == b;
    } else {
      assert (a + b)[1..] == a[1..] + b;
      WithoutConcat(a[1..], b, k);
    }
  }

  lemma {:induction false} DropWhereConcat<K, V>(a: seq<(K, V)>, b: seq<(K, V)>, pred: (K, V) -> bool)
    ensures DropWhere(a + b, pred) == DropWhere(a, pred) + DropWhere(b, pred)
  {
    if a == [] {
      assert a + b == b;
    } else {
      assert (a + b)[1..] == a[1..] + b;
      DropWhereConcat(a[1..], b, pred);
    }
  }

  lemma {:induction false} WithoutMembers<K, V>(s: seq<(K, V)>, k: K)
    ensures forall x :: x in Without(s, k) ==> x in s && x.0 != k
    ensures DistinctKeys(s) ==> DistinctKeys(Without(s, k))
  {
    if s != [] { WithoutMembers(s[1..], k); }
  }

  lemma {:induction false} DropWhereMembers<K, V>(s: seq<(K, V)>, pred: (K, V) -> bool)
    ensures forall x :: x in DropWhere(s, pred) ==> x in s && !pred(x.0, x.1)
    ensures DistinctKeys(s) ==> DistinctKeys(DropWhere(s, pred))
    ensures |DropWhere(s, pred)| <= |s|
  {
    if s != [] {
      var rest := DropWhere(s[1..], pred);
      DropWhereMembers(s[1..], pred);
      if DistinctKeys(s) {
        forall j | 0 <= j < |rest| ensures rest[j].0 != s[0].0 { assert rest[j] in s[1..]; }
      }
      assert DropWhere(s, pred) == if pred(s[0].0, s[0].1) then rest else [s[0]] + rest;
    }
  }

  lemma WithoutShrinks<K, V>(s: seq<(K, V)>, k: K)
    requires DistinctKeys(s)
    ensures |Without(s, k)| == if Value(s, k).Some? then |s| - 1 else |s|
  {
    if Value(s, k).Some? {
      var i :| 0 <= i < |s| && s[i].0 == k;
      WithoutAt(s, i);
    } else {
      WithoutAbsent(s, k);
    }
  }

  lemma AppendDistinct<K, V>(s: seq<(K, V)>, k: K, v: V)
    requires DistinctKeys(s) && forall x :: x in s ==> x.0 != k
    ensures DistinctKeys(s + [(k, v)])
  {
    forall i | 0 <= i < |s| ensures s[i].0 != k { assert s[i] in s; }
  }

  /**
   A write keeps keys distinct and, for a positive capacity, the size within it; the key written becomes the newest.
   */
  lemma PutBounded<K, V>(s: seq<(K, V)>, cap: int, k: K, v: V)
    requires DistinctKeys(s) && 1 <= cap && |s| <= cap
    ensures DistinctKeys(Put(s, cap, k, v)) && |Put(s, cap, k, v)| <= cap
    ensures exists a :: Put(s, cap, k, v) == a + [(k, v)]
  {
    var a := if Value(s, k).Some? then Without(s, k) else if |s| >= cap then s[1..] else s;
    WithoutMembers(s, k);
    WithoutShrinks(s, k);
    assert forall x :: x in a ==> x.0 != k;
    AppendDistinct(a, k, v);
    assert Put(s, cap, k, v) == a + [(k, v)];
  }

  // ---------------------------------------------------------------- what lookups see

  lemma {:induction false} ValueOfConcat<K, V>(a: seq<(K, V)>, b: seq<(K, V)>, k: K)
    ensures Value(a + b, k) == if Value(a, k).Some? then Value(a, k) else Value(b, k)
  {
    if a == [] {
      assert a + b == b;
    } else {
      assert (a + b)[0] == a[0] && (a + b)[1..] == a[1..] + b;
      ValueOfConcat(a[1..], b, k);
    }
  }

  lemma {:induction false} WithoutLookup<K, V>(s: seq<(K, V)>, k: K, j: K)
    ensures Value(Without(s, k), j) == if j == k then None else Value(s, j)
  {
    if s != [] {
      var first := if s[0].0 == k then [] else [s[0]];
      ValueOfConcat(first, Without(s[1..], k), j);
      WithoutLookup(s[1..], k, j);
    }
  }

  /** A write sets its key and disturbs no other, except the oldest one when a new key comes to a full cache. */
  lemma PutLookup<K, V>(s: seq<(K, V)>, cap: int, k: K, v: V, j: K)
    requires DistinctKeys(s)
    ensures Value(Put(s, cap, k, v), j) ==
              if j == k then Some(v)
              else if Value(s, k).None? && |s| >= cap && s != [] && s[0].0 == j then None
              else Value(s, j)
  {
    var last := [(k, v)];
    assert Value(last, j) == if j == k then Some(v) else None by { assert last[1..] == []; }
    if Value(s, k).Some? {
      WithoutLookup(s, k, j);
      ValueOfConcat(Without(s, k), last, j);
    } else if |s| >= cap && s != [] {
      ValueOfConcat(s[1..], last, j);
      if s[0].0 == j { assert forall i :: 0 <= i < |s[1..]| ==> s[1..][i].0 != j; }
    } else {
      ValueOfConcat(s, last, j);
    }
  }

  /** A promoting read changes the order only. */
  lemma TouchedLookup<K, V>(s: seq<(K, V)>, k: K, j: K)
    ensures Value(Touched(s, k), j) == Value(s, j)
    ensures Value(s, k).Some? ==> Touched(s, k) != [] && Touched(s, k)[|Touched(s, k)| - 1].0 == k
  {
    if Value(s, k).Some? {
      var last := [(k, Value(s, k).value)];
      assert Value(last, j) == if j == k then Value(s, k) else None by { assert last[1..] == []; }
      WithoutLookup(s, k, j);
      ValueOfConcat(Without(s, k), last, j);
    }
  }

  lemma {:induction false} DropWhereLookup<K, V>(s: seq<(K, V)>, pred: (K, V) -> bool, j: K)
    requires DistinctKeys(s)
    ensures Value(DropWhere(s, pred), j)
            == if Value(s, j).Some? && pred(j, Value(s, j).value) then None else Value(s, j)
  {
    if s != [] {
      var first := if pred(s[0].0, s[0].1) then [] else [s[0]];
      ValueOfConcat(first, DropWhere(s[1..], pred), j);
      DropWhereLookup(s[1..], pred, j);
      if s[0].0 == j { assert forall i :: 0 <= i < |s[1..]| ==> s[1..][i].0 != j; }
    }
  }

  // ---------------------------------------------------------------- the data structure

  /** A list element; `id` stands for its address. */
  datatype Element<K, V> = Element(id: nat, key: K, val: V)

  function Pairs<K, V>(order: seq<Element<K, V>>): seq<(K, V)>
  {
    seq(|order|, i requires 0 <= i < |order| => (order[i].key, order[i].val))
  }

  /** Position of the element with address `id`. */
  function Position<K, V>(order: seq<Element<K, V>>, id: nat): (i: nat)
    requires exists i :: 0 <= i < |order| && order[i].id == id
    ensures i < |order| && order[i].id == id
  {
    if order[0].id == id then 0
    else
      assert exists i :: 0 <= i < |order[1..]| && order[1..][i].id == id by {
        var i :| 0 <= i < |order| && order[i].id == id;
        assert order[1..][i - 1].id == id;
      }
      1 + Position(order[1..], id)
  }

  function RemoveAt<T>(s: seq<T>, i: nat): seq<T>
    requires i < |s|
  {
    s[..i] + s[i + 1..]
  }

  ghost predicate HasKey<K, V>(order: seq<Element<K, V>>, k: K) { exists i :: 0 <= i < |order| && order[i].key == k }

  /** The index and the list are in bijection. */
  ghost predicate Indexed<K, V>(items: map<K, nat>, order: seq<Element<K, V>>, next: nat)
  {
    && (forall i, j :: 0 <= i < j < |order| ==> order[i].id != order[j].id)
    && (forall i :: 0 <= i < |order| ==>
          order[i].id < next && order[i].key in items && items[order[i].key] == order[i].id)
    && (forall k :: k in items ==> HasKey(order, k))
  }

  lemma IndexedDistinct<K, V>(items: map<K, nat>, order: seq<Element<K, V>>, next: nat)
    requires Indexed(items, order, next)
    ensures DistinctKeys(Pairs(order))
  {}

  lemma IndexedLocate<K, V>(items: map<K, nat>, order: seq<Element<K, V>>, next: nat, k: K) returns (i: nat)
    requires Indexed(items, order, next) && k in items
    ensures i < |order| && order[i].key == k && order[i].id == items[k] && i == Position(order, items[k])
  {
    assert HasKey(order, k);
    var j :| 0 <= j < |order| && order[j].key == k;
    assert order[j].id == items[k];
    i := Position(order, items[k]);
  }

  lemma IndexedFind<K, V>(items: map<K, nat>, order: seq<Element<K, V>>, next: nat, k: K) returns (i: nat)
    requires Indexed(items, order, next) && k in items
    ensures i < |order| && order[i].key == k && order[i].id == items[k] && i == Position(order, items[k])
    ensures Value(Pairs(order), k) == Some(order[i].val) && Without(Pairs(order), k) == Pairs(RemoveAt(order, i))
  {
    i := IndexedLocate(items, order, next, k);
    IndexedDistinct(items, order, next);
    PairsAt(order, i);
  }

  lemma PairsAt<K, V>(order: seq<Element<K, V>>, i: nat)
    requires DistinctKeys(Pairs(order)) && i < |order|
    ensures Value(Pairs(order), order[i].key) == Some(order[i].val)
    ensures Without(Pairs(order), order[i].key) == Pairs(RemoveAt(order, i))
  {
    ValueAt(Pairs(order), i);
    WithoutAt(Pairs(order), i);
    assert Pairs(RemoveAt(order, i)) == RemoveAt(Pairs(order), i);
  }

  lemma IndexedAbsent<K, V>(items: map<K, nat>, order: seq<Element<K, V>>, next: nat, k: K)
    requires Indexed(items, order, next) && k !in items
    ensures Value(Pairs(order), k).None? && Without(Pairs(order), k) == Pairs(order)
  {
    WithoutAbsent(Pairs(order), k);
  }

  /** Where position `j` of the shortened list was before. */
  function Shifted(i: nat, j: nat): nat { if j < i then j else j + 1 }

  lemma RemovedAt<T>(s: seq<T>, i: nat, j: nat)
    requires i < |s| && j + 1 < |s|
    ensures RemoveAt(s, i)[j] == s[Shifted(i, j)]
  {}

  lemma IndexedRemove<K, V>(items: map<K, nat>, order: seq<Element<K, V>>, next: nat, i: nat)
    requires Indexed(items, order, next) && i < |order|
    ensures Indexed(items - {order[i].key}, RemoveAt(order, i), next)
  {
    var gone, rest := order[i].key, RemoveAt(order, i);
    forall a, b | 0 <= a < b < |rest| ensures rest[a].id != rest[b].id {
      RemovedAt(order, i, a);
      RemovedAt(order, i, b);
    }
    forall a | 0 <= a < |rest|
      ensures rest[a].id < next && rest[a].key in items && rest[a].key != gone && items[rest[a].key] == rest[a].id
    {
      RemovedAt(order, i, a);
      assert order[i].id != order[Shifted(i, a)].id;
    }
    forall k | k in items - {gone} ensures HasKey(rest, k) {
      var j := IndexedLocate(items, order, next, k);
      var a := if j < i then j else j - 1;
      RemovedAt(order, i, a);
      assert rest[a].key == k;
    }
  }

  lemma IndexedAppend<K, V>(items: map<K, nat>, order: seq<Element<K, V>>, next: nat, e: Element<K, V>)
    requires Indexed(items, order, next) && e.key !in items && forall i :: 0 <= i < |order| ==> order[i].id != e.id
    ensures Indexed(items[e.key := e.id], order + [e], if e.id < next then next else e.id + 1)
    ensures Pairs(order + [e]) == Pairs(order) + [(e.key, e.val)]
  {
    var longer := order + [e];
    forall k | k in items[e.key := e.id] ensures HasKey(longer, k) {
      if k == e.key {
        assert longer[|order|].key == k;
      } else {
        assert HasKey(order, k);
        var j :| 0 <= j < |order| && order[j].key == k;
        assert longer[j].key == k;
      }
    }
  }

  /** `MoveToBack`, possibly with a new value. */
  lemma IndexedMove<K, V>(items: map<K, nat>, order: seq<Element<K, V>>, next: nat, i: nat, v: V)
    requires Indexed(items, order, next) && i < |order|
    ensures Indexed(items, RemoveAt(order, i) + [order[i].(val := v)], next)
    ensures Pairs(RemoveAt(order, i) + [order[i].(val := v)]) == Pairs(RemoveAt(order, i)) + [(order[i].key, v)]
  {
    var e := order[i].(val := v);
    IndexedRemove(items, order, next, i);
    IndexedAppend(items - {e.key}, RemoveAt(order, i), next, e);
    assert (items - {e.key})[e.key := e.id] == items;
  }

  lemma PairsWithoutFront<K, V>(order: seq<Element<K, V>>)
    requires order != []
    ensures Pairs(RemoveAt(order, 0)) == Pairs(order)[1..]
  {}

  class LRU<K(==), V> {
    const cap: int
    var items: map<K, nat>
    var order: seq<Element<K, V>>
    var next: nat

    ghost predicate Valid()
      reads this
    {
      Indexed(items, order, next)
    }

    ghost function Contents(): seq<(K, V)>
      reads this
    {
      Pairs(order)
    }

    constructor (cap: int)
      ensures Valid() && Contents() == [] && this.cap == cap
    {
      this.cap := cap;
      items, order, next := map[], [], 0;
    }

    method Peek(k: K) returns (r: Option<V>)
      requires Valid()
      ensures r == Value(Contents(), k)
    {
      if k !in items {
        IndexedAbsent(items, order, next, k);
        return None;
      }
      ghost var i := IndexedFind(items, order, next, k);
      r := Some(order[Position(order, items[k])].val);
    }

    method Get(k: K) returns (r: Option<V>)
      requires Valid()
      modifies this`order
      ensures Valid()
      ensures r == old(Value(Contents(), k)) && Contents() == old(Touched(Contents(), k))
    {
      if k !in items {
        IndexedAbsent(items, order, next, k);
        return None;
      }
      ghost var f := IndexedFind(items, order, next, k);
      var i := Position(order, items[k]);
      r := Some(order[i].val);
      IndexedMove(items, order, next, i, order[i].val);
      order := RemoveAt(order, i) + [order[i]];
    }

    /** Adds or updates; a new key at capacity evicts the oldest entry first. */
    method Set(k: K, v: V)
      requires Valid()
      modifies this
      ensures Valid()
      ensures Contents() == old(Put(Contents(), cap, k, v))
    {
      if k in items {
        ghost var f := IndexedFind(items, order, next, k);
        var i := Position(order, items[k]);
        IndexedMove(items, order, next, i, v);
        order := RemoveAt(order, i) + [order[i].(val := v)];
        return;
      }
      IndexedAbsent(items, order, next, k);
      if |order| >= cap && order != [] {
        EvictFront();
      }
      IndexedAppend(items, order, next, Element(next, k, v));
      items := items[k := next];
      order := order + [Element(next, k, v)];
      next := next + 1;
    }

    method EvictFront()
      requires Valid() && order != []
      modifies this
      ensures Valid() && next == old(next)
      ensures Contents() == old(Contents())[1..] && items.Keys <= old(items.Keys)
    {
      IndexedRemove(items, order, next, 0);
      PairsWithoutFront(order);
      items, order := items - {order[0].key}, RemoveAt(order, 0);
    }

    method Delete(k: K)
      requires Valid()
      modifies this
      ensures Valid()
      ensures Contents() == old(Without(Contents(), k))
    {
      if k !in items {
        IndexedAbsent(items, order, next, k);
        return;
      }
      ghost var f := IndexedFind(items, order, next, k);
      var i := Position(order, items[k]);
      IndexedRemove(items, order, next, i);
      items := items - {k};
      order := RemoveAt(order, i);
    }

    method Len() returns (n: nat)
      requires Valid()
      ensures n == |Contents()|
    {
      SizesAgree(items, order, next);
      n := |items|;
    }

    /** The entries in order, oldest first, snapshotted so that the caller may delete while going through them. */
    method Range() returns (entries: seq<(K, V)>)
      requires Valid()
      ensures entries == Contents()
    {
      entries := [];
      for i := 0 to |order|
        invariant entries == Pairs(order)[..i]
      {
        entries := entries + [(order[i].key, order[i].val)];
      }
    }

    /** Collects the matching keys in map order and then deletes them one by one. */
    method DeleteWhere(pred: (K, V) -> bool)
      requires Valid()
      modifies this
      ensures Valid()
      ensures Contents() == old(DropWhere(Contents(), pred))
    {
      ghost var start := Contents();
      var toDelete: seq<K> := [];
      var rest := items.Keys;
      while rest != {}
        invariant items == old(items) && order == old(order) && next == old(next)
        invariant rest <= items.Keys
        invariant forall k :: k in items && k !in rest ==> (k in toDelete <==> Matches(start, pred, k))
        invariant forall k :: k in toDelete ==> k in items && k !in rest
      {
        var k :| k in rest;
        ghost var f := IndexedFind(items, order, next, k);
        if pred(k, order[Position(order, items[k])].val) {
          toDelete := toDelete + [k];
        }
        rest := rest - {k};
      }
      IndexedDistinct(items, order, next);
      DropNone(start);
      forall i | 0 <= i < |start| ensures start[i].0 in toDelete <==> pred(start[i].0, start[i].1) {
        ValueAt(start, i);
        assert order[i].key in items;
      }
      for i := 0 to |toDelete|
        invariant Valid() && Contents() == Drop(start, toDelete[..i])
      {
        DropOne(start, toDelete, i);
        Delete(toDelete[i]);
      }
      assert toDelete[..|toDelete|] == toDelete;
      DropIsDropWhere(start, toDelete, pred);
    }
  }

  ghost predicate Matches<K, V>(s: seq<(K, V)>, pred: (K, V) -> bool, k: K)
  {
    Value(s, k).Some? && pred(k, Value(s, k).value)
  }

  /** The entries whose keys are not listed. */
  function Drop<K(==), V>(s: seq<(K, V)>, ks: seq<K>): seq<(K, V)>
  {
    if s == [] then [] else (if s[0].0 in ks then [] else [s[0]]) + Drop(s[1..], ks)
  }

  lemma {:induction false} DropNone<K, V>(s: seq<(K, V)>)
    ensures Drop(s, []) == s
  {
    if s != [] { DropNone(s[1..]); assert s == [s[0]] + s[1..]; }
  }

  lemma {:induction false} DropOne<K, V>(s: seq<(K, V)>, ks: seq<K>, n: nat)
    requires n < |ks|
    ensures Drop(s, ks[..n + 1]) == Without(Drop(s, ks[..n]), ks[n])
  {
    if s != [] {
      DropOne(s[1..], ks, n);
      assert ks[..n + 1] == ks[..n] + [ks[n]];
      var d := Drop(s[1..], ks[..n]);
      if s[0].0 !in ks[..n] {
        assert ([s[0]] + d)[1..] == d;
      } else {
        assert [] + d == d;
      }
    }
  }

  lemma {:induction false} DropIsDropWhere<K, V>(s: seq<(K, V)>, ks: seq<K>, pred: (K, V) -> bool)
    requires forall i :: 0 <= i < |s| ==> (s[i].0 in ks <==> pred(s[i].0, s[i].1))
    ensures Drop(s, ks) == DropWhere(s, pred)
  {
    if s != [] { DropIsDropWhere(s[1..], ks, pred); }
  }

  lemma {:induction false} SizesAgree<K, V>(items: map<K, nat>, order: seq<Element<K, V>>, next: nat)
    requires Indexed(items, order, next)
    ensures |items| == |order|
  {
    if order == [] {
      assert forall k :: k in items ==> HasKey(order, k);
      assert items == map[];
    } else {
      IndexedRemove(items, order, next, 0);
      var rest := items - {order[0].key};
      SizesAgree(rest, RemoveAt(order, 0), next);
      assert items.Keys == rest.Keys + {order[0].key};
    }
  }
}
