/** The in-memory configuration cache: resolved snapshots and "no configuration" markers per tenant and version. */
module ConfigCache {
  import opened Lru
  import opened Text
  import opened Wrappers

  datatype CacheEntry = CacheEntry(values: map<string, string>, expiresAt: int)

  type Positive = seq<(string, CacheEntry)>
  type Negative = seq<(string, int)>

  function Key(tenant: string, version: int): string { tenant + ":v" + Decimal(version) }

  /** One key per tenant and version, even for tenant names that contain the separator. */
  lemma KeyInjective(t: string, v: int, u: string, w: int)
    requires Key(t, v) == Key(u, w)
    ensures t == u && v == w
  {
    var a, b, d, e := Key(t, v), Key(u, w), Decimal(v), Decimal(w);
    assert |t| + 2 + |d| == |u| + 2 + |e|;
    assert a[|t|] == ':' && b[|u|] == ':';
    assert a[|t| + 1] == 'v' && b[|u| + 1] == 'v';
    assert forall i :: |t| + 2 <= i < |a| ==> a[i] == d[i - |t| - 2];
    assert forall i :: |u| + 2 <= i < |b| ==> b[i] == e[i - |u| - 2];
    assert |t| == |u|;
    assert t == a[..|t|] == u && d == a[|t| + 2..] == e;
    DecimalInjective(v, w);
  }

  function LiveValues(s: Positive, key: string, now: int): Option<map<string, string>>
  {
    var e := Value(s, key);
    if e.None? || now > e.value.expiresAt then None else Some(e.value.values)
  }

  predicate LiveMarker(s: Negative, key: string, now: int)
  {
    Value(s, key).Some? && now <= Value(s, key).value
  }

  function EntryExpired(now: int): (string, CacheEntry) -> bool { (k: string, e: CacheEntry) => now > e.expiresAt }
  function MarkerExpired(now: int): (string, int) -> bool { (k, exp) => now > exp }
  function EntryOf(tenant: string): (string, CacheEntry) -> bool { (k: string, e: CacheEntry) => tenant + ":" <= k }
  function MarkerOf(tenant: string): (string, int) -> bool { (k: string, exp: int) => tenant + ":" <= k }

  /** A new key at capacity first drops what has expired, then the least recently used entry if still full. */
  function Stored(s: Positive, cap: int, key: string, e: CacheEntry, now: int): Positive
  {
    var room := if Value(s, key).None? && |s| >= cap then DropWhere(s, EntryExpired(now)) else s;
    Put(room, cap, key, e)
  }

  class MemoryCache {
    const lru: LRU<string, CacheEntry>
    const negEntries: LRU<string, int>
    const maxEntries: int

    ghost predicate Valid()
      reads lru, negEntries
    {
      lru.Valid() && negEntries.Valid() && lru as object != negEntries && lru.cap == maxEntries == negEntries.cap
    }

    constructor (max: int)
      ensures Valid() && fresh(lru) && fresh(negEntries)
      ensures lru.Contents() == [] && negEntries.Contents() == []
      ensures maxEntries == if max <= 0 then 10000 else max
    {
      var n := if max <= 0 then 10000 else max;
      maxEntries := n;
      lru := new LRU(n);
      negEntries := new LRU(n);
    }

    method Get(tenant: string, version: int, now: int) returns (r: Option<map<string, string>>)
      requires Valid()
      ensures r == LiveValues(lru.Contents(), Key(tenant, version), now)
    {
      var e := lru.Peek(Key(tenant, version));
      if e.None? || now > e.value.expiresAt {
        return None;
      }
      return Some(e.value.values);
    }

    method Set(tenant: string, version: int, values: map<string, string>, ttl: int, evicted: int, stored: int)
      requires Valid()
      modifies lru
      ensures Valid()
      ensures var e := CacheEntry(values, stored + ttl);
              lru.Contents() == old(Stored(lru.Contents(), maxEntries, Key(tenant, version), e, evicted))
    {
      var k := Key(tenant, version);
      var e := lru.Peek(k);
      var n := lru.Len();
      if e.None? && n >= maxEntries {
        lru.DeleteWhere(EntryExpired(evicted));
      }
      lru.Set(k, CacheEntry(values, stored + ttl));
    }

    /** Deletes every key that starts with the tenant's prefix from both caches. */
    method Invalidate(tenant: string)
      requires Valid()
      modifies lru, negEntries
      ensures Valid()
      ensures lru.Contents() == old(DropWhere(lru.Contents(), EntryOf(tenant)))
      ensures negEntries.Contents() == old(DropWhere(negEntries.Contents(), MarkerOf(tenant)))
    {
      DeleteMatching(lru, EntryOf(tenant));
      DeleteMatching(negEntries, MarkerOf(tenant));
    }

    method SetNegative(tenant: string, version: int, ttl: int, stored: int)
      requires Valid()
      modifies negEntries
      ensures Valid()
      ensures negEntries.Contents() == old(Put(negEntries.Contents(), maxEntries, Key(tenant, version), stored + ttl))
    {
      negEntries.Set(Key(tenant, version), stored + ttl);
    }

    method GetNegative(tenant: string, version: int, now: int) returns (r: bool)
      requires Valid()
      ensures r == LiveMarker(negEntries.Contents(), Key(tenant, version), now)
    {
      var exp := negEntries.Peek(Key(tenant, version));
      return exp.Some? && !(now > exp.value);
    }

    method Sweep(first: int, second: int)
      requires Valid()
      modifies lru, negEntries
      ensures Valid()
      ensures lru.Contents() == old(DropWhere(lru.Contents(), EntryExpired(first)))
      ensures negEntries.Contents() == old(DropWhere(negEntries.Contents(), MarkerExpired(second)))
    {
      lru.DeleteWhere(EntryExpired(first));
      negEntries.DeleteWhere(MarkerExpired(second));
    }
  }

  /** Range over a snapshot of the entries, deleting the ones that match. */
  method DeleteMatching<V>(l: LRU<string, V>, pred: (string, V) -> bool)
    requires l.Valid()
    modifies l
    ensures l.Valid() && l.Contents() == old(DropWhere(l.Contents(), pred))
  {
    IndexedDistinct(l.items, l.order, l.next);
    var entries := l.Range();
    for i := 0 to |entries|
      invariant l.Valid()
      invariant l.Contents() == DropWhere(entries[..i], pred) + entries[i..]
    {
      var e := entries[i];
      DropWhereStep(entries, i, pred);
      if pred(e.0, e.1) {
        l.Delete(e.0);
      }
    }
    assert entries[..|entries|] == entries;
  }

  lemma DropWhereStep<V>(s: seq<(string, V)>, i: nat, pred: (string, V) -> bool)
    requires DistinctKeys(s) && i < |s|
    ensures var before, after := DropWhere(s[..i], pred) + s[i..], DropWhere(s[..i + 1], pred) + s[i + 1..];
            if pred(s[i].0, s[i].1) then Without(before, s[i].0) == after else before == after
  {
    var d := DropWhere(s[..i], pred);
    assert s[..i + 1] == s[..i] + [s[i]] && s[i..] == [s[i]] + s[i + 1..];
    DropWhereLast(s[..i], s[i], pred);
    if pred(s[i].0, s[i].1) {
      KeptKeysDiffer(s, i, pred);
      TakenOut(d, s[i], s[i + 1..]);
    } else {
      assert d + ([s[i]] + s[i + 1..]) == d + [s[i]] + s[i + 1..];
    }
  }

  lemma KeptKeysDiffer<V>(s: seq<(string, V)>, i: nat, pred: (string, V) -> bool)
    requires DistinctKeys(s) && i < |s|
    ensures var d := DropWhere(s[..i], pred); forall j :: 0 <= j < |d| ==> d[j].0 != s[i].0
  {
    var d := DropWhere(s[..i], pred);
    DropWhereMembers(s[..i], pred);
    forall j | 0 <= j < |d| ensures d[j].0 != s[i].0 { assert d[j] in s[..i]; }
  }

  lemma DropWhereLast<V>(s: seq<(string, V)>, x: (string, V), pred: (string, V) -> bool)
    ensures DropWhere(s + [x], pred) == if pred(x.0, x.1) then DropWhere(s, pred) else DropWhere(s, pred) + [x]
  {
    DropWhereConcat(s, [x], pred);
    assert [x][1..] == [] && DropWhere([x], pred) == if pred(x.0, x.1) then [] else [x];
  }

  /** Deleting a key that occurs once takes out its entry. */
  lemma {:induction false} TakenOut<V>(before: seq<(string, V)>, x: (string, V), after: seq<(string, V)>)
    requires forall j :: 0 <= j < |before| ==> before[j].0 != x.0
    requires forall j :: 0 <= j < |after| ==> after[j].0 != x.0
    ensures Without(before + ([x] + after), x.0) == before + after
  {
    var all := before + ([x] + after);
    if before == [] {
      WithoutAbsent(after, x.0);
      assert all[0] == x && all[1..] == after && before + after == after;
    } else {
      TakenOut(before[1..], x, after);
      assert all[0] == before[0] && all[1..] == before[1..] + ([x] + after);
      assert before + after == [before[0]] + (before[1..] + after);
    }
  }
}
