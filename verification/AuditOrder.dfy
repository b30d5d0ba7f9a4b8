/** Recovering insertion order from the previous-hash links. */
module AuditOrder {
  import opened AuditChain
  import opened Sorting

  // ---------------------------------------------------------------- sortByChain

  /** The lookup table over the first `n` entries; a later entry replaces an earlier one with the same key. */
  function ByPrevious(es: seq<Entry>, n: nat): (m: map<string, Entry>)
    requires n <= |es|
    ensures forall p :: p in m ==> m[p].previousHash == p && m[p] in es
  {
    if n == 0 then map[] else ByPrevious(es, n - 1)[es[n - 1].previousHash := es[n - 1]]
  }

  function Hashes(m: map<string, Entry>): set<string> { set p | p in m :: m[p].entryHash }

  /** Follow the links from `current` until they end or lead back to a hash already visited. */
  function Walk(m: map<string, Entry>, current: Entry, seen: set<string>): seq<Entry>
    requires current in m.Values
    decreases Hashes(m) - seen
  {
    if current.entryHash in seen then []
    else
      assert current.entryHash in Hashes(m);
      [current] + (if current.entryHash in m then Walk(m, m[current.entryHash], seen + {current.entryHash}) else [])
  }

  /** The reordering as a function: the walk from the root when it visits every entry, otherwise the input. */
  function ChainOrder(entries: seq<Entry>): seq<Entry>
  {
    var m := ByPrevious(entries, |entries|);
    if |entries| <= 1 || "" !in m then entries
    else
      var ordered := Walk(m, m[""], {});
      if |ordered| != |entries| then entries else ordered
  }

  lemma WalkUnfolds(m: map<string, Entry>, current: Entry, seen: set<string>, before: seq<Entry>)
    requires current in m.Values && current.entryHash !in seen
    ensures current.entryHash in Hashes(m)
    ensures before + Walk(m, current, seen)
            == before + [current]
               + (if current.entryHash in m then Walk(m, m[current.entryHash], seen + {current.entryHash}) else [])
  {}

  method FollowLinks(byPrev: map<string, Entry>) returns (ordered: seq<Entry>)
    requires "" in byPrev
    ensures ordered == Walk(byPrev, byPrev[""], {})
  {
    ordered := [];
    var current := byPrev[""];
    var seen: set<string> := {};
    while current.entryHash !in seen
      invariant current in byPrev.Values
      invariant ordered + Walk(byPrev, current, seen) == Walk(byPrev, byPrev[""], {})
      decreases Hashes(byPrev) - seen
    {
      WalkUnfolds(byPrev, current, seen, ordered);
      ordered := ordered + [current];
      seen := seen + {current.entryHash};
      if current.entryHash !in byPrev {
        return;
      }
      current := byPrev[current.entryHash];
    }
  }

  method SortByChain(entries: seq<Entry>) returns (result: seq<Entry>)
    ensures result == ChainOrder(entries)
    ensures multiset(result) == multiset(entries)
  {
    ChainOrderIsPermutation(entries);
    if |entries| <= 1 {
      return entries;
    }
    var byPrev: map<string, Entry> := map[];
    for i := 0 to |entries|
      invariant byPrev == ByPrevious(entries, i)
    {
      byPrev := byPrev[entries[i].previousHash := entries[i]];
    }
    if "" !in byPrev {
      return entries;
    }
    var ordered := FollowLinks(byPrev);
    if |ordered| != |entries| {
      return entries;
    }
    return ordered;
  }

  lemma {:induction false} WalkVisitsOnce(m: map<string, Entry>, current: Entry, seen: set<string>)
    requires current in m.Values
    ensures forall i :: 0 <= i < |Walk(m, current, seen)| ==>
              Walk(m, current, seen)[i] in m.Values && Walk(m, current, seen)[i].entryHash !in seen
    ensures forall i, j :: 0 <= i < j < |Walk(m, current, seen)| ==>
            Walk(m, current, seen)[i] != Walk(m, current, seen)[j]
    decreases Hashes(m) - seen
  {
    if current.entryHash !in seen && current.entryHash in m {
      assert current.entryHash in Hashes(m);
      WalkVisitsOnce(m, m[current.entryHash], seen + {current.entryHash});
    }
  }

  /** Whatever the input, forked, cyclic or disconnected, no entry is lost, invented or repeated. */
  lemma ChainOrderIsPermutation(entries: seq<Entry>)
    ensures multiset(ChainOrder(entries)) == multiset(entries)
  {
    var m := ByPrevious(entries, |entries|);
    if |entries| > 1 && "" in m {
      var ordered := Walk(m, m[""], {});
      WalkVisitsOnce(m, m[""], {});
      if |ordered| == |entries| {
        forall i | 0 <= i < |ordered| ensures ordered[i] in entries {
          assert ordered[i] in m.Values;
        }
        DistinctSelectionIsPermutation(ordered, entries);
      }
    }
  }

  // ---------------------------------------------------------------- honest logs

  /** Entries in insertion order, each naming and sealing the one before it. */
  ghost predicate Honest(h: Hasher, c: seq<Entry>)
  {
    Linked(c) && Verified(h, c)
  }

  lemma {:induction false} ByPreviousFinds(es: seq<Entry>, n: nat, e: Entry)
    requires n <= |es| && e in es[..n]
    requires forall f :: f in es && f.previousHash == e.previousHash ==> f == e
    ensures e.previousHash in ByPrevious(es, n) && ByPrevious(es, n)[e.previousHash] == e
  {
    if es[n - 1].previousHash != e.previousHash {
      assert es[..n] == es[..n - 1] + [es[n - 1]];
      ByPreviousFinds(es, n - 1, e);
    } else {
      assert es[n - 1] in es;
    }
  }

  lemma LinksAreUnique(h: Hasher, c: seq<Entry>, e: Entry, f: Entry)
    requires h.Binding() && Honest(h, c) && e in c && f in c && e.previousHash == f.previousHash
    ensures e == f
  {
    var i :| 0 <= i < |c| && c[i] == e;
    var j :| 0 <= j < |c| && c[j] == f;
    assert PrevHash(c, i) == PrevHash(c, j);
    if i < j { HashesDistinct(h, c, i, j); }
    if j < i { HashesDistinct(h, c, j, i); }
  }

  function HashesBefore(c: seq<Entry>, i: nat): set<string>
    requires i <= |c|
  {
    set k | 0 <= k < i :: c[k].entryHash
  }

  lemma {:induction false} WalkFollowsChain(h: Hasher, c: seq<Entry>, m: map<string, Entry>, i: nat)
    requires h.Binding() && Honest(h, c) && i < |c|
    requires forall k :: 0 <= k < |c| ==> c[k].previousHash in m && m[c[k].previousHash] == c[k]
    requires forall p :: p in m ==> m[p] in c && m[p].previousHash == p
    ensures c[i] in m.Values && Walk(m, c[i], HashesBefore(c, i)) == c[i..]
    decreases |c| - i
  {
    assert m[c[i].previousHash] == c[i];
    var last := c[i].entryHash;
    HashIsNew(h, c, i);
    assert HashesBefore(c, i) + {last} == HashesBefore(c, i + 1);
    if i + 1 < |c| {
      assert PrevHash(c, i + 1) == last && c[i + 1].previousHash == last;
      WalkFollowsChain(h, c, m, i + 1);
      assert c[i..] == [c[i]] + c[i + 1..];
    } else {
      if last in m {
        var k :| 0 <= k < |c| && c[k] == m[last];
        assert PrevHash(c, k) == last && PrevHash(c, i + 1) == last;
        HashesDistinct(h, c, k, i + 1);
      }
    }
  }

  lemma HashIsNew(h: Hasher, c: seq<Entry>, i: nat)
    requires h.Binding() && Honest(h, c) && i < |c|
    ensures c[i].entryHash !in HashesBefore(c, i)
  {
    forall k | 0 <= k < i ensures c[k].entryHash != c[i].entryHash {
      assert PrevHash(c, k + 1) == c[k].entryHash && PrevHash(c, i + 1) == c[i].entryHash;
      HashesDistinct(h, c, k + 1, i + 1);
    }
  }

  /** Fetched in any order, an honest log comes back in insertion order and verifies. */
  lemma ShuffledLogIsRecovered(h: Hasher, c: seq<Entry>, entries: seq<Entry>)
    requires h.Binding() && Honest(h, c) && multiset(c) == multiset(entries)
    ensures ChainOrder(entries) == c && Verified(h, ChainOrder(entries))
  {
    SameMembers(c, entries);
    if |c| <= 1 {
      assert c == entries by { if |c| == 1 { assert entries[0] in c; } }
    } else {
      var m := ByPrevious(entries, |entries|);
      assert entries[..|entries|] == entries;
      forall k | 0 <= k < |c| ensures c[k].previousHash in m && m[c[k].previousHash] == c[k] {
        assert c[k] in c;
        forall f | f in entries && f.previousHash == c[k].previousHash ensures f == c[k] {
          LinksAreUnique(h, c, f, c[k]);
        }
        ByPreviousFinds(entries, |entries|, c[k]);
      }
      WalkFollowsChain(h, c, m, 0);
      assert PrevHash(c, 0) == "" && c[0].previousHash == "";
      assert c[0..] == c && HashesBefore(c, 0) == {};
    }
  }
}
