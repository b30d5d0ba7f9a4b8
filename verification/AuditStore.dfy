/**
 The in-memory audit store: chained inserts for any mix of tenants, the read in timestamp order that feeds
 verification, and the filtered, paged query.
 */
module AuditStore {
  import opened AuditAppend
  import opened AuditChain
  import opened AuditOrder
  import opened KeysetPaging
  import opened PageTokens
  import opened Sequences
  import opened Sorting
  import opened Text
  import opened Wrappers

  function OfTenant(tenant: string): Entry -> bool { (e: Entry) => e.content.tenantId == tenant }

  /** A tenant's entries in insertion order. */
  function LogOf(logs: seq<Entry>, tenant: string): seq<Entry> { Filter(logs, OfTenant(tenant)) }

  /** The hash of the tenant's latest entry, found from the back; empty if there is none. */
  function LastHashOf(logs: seq<Entry>, tenant: string): string
  {
    if logs == [] then ""
    else
      var last := logs[|logs| - 1];
      if last.content.tenantId == tenant then last.entryHash else LastHashOf(logs[..|logs| - 1], tenant)
  }

  lemma LogOfAppend(logs: seq<Entry>, e: Entry, tenant: string)
    ensures LogOf(logs + [e], tenant) == LogOf(logs, tenant) + (if e.content.tenantId == tenant then [e] else [])
  {
    FilterConcat(logs, [e], OfTenant(tenant));
    assert [e][1..] == [];
  }

  lemma {:induction false} LastHashIsTail(logs: seq<Entry>, tenant: string)
    ensures LastHashOf(logs, tenant) == PrevHash(LogOf(logs, tenant), |LogOf(logs, tenant)|)
  {
    if logs != [] {
      var n := |logs| - 1;
      assert logs == logs[..n] + [logs[n]];
      LogOfAppend(logs[..n], logs[n], tenant);
      LastHashIsTail(logs[..n], tenant);
    }
  }

  // ---------------------------------------------------------------- ids

  /** `%012d`. */
  function Padded(n: nat): string { Zeros(12 - |DecimalNat(n)|) + DecimalNat(n) }

  function Zeros(k: int): string
    decreases k
  {
    if k <= 0 then "" else "0" + Zeros(k - 1)
  }

  function RowId(n: nat): string { "00000000-0000-0000-0000-" + Padded(n) }

  lemma {:induction false} ZerosAreDigits(k: int, s: string)
    requires AllDigits(s)
    ensures AllDigits(Zeros(k) + s) && DigitsValue(Zeros(k) + s) == DigitsValue(s)
    decreases k
  {
    if k > 0 {
      ZerosAreDigits(k - 1, s);
      assert Zeros(k) + s == "0" + (Zeros(k - 1) + s);
      LeadingZero(Zeros(k - 1) + s);
    } else {
      assert Zeros(k) + s == s;
    }
  }

  lemma {:induction false} LeadingZero(s: string)
    requires AllDigits(s)
    ensures AllDigits("0" + s) && DigitsValue("0" + s) == DigitsValue(s)
  {
    var t := "0" + s;
    if s == [] {
      assert t[..0] == [] && DigitsValue(t[..0]) == 0;
    } else {
      LeadingZero(s[..|s| - 1]);
      assert t[..|t| - 1] == "0" + s[..|s| - 1];
    }
  }

  lemma PaddedValue(n: nat)
    ensures AllDigits(Padded(n)) && DigitsValue(Padded(n)) == n
  {
    ZerosAreDigits(12 - |DecimalNat(n)|, DecimalNat(n));
    DigitsOfDecimal(n);
  }

  lemma SamePrefix(p: string, a: string, b: string)
    requires p + a == p + b
    ensures a == b
  {
    assert (p + a)[|p|..] == a && (p + b)[|p|..] == b;
  }

  lemma RowIdInjective(m: nat, n: nat)
    requires RowId(m) == RowId(n)
    ensures m == n
  {
    SamePrefix("00000000-0000-0000-0000-", Padded(m), Padded(n));
    PaddedValue(m);
    PaddedValue(n);
  }

  lemma RowIdIsSound(n: nat)
    ensures IsBytes(RowId(n)) && RowId(n) != ""
  {
    PaddedValue(n);
  }

  // ---------------------------------------------------------------- queries

  /** The filters of a query; an empty string or a missing bound does not filter. */
  datatype Params = Params(tenant: string, actor: string, fieldPath: string, start: Option<int>, end: Option<int>)

  predicate Passes(q: Params, e: Content)
  {
    && (q.tenant == "" || e.tenantId == q.tenant)
    && (q.actor == "" || e.actor == q.actor)
    && (q.fieldPath == "" || e.fieldPath == Some(q.fieldPath))
    && (q.start.None? || e.createdAt >= q.start.value)
    && (q.end.None? || e.createdAt <= q.end.value)
  }

  function Passing(q: Params): Entry -> bool { (e: Entry) => Passes(q, e.content) }

  function KeyOf(): Entry -> Cursor { (e: Entry) => SortKey(e.content) }

  function AuditPages(q: Params, pageSize: nat): Listing<Entry> { Listing(Passing(q), KeyOf(), pageSize) }

  predicate ByTime(r: seq<Entry>)
  {
    forall i, j :: 0 <= i < j < |r| ==> r[i].content.createdAt <= r[j].content.createdAt
  }

  function PlaceByTime(e: Entry, r: seq<Entry>): (s: seq<Entry>)
    requires ByTime(r)
    ensures multiset(s) == multiset(r) + multiset{e} && ByTime(s)
  {
    if r == [] then [e]
    else if r[|r| - 1].content.createdAt <= e.content.createdAt then
      assert forall i :: 0 <= i < |r| ==> r[i].content.createdAt <= e.content.createdAt;
      r + [e]
    else
      var n := |r| - 1;
      var front := PlaceByTime(e, r[..n]);
      assert r == r[..n] + [r[n]];
      BelowLast(front, r[..n] + [e], r[n]);
      front + [r[n]]
  }

  lemma BelowLast(front: seq<Entry>, members: seq<Entry>, last: Entry)
    requires ByTime(front) && multiset(front) == multiset(members)
    requires forall i :: 0 <= i < |members| ==> members[i].content.createdAt <= last.content.createdAt
    ensures ByTime(front + [last])
  {
    SameMembers(front, members);
    forall i | 0 <= i < |front| ensures front[i].content.createdAt <= last.content.createdAt {
      assert front[i] in members;
    }
  }

  // ---------------------------------------------------------------- the store

  /** Every tenant's entries name and seal one another. */
  ghost predicate Chains(h: Hasher, logs: seq<Entry>)
  {
    forall t :: Honest(h, LogOf(logs, t))
  }

  predicate Numbered(logs: seq<Entry>)
  {
    forall i :: 0 <= i < |logs| ==> logs[i].content.id == RowId(i + 1)
  }

  class MemoryStore {
    const h: Hasher
    var writeLogs: seq<Entry>
    var idCounter: nat

    ghost predicate Valid()
      reads this
    {
      Chains(h, writeLogs) && Numbered(writeLogs) && idCounter == |writeLogs|
    }

    constructor (h: Hasher)
      ensures Valid() && writeLogs == [] && this.h == h
    {
      this.h := h;
      writeLogs, idCounter := [], 0;
    }

    /** Seals the entry on the tenant's latest one; the chains of all tenants stay intact. `now` is the clock. */
    method InsertAuditWriteLog(arg: Content, now: Nanos) returns (e: Entry)
      requires Valid()
      modifies this`writeLogs, this`idCounter
      ensures Valid()
      ensures writeLogs == old(writeLogs) + [e]
      ensures e == old(Seal(h, LastHashOf(writeLogs, arg.tenantId),
              arg.(id := RowId(|writeLogs| + 1), createdAt := now)))
    {
      idCounter := idCounter + 1;
      var id := RowId(idCounter);
      var prevHash := LastHash(arg.tenantId);
      e := Seal(h, prevHash, arg.(id := id, createdAt := now));
      SealKeepsChains(h, writeLogs, arg.(id := id, createdAt := now));
      writeLogs := writeLogs + [e];
    }

    /** The backward scan for the tenant's latest entry. */
    method LastHash(tenant: string) returns (prevHash: string)
      ensures prevHash == LastHashOf(writeLogs, tenant)
    {
      prevHash := "";
      var i := |writeLogs|;
      assert writeLogs[..i] == writeLogs;
      while i > 0
        invariant 0 <= i <= |writeLogs| && prevHash == ""
        invariant LastHashOf(writeLogs[..i], tenant) == LastHashOf(writeLogs, tenant)
      {
        i := i - 1;
        assert writeLogs[..i + 1][..i] == writeLogs[..i];
        if writeLogs[i].content.tenantId == tenant {
          return writeLogs[i].entryHash;
        }
      }
    }

    /** The tenant's entries, oldest first. Entries with equal timestamps may come in either order. */
    method GetAuditWriteLogOrdered(tenant: string) returns (r: seq<Entry>)
      ensures multiset(r) == multiset(LogOf(writeLogs, tenant)) && ByTime(r)
    {
      r := [];
      for i := 0 to |writeLogs|
        invariant ByTime(r) && multiset(r) == multiset(LogOf(writeLogs[..i], tenant))
      {
        assert writeLogs[..i + 1] == writeLogs[..i] + [writeLogs[i]];
        LogOfAppend(writeLogs[..i], writeLogs[i], tenant);
        if writeLogs[i].content.tenantId == tenant {
          r := PlaceByTime(writeLogs[i], r);
        }
      }
      assert writeLogs[..|writeLogs|] == writeLogs;
    }

    /** One page of the filtered log, newest first. As long as ids do not repeat, there is one such page. */
    method QueryAuditWriteLog(q: Params, cursor: Option<Cursor>, offset: nat, limit: nat)
      returns (r: seq<Entry>, ghost sorted: seq<Entry>)
      ensures IsSorted(sorted, Filter(writeLogs, Passing(q)), KeyOf())
              && r == CutFrom(sorted, KeyOf(), cursor, offset, limit)
      ensures Numbered(writeLogs) ==> r == Query(AuditPages(q, 0), writeLogs, cursor, offset, limit)
    {
      var filtered := Select(q);
      r, sorted := Paginate(filtered, KeyOf(), cursor, offset, limit);
      if Numbered(writeLogs) {
        StoredLogIsSound(writeLogs, q, 0);
        FilterKeepsDistinct(writeLogs, Passing(q), KeyOf());
        FilterAll(filtered);
      }
    }

    method Select(q: Params) returns (filtered: seq<Entry>)
      ensures filtered == Filter(writeLogs, Passing(q))
    {
      filtered := [];
      for i := 0 to |writeLogs|
        invariant filtered == Filter(writeLogs[..i], Passing(q))
      {
        FilterStep(writeLogs, i, Passing(q));
        if Passes(q, writeLogs[i].content) {
          filtered := filtered + [writeLogs[i]];
        }
      }
      assert writeLogs[..|writeLogs|] == writeLogs;
    }
  }

  lemma SealKeepsChains(h: Hasher, logs: seq<Entry>, c: Content)
    requires Chains(h, logs)
    ensures Chains(h, logs + [Seal(h, LastHashOf(logs, c.tenantId), c)])
  {
    var e := Seal(h, LastHashOf(logs, c.tenantId), c);
    forall t ensures Honest(h, LogOf(logs + [e], t)) {
      LogOfAppend(logs, e, t);
      LastHashIsTail(logs, t);
      assert Honest(h, LogOf(logs, t));
      if t == c.tenantId { SealExtends(h, LogOf(logs, t), c); } else { assert LogOf(logs, t) + [] == LogOf(logs, t); }
    }
  }

  /** The stored log can be paged through: its keys are distinct and fit into tokens. */
  lemma StoredLogIsSound(logs: seq<Entry>, q: Params, pageSize: nat)
    requires Numbered(logs)
    ensures Sound(AuditPages(q, pageSize), logs)
  {
    forall i | 0 <= i < |logs| ensures SoundKey(KeyOf()(logs[i])) { RowIdIsSound(i + 1); }
    forall i, j | 0 <= i < j < |logs| ensures KeyOf()(logs[i]) != KeyOf()(logs[j]) {
      if RowId(i + 1) == RowId(j + 1) { RowIdInjective(i + 1, j + 1); }
    }
  }

  // ---------------------------------------------------------------- reading in timestamp order

  predicate StrictlyByTime(c: seq<Entry>)
  {
    forall i, j :: 0 <= i < j < |c| ==> c[i].content.createdAt < c[j].content.createdAt
  }

  /** With strictly growing timestamps there is one order by time. */
  lemma OneOrderByTime(c: seq<Entry>, r: seq<Entry>)
    requires StrictlyByTime(c) && ByTime(r) && multiset(r) == multiset(c)
    ensures r == c
  {
    var key := (e: Entry) => Cursor(-(e.content.createdAt as int), "");
    SameMembers(r, c);
    DistinctStaysDistinct(c, r);
    forall i, j | 0 <= i < j < |r| ensures r[i].content.createdAt != r[j].content.createdAt {
      assert r[i] in c && r[j] in c && r[i] != r[j];
    }
    ListingIsUnique(r, c, key);
  }

  function Swapped(c: seq<Entry>, i: nat): seq<Entry>
    requires i + 1 < |c|
  {
    c[..i] + [c[i + 1], c[i]] + c[i + 2..]
  }

  /** Two entries with the same timestamp may be read the other way round, and then verification fails. */
  lemma TieMayBreak(h: Hasher, c: seq<Entry>, i: nat)
    requires h.Binding() && Honest(h, c) && ByTime(c) && i + 1 < |c|
            && c[i].content.createdAt == c[i + 1].content.createdAt
    ensures var r := Swapped(c, i); multiset(r) == multiset(c) && ByTime(r) && !Verified(h, r)
  {
    SwapKeepsOrder(c, i);
    var r := Swapped(c, i);
    assert r[i] == c[i + 1] && PrevHash(r, i) == PrevHash(c, i);
    assert Matches(h, c, i + 1);
    PrevHashShape(h, c, i);
    PrevHashShape(h, c, i + 1);
    HashesDistinct(h, c, i, i + 1);
    assert !Matches(h, r, i);
  }

  lemma SwapKeepsOrder(c: seq<Entry>, i: nat)
    requires ByTime(c) && i + 1 < |c| && c[i].content.createdAt == c[i + 1].content.createdAt
    ensures multiset(Swapped(c, i)) == multiset(c) && ByTime(Swapped(c, i))
  {
    SwapKeepsMembers(c, i);
    var r := Swapped(c, i);
    forall j, k | 0 <= j < k < |r| ensures r[j].content.createdAt <= r[k].content.createdAt {
      assert r[j].content.createdAt == c[j].content.createdAt && r[k].content.createdAt == c[k].content.createdAt;
    }
  }

  lemma SwapKeepsMembers(c: seq<Entry>, i: nat)
    requires i + 1 < |c|
    ensures multiset(Swapped(c, i)) == multiset(c)
  {
    assert c == c[..i] + [c[i], c[i + 1]] + c[i + 2..];
  }

  /** Where timestamps do not grow strictly, two neighbours share one. */
  lemma TiedNeighbours(c: seq<Entry>) returns (i: nat)
    requires ByTime(c) && !StrictlyByTime(c)
    ensures i + 1 < |c| && c[i].content.createdAt == c[i + 1].content.createdAt
  {
    var j, k :| 0 <= j < k < |c| && !(c[j].content.createdAt < c[k].content.createdAt);
    i := j;
    assert c[j].content.createdAt <= c[j + 1].content.createdAt <= c[k].content.createdAt;
  }

  /** A verified arrangement of an honest log is that log. */
  lemma VerifiedOrderIsTheLog(h: Hasher, c: seq<Entry>, r: seq<Entry>)
    requires h.Binding() && Honest(h, c) && multiset(r) == multiset(c) && Verified(h, r)
    ensures r == c
  {
    SameMembers(r, c);
    forall i | 0 <= i < |c| ensures r[i] == c[i] { PrefixIsTheLog(h, c, r, i); }
  }

  lemma {:induction false} PrefixIsTheLog(h: Hasher, c: seq<Entry>, r: seq<Entry>, i: nat)
    requires h.Binding() && Honest(h, c) && Verified(h, r) && i < |c| == |r| && forall x :: x in r ==> x in c
    ensures r[i] == c[i]
  {
    if i > 0 { PrefixIsTheLog(h, c, r, i - 1); }
    assert r[i] in r;
    var k :| 0 <= k < |c| && c[k] == r[i];
    assert Matches(h, r, i) && Matches(h, c, k);
    PrevHashShape(h, c, k);
    PrevHashShape(h, r, i);
    assert PrevHash(c, k) == PrevHash(r, i) == PrevHash(c, i);
    if k < i { HashesDistinct(h, c, k, i); }
    if i < k { HashesDistinct(h, c, i, k); }
  }

  lemma {:induction false} SomeOrderByTime(c: seq<Entry>) returns (r: seq<Entry>)
    ensures multiset(r) == multiset(c) && ByTime(r)
  {
    if c == [] {
      r := [];
    } else {
      var rest := SomeOrderByTime(c[1..]);
      r := PlaceByTime(c[0], rest);
      assert c == [c[0]] + c[1..];
    }
  }

  /**
   Every order by timestamp of an honest log verifies exactly when the timestamps grow strictly in insertion order: the
   clock went forward from each of the tenant's entries to the next.
   */
  lemma OrderedReadVerifiesIff(h: Hasher, c: seq<Entry>)
    requires h.Binding() && Honest(h, c)
    ensures (forall r :: multiset(r) == multiset(c) && ByTime(r) ==> Verified(h, r)) <==> StrictlyByTime(c)
  {
    if StrictlyByTime(c) {
      forall r | multiset(r) == multiset(c) && ByTime(r) ensures Verified(h, r) { OneOrderByTime(c, r); }
    } else if ByTime(c) {
      var i := TiedNeighbours(c);
      TieMayBreak(h, c, i);
    } else {
      var r := SomeOrderByTime(c);
      if Verified(h, r) { VerifiedOrderIsTheLog(h, c, r); }
    }
  }

  /** So it is for every tenant of a store, whatever was written to it. */
  lemma StoredReadVerifiesIff(store: MemoryStore, tenant: string)
    requires store.Valid() && store.h.Binding()
    ensures var c := LogOf(store.writeLogs, tenant);
            (forall r :: multiset(r) == multiset(c) && ByTime(r) ==> Verified(store.h, r)) <==> StrictlyByTime(c)
  {
    assert Honest(store.h, LogOf(store.writeLogs, tenant));
    OrderedReadVerifiesIff(store.h, LogOf(store.writeLogs, tenant));
  }
}
