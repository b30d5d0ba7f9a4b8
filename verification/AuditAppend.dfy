/**
 Appending to the chain in PostgreSQL. Under a per-tenant lock the writer takes as predecessor the row that is last
 in (created_at, id) order, which is the tail of the chain only while those keys grow with insertion.
 */
module AuditAppend {
  import opened AuditChain
  import opened AuditEncoding
  import opened AuditOrder
  import KeysetPaging
  import PageTokens
  import opened Sorting
  import opened Text

  /** `ORDER BY created_at DESC, id DESC` puts `a` in front of `b`. */
  predicate Newer(a: Content, b: Content) { KeysetPaging.Precedes(SortKey(a), SortKey(b)) }

  function SortKey(c: Content): PageTokens.Cursor { PageTokens.Cursor(c.createdAt, c.id) }

  /** Position of the row that ordering puts first, among the first `n`. */
  function Latest(rows: seq<Entry>, n: nat): (k: nat)
    requires 1 <= n <= |rows|
    ensures k < n
  {
    if n == 1 then 0
    else
      var k := Latest(rows, n - 1);
      if Newer(rows[n - 1].content, rows[k].content) then n - 1 else k
  }

  /** `GetLastAuditHashForTenant`, empty when the tenant has no rows. */
  function LastHash(rows: seq<Entry>): string
  {
    if rows == [] then [] else rows[Latest(rows, |rows|)].entryHash
  }

  predicate TailIsLatest(rows: seq<Entry>) { rows == [] || Latest(rows, |rows|) == |rows| - 1 }

  function Stored(c: Content): Content
  {
    c.(objectKind := if c.objectKind == "" then "field" else c.objectKind, chainEpoch := 1)
  }

  function Seal(h: Hasher, prev: string, c: Content): Entry
  {
    Entry(Stored(c), prev, h.hash(prev, Stored(c)))
  }

  function Append(h: Hasher, rows: seq<Entry>, c: Content): seq<Entry>
  {
    rows + [Seal(h, LastHash(rows), c)]
  }

  /** One append after another. */
  function AppendEach(h: Hasher, rows: seq<Entry>, cs: seq<Content>): seq<Entry>
    decreases |cs|
  {
    if cs == [] then rows else AppendEach(h, Append(h, rows, cs[0]), cs[1..])
  }

  /** Seal the contents in sequence, each on the hash of the one before it. */
  function SealAll(h: Hasher, prev: string, cs: seq<Content>): seq<Entry>
    decreases |cs|
  {
    if cs == [] then []
    else
      var e := Seal(h, prev, cs[0]);
      [e] + SealAll(h, e.entryHash, cs[1..])
  }

  /** The batched append: the predecessor is looked up once and then threaded through the batch. */
  method BulkInsert(h: Hasher, rows: seq<Entry>, args: seq<Content>) returns (result: seq<Entry>)
    ensures result == rows + SealAll(h, LastHash(rows), args)
    ensures h.Binding() && Honest(h, rows) && TailIsLatest(rows) ==> Honest(h, result)
  {
    ghost var first := LastHash(rows);
    var prevHash := LastHash(rows);
    var batch: seq<Entry> := [];
    for i := 0 to |args|
      invariant batch + SealAll(h, prevHash, args[i..]) == SealAll(h, first, args)
    {
      var e := Seal(h, prevHash, args[i]);
      assert args[i..][1..] == args[i + 1..];
      assert batch + SealAll(h, prevHash, args[i..]) == batch + [e] + SealAll(h, e.entryHash, args[i + 1..]);
      batch := batch + [e];
      prevHash := e.entryHash;
    }
    result := rows + batch;
    if h.Binding() && Honest(h, rows) && TailIsLatest(rows) {
      TailHash(rows);
      SealAllExtendsChain(h, rows, args);
    }
  }

  lemma TailHash(rows: seq<Entry>)
    requires TailIsLatest(rows)
    ensures LastHash(rows) == PrevHash(rows, |rows|)
  {}

  /** Sealing on the tail keeps an honest log honest, whatever the content. */
  lemma SealExtends(h: Hasher, rows: seq<Entry>, c: Content)
    requires Honest(h, rows)
    ensures Honest(h, rows + [Seal(h, PrevHash(rows, |rows|), c)])
  {
    var longer := rows + [Seal(h, PrevHash(rows, |rows|), c)];
    assert forall i :: 0 <= i <= |rows| ==> PrevHash(longer, i) == PrevHash(rows, i);
    forall i | 0 <= i < |longer| ensures Matches(h, longer, i) && longer[i].previousHash == PrevHash(longer, i) {
      if i < |rows| { assert Matches(h, rows, i); }
    }
  }

  lemma {:induction false} SealAllExtendsChain(h: Hasher, rows: seq<Entry>, cs: seq<Content>)
    requires Honest(h, rows)
    ensures Honest(h, rows + SealAll(h, PrevHash(rows, |rows|), cs))
    decreases |cs|
  {
    if cs == [] {
      assert rows + SealAll(h, PrevHash(rows, |rows|), cs) == rows;
    } else {
      var longer := rows + [Seal(h, PrevHash(rows, |rows|), cs[0])];
      SealExtends(h, rows, cs[0]);
      SealAllExtendsChain(h, longer, cs[1..]);
      SealAllUnfolds(h, rows, cs);
    }
  }

  lemma SealAllUnfolds(h: Hasher, rows: seq<Entry>, cs: seq<Content>)
    requires cs != []
    ensures var prev := PrevHash(rows, |rows|);
            var longer := rows + [Seal(h, prev, cs[0])];
            rows + SealAll(h, prev, cs) == longer + SealAll(h, PrevHash(longer, |longer|), cs[1..])
  {
    var e := Seal(h, PrevHash(rows, |rows|), cs[0]);
    assert PrevHash(rows + [e], |rows| + 1) == e.entryHash;
    OneByOne(rows, e, SealAll(h, e.entryHash, cs[1..]));
  }

  lemma OneByOne(a: seq<Entry>, e: Entry, b: seq<Entry>)
    ensures a + ([e] + b) == a + [e] + b
  {}

  // ---------------------------------------------------------------- batches and single appends

  /** Each content is newer than the tail of the log it is added to. */
  predicate Ascending(rows: seq<Entry>, cs: seq<Content>)
  {
    && (rows != [] && cs != [] ==> Newer(cs[0], rows[|rows| - 1].content))
    && (forall i :: 0 <= i < |cs| - 1 ==> Newer(cs[i + 1], cs[i]))
  }

  lemma NewerTailStaysLatest(rows: seq<Entry>, e: Entry)
    requires TailIsLatest(rows) && (rows != [] ==> Newer(e.content, rows[|rows| - 1].content))
    ensures TailIsLatest(rows + [e])
  {
    if rows != [] { LatestOfPrefix(rows, [e], |rows|); }
  }

  lemma {:induction false} LatestOfPrefix(rows: seq<Entry>, more: seq<Entry>, n: nat)
    requires 1 <= n <= |rows|
    ensures Latest(rows + more, n) == Latest(rows, n)
  {
    if n > 1 { LatestOfPrefix(rows, more, n - 1); }
  }

  /** With growing keys a batch builds exactly the chain that appending its entries one by one would. */
  lemma {:induction false} BatchEqualsSingleAppends(h: Hasher, rows: seq<Entry>, cs: seq<Content>)
    requires TailIsLatest(rows) && Ascending(rows, cs)
    ensures rows + SealAll(h, LastHash(rows), cs) == AppendEach(h, rows, cs)
    ensures TailIsLatest(AppendEach(h, rows, cs))
    decreases |cs|
  {
    if cs == [] {
      assert rows + [] == rows;
    } else {
      var longer := Append(h, rows, cs[0]);
      NewerTailStaysLatest(rows, Seal(h, LastHash(rows), cs[0]));
      TailHash(longer);
      assert Ascending(longer, cs[1..]);
      BatchEqualsSingleAppends(h, longer, cs[1..]);
      BatchAfterFirst(h, rows, cs);
    }
  }

  lemma BatchAfterFirst(h: Hasher, rows: seq<Entry>, cs: seq<Content>)
    requires cs != [] && TailIsLatest(Append(h, rows, cs[0]))
    ensures var longer := Append(h, rows, cs[0]);
            rows + SealAll(h, LastHash(rows), cs) == longer + SealAll(h, LastHash(longer), cs[1..])
  {
    var e, longer := Seal(h, LastHash(rows), cs[0]), Append(h, rows, cs[0]);
    TailHash(longer);
    assert LastHash(longer) == e.entryHash;
    OneByOne(rows, e, SealAll(h, e.entryHash, cs[1..]));
  }

  // ---------------------------------------------------------------- when an append forks the chain

  /** The entry carries its own hash over the preceding hash it names. */
  ghost predicate Sealed(h: Hasher, e: Entry)
  {
    NulFree(e.previousHash) && e.entryHash == h.hash(e.previousHash, e.content)
  }

  /** Two rows sealed on the same predecessor: no arrangement of the log passes verification. */
  lemma ForkNeverVerifies(h: Hasher, rows: seq<Entry>, e: Entry, f: Entry, p: seq<Entry>)
    requires h.Binding() && multiset(p) == multiset(rows)
    requires forall i :: 0 <= i < |rows| ==> Sealed(h, rows[i])
    requires e in rows && f in rows && e != f && e.previousHash == f.previousHash
    ensures !Verified(h, p)
  {
    SameMembers(p, rows);
    if Verified(h, p) {
      forall i | 0 <= i < |p| ensures p[i].previousHash == PrevHash(p, i) {
        assert p[i] in rows;
        var k :| 0 <= k < |rows| && rows[k] == p[i];
        assert Matches(h, p, i);
        PrevHashShape(h, p, i);
      }
      assert Honest(h, p);
      LinksAreUnique(h, p, e, f);
    }
  }

  lemma HonestIsSealed(h: Hasher, rows: seq<Entry>, i: nat)
    requires h.Binding() && Honest(h, rows) && i < |rows|
    ensures Sealed(h, rows[i])
  {
    assert Matches(h, rows, i) && PrevHash(rows, i) == rows[i].previousHash;
    PrevHashShape(h, rows, i);
  }

  lemma {:induction false} SealAllSeals(h: Hasher, prev: string, cs: seq<Content>, i: nat)
    requires h.Binding() && NulFree(prev) && i < |SealAll(h, prev, cs)|
    ensures Sealed(h, SealAll(h, prev, cs)[i])
    decreases |cs|
  {
    if i > 0 { SealAllSeals(h, Seal(h, prev, cs[0]).entryHash, cs[1..], i - 1); }
  }

  lemma LastHashShape(h: Hasher, rows: seq<Entry>)
    requires h.Binding() && Honest(h, rows)
    ensures NulFree(LastHash(rows))
  {
    if rows != [] { PrevHashShape(h, rows, Latest(rows, |rows|) + 1); }
  }

  /** A batch sealed on a row that is not the tail starts with a second successor of that row. */
  lemma StaleTailForks(h: Hasher, rows: seq<Entry>, cs: seq<Content>, p: seq<Entry>)
    requires h.Binding() && Honest(h, rows) && !TailIsLatest(rows) && cs != []
    requires forall i :: 0 <= i < |rows| ==> rows[i].content.id != cs[0].id
    requires multiset(p) == multiset(rows + SealAll(h, LastHash(rows), cs))
    ensures !Verified(h, p)
  {
    var batch := SealAll(h, LastHash(rows), cs);
    var longer := rows + batch;
    LastHashShape(h, rows);
    forall i | 0 <= i < |longer| ensures Sealed(h, longer[i]) {
      if i < |rows| { HonestIsSealed(h, rows, i); } else { SealAllSeals(h, LastHash(rows), cs, i - |rows|); }
    }
    var k := Latest(rows, |rows|);
    assert PrevHash(rows, k + 1) == rows[k].entryHash;
    assert longer[k + 1] in longer && longer[|rows|] in longer && longer[|rows|] == batch[0];
    ForkNeverVerifies(h, longer, longer[k + 1], longer[|rows|], p);
  }

  /**
   Fetched in any order, the log verifies after a batch was appended exactly when the tail was the latest row before
   it. Only the first id of the batch has to be fresh.
   */
  lemma BatchVerifiesIffTailIsLatest(h: Hasher, rows: seq<Entry>, cs: seq<Content>, p: seq<Entry>)
    requires h.Binding() && Honest(h, rows) && cs != []
    requires forall i :: 0 <= i < |rows| ==> rows[i].content.id != cs[0].id
    requires multiset(p) == multiset(rows + SealAll(h, LastHash(rows), cs))
    ensures Verified(h, ChainOrder(p)) <==> TailIsLatest(rows)
  {
    if TailIsLatest(rows) {
      TailHash(rows);
      SealAllExtendsChain(h, rows, cs);
      ShuffledLogIsRecovered(h, rows + SealAll(h, LastHash(rows), cs), p);
    } else {
      ChainOrderIsPermutation(p);
      StaleTailForks(h, rows, cs, ChainOrder(p));
    }
  }

  /** And so it is after a single append. */
  lemma AppendVerifiesIffTailIsLatest(h: Hasher, rows: seq<Entry>, c: Content, p: seq<Entry>)
    requires h.Binding() && Honest(h, rows)
    requires forall i :: 0 <= i < |rows| ==> rows[i].content.id != c.id
    requires multiset(p) == multiset(Append(h, rows, c))
    ensures Verified(h, ChainOrder(p)) <==> TailIsLatest(rows)
  {
    assert SealAll(h, LastHash(rows), [c]) == [Seal(h, LastHash(rows), c)];
    BatchVerifiesIffTailIsLatest(h, rows, [c], p);
  }

  /** Two rows of one batch may share a microsecond; if their random ids happen to descend, the next append forks. */
  lemma SameInstantBatchForks(h: Hasher, c: Content, d: Content, e: Content)
    requires h.Binding()
    requires c.createdAt == d.createdAt && Less(d.id, c.id) && e.id != c.id && e.id != d.id
    ensures var rows := SealAll(h, "", [c, d]);
            Honest(h, rows) && !Verified(h, ChainOrder(Append(h, rows, e)))
  {
    var rows := SealAll(h, "", [c, d]);
    TwoSealed(h, c, d);
    assert !Newer(rows[1].content, rows[0].content) by {
      if Less(c.id, d.id) { LessTransitive(c.id, d.id, c.id); LessIrreflexive(c.id); }
    }
    assert Latest(rows, 1) == 0 && Latest(rows, 2) == 0;
    AppendVerifiesIffTailIsLatest(h, rows, e, Append(h, rows, e));
  }

  lemma TwoSealed(h: Hasher, c: Content, d: Content)
    ensures var rows := SealAll(h, "", [c, d]);
            Honest(h, rows) && |rows| == 2 && rows[0].content == Stored(c) && rows[1].content == Stored(d)
  {
    var rows, first := SealAll(h, "", [c, d]), Seal(h, "", c);
    SealAllExtendsChain(h, [], [c, d]);
    assert [] + rows == rows;
    assert [c, d][1..] == [d] && SealAll(h, first.entryHash, [d]) == [Seal(h, first.entryHash, d)];
    assert rows == [first, Seal(h, first.entryHash, d)];
  }
}
