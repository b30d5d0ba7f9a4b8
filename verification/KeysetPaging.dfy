/**
 Keyset paging in (created_at DESC, id DESC) order, for any kind of record with such a key: one page of a store
 query, the page the service cuts from it, and runs that follow the next tokens while the store grows.
 */
module KeysetPaging {
  import opened PageTokens
  import opened Sequences
  import opened Sorting
  import opened Text
  import opened Wrappers

  /** `a` is listed before `b`: it is newer, or as old with the greater id. */
  predicate Precedes(a: Cursor, b: Cursor) { a.time > b.time || (a.time == b.time && Less(b.id, a.id)) }

  lemma PrecedesTransitive(a: Cursor, b: Cursor, c: Cursor)
    requires Precedes(a, b) && Precedes(b, c)
    ensures Precedes(a, c)
  {
    if a.time == b.time && b.time == c.time { LessTransitive(c.id, b.id, a.id); }
  }

  lemma PrecedesTotal(a: Cursor, b: Cursor)
    ensures a == b || Precedes(a, b) || Precedes(b, a)
    ensures !(Precedes(a, b) && Precedes(b, a)) && !Precedes(a, a)
  {
    LessTotal(a.id, b.id);
    LessIrreflexive(a.id);
    if Less(a.id, b.id) && Less(b.id, a.id) { LessTransitive(a.id, b.id, a.id); }
  }

  // ---------------------------------------------------------------- listings

  predicate Descending<T>(r: seq<T>, key: T -> Cursor)
  {
    forall i, j :: 0 <= i < j < |r| ==> Precedes(key(r[i]), key(r[j]))
  }

  predicate DistinctKeys<T>(s: seq<T>, key: T -> Cursor)
  {
    forall i, j :: 0 <= i < j < |s| ==> key(s[i]) != key(s[j])
  }

  function Place<T(!new)>(x: T, r: seq<T>, key: T -> Cursor): (s: seq<T>)
    ensures forall y :: y in s <==> y == x || y in r
  {
    if r == [] || Precedes(key(x), key(r[0])) then [x] + r else [r[0]] + Place(x, r[1..], key)
  }

  /** Sorted by insertion. With distinct keys this is what every sort by the key produces. */
  function Arrange<T(!new)>(s: seq<T>, key: T -> Cursor): (r: seq<T>)
    ensures forall y :: y in r <==> y in s
  {
    if s == [] then [] else Place(s[0], Arrange(s[1..], key), key)
  }

  lemma {:induction false} PlaceIsDescending<T(!new)>(x: T, r: seq<T>, key: T -> Cursor)
    requires Descending(r, key) && forall y :: y in r ==> key(y) != key(x)
    ensures Descending(Place(x, r, key), key)
  {
    if r != [] {
      PrecedesTotal(key(x), key(r[0]));
      var s := Place(x, r, key);
      if Precedes(key(x), key(r[0])) {
        forall j | 0 < j < |r| ensures Precedes(key(x), key(r[j])) { PrecedesTransitive(key(x), key(r[0]), key(r[j])); }
      } else {
        PlaceIsDescending(x, r[1..], key);
        forall j | 0 < j < |s| ensures Precedes(key(s[0]), key(s[j])) { assert s[j] in s[1..]; }
      }
    }
  }

  lemma {:induction false} ArrangeIsDescending<T(!new)>(s: seq<T>, key: T -> Cursor)
    requires DistinctKeys(s, key)
    ensures Descending(Arrange(s, key), key)
  {
    if s != [] {
      ArrangeIsDescending(s[1..], key);
      PlaceIsDescending(s[0], Arrange(s[1..], key), key);
    }
  }

  /** A listing is determined by what is in it. */
  lemma {:induction false} ListingIsUnique<T(!new)>(a: seq<T>, b: seq<T>, key: T -> Cursor)
    requires Descending(a, key) && Descending(b, key) && forall x :: x in a <==> x in b
    ensures a == b
  {
    assert b == [] || b[0] in a;
    if a != [] {
      assert a[0] in b;
      var x, y := a[0], b[0];
      assert y in a;
      PrecedesTotal(key(x), key(y));
      assert x == y;
      TailMembers(a, b, key);
      ListingIsUnique(a[1..], b[1..], key);
    }
  }

  lemma TailMembers<T(!new)>(a: seq<T>, b: seq<T>, key: T -> Cursor)
    requires Descending(a, key) && Descending(b, key) && a != [] && b != [] && a[0] == b[0]
    requires forall x :: x in a <==> x in b
    ensures forall x :: x in a[1..] <==> x in b[1..]
  {
    PrecedesTotal(key(a[0]), key(a[0]));
    forall x ensures x in a[1..] <==> x in a && x != a[0] {
      if x in a[1..] { var j :| 0 <= j < |a[1..]| && a[1..][j] == x; assert Precedes(key(a[0]), key(a[j + 1])); }
    }
    forall x ensures x in b[1..] <==> x in b && x != b[0] {
      if x in b[1..] { var j :| 0 <= j < |b[1..]| && b[1..][j] == x; assert Precedes(key(b[0]), key(b[j + 1])); }
    }
  }

  /** What `sort.Slice` promises: a permutation in which no record precedes an earlier one. */
  predicate NonAscending<T>(r: seq<T>, key: T -> Cursor)
  {
    forall i, j :: 0 <= i < j < |r| ==> !Precedes(key(r[j]), key(r[i]))
  }

  predicate IsSorted<T(==)>(r: seq<T>, s: seq<T>, key: T -> Cursor)
  {
    multiset(r) == multiset(s) && NonAscending(r, key)
  }

  lemma {:induction false} PlaceAddsOne<T(!new)>(x: T, r: seq<T>, key: T -> Cursor)
    ensures multiset(Place(x, r, key)) == multiset(r) + multiset{x}
  {
    if r != [] && !Precedes(key(x), key(r[0])) {
      PlaceAddsOne(x, r[1..], key);
      assert r == [r[0]] + r[1..];
    }
  }

  lemma {:induction false} PlaceKeepsOrder<T(!new)>(x: T, r: seq<T>, key: T -> Cursor)
    requires NonAscending(r, key)
    ensures NonAscending(Place(x, r, key), key)
  {
    if r != [] {
      var s := Place(x, r, key);
      if Precedes(key(x), key(r[0])) {
        forall j | 0 < j <= |r| ensures !Precedes(key(s[j]), key(s[0])) { NotAfterHead(x, r, key, j - 1); }
      } else {
        PlaceKeepsOrder(x, r[1..], key);
        forall j | 0 < j < |s| ensures !Precedes(key(s[j]), key(s[0])) { assert s[j] in s[1..]; }
      }
    }
  }

  lemma NotAfterHead<T(!new)>(x: T, r: seq<T>, key: T -> Cursor, j: nat)
    requires NonAscending(r, key) && j < |r| && Precedes(key(x), key(r[0]))
    ensures !Precedes(key(r[j]), key(x))
  {
    if Precedes(key(r[j]), key(x)) {
      PrecedesTransitive(key(r[j]), key(x), key(r[0]));
      PrecedesTotal(key(r[j]), key(r[0]));
    }
  }

  lemma {:induction false} ArrangeIsSorted<T(!new)>(s: seq<T>, key: T -> Cursor)
    ensures IsSorted(Arrange(s, key), s, key)
  {
    if s != [] {
      ArrangeIsSorted(s[1..], key);
      PlaceAddsOne(s[0], Arrange(s[1..], key), key);
      PlaceKeepsOrder(s[0], Arrange(s[1..], key), key);
      assert s == [s[0]] + s[1..];
    }
  }

  /** With distinct keys there is one sorted arrangement. */
  lemma SortedIsArranged<T(!new)>(r: seq<T>, s: seq<T>, key: T -> Cursor)
    requires IsSorted(r, s, key) && DistinctKeys(s, key)
    ensures r == Arrange(s, key)
  {
    SameMembers(r, s);
    DistinctStaysDistinct(s, r);
    forall i, j | 0 <= i < j < |r| ensures Precedes(key(r[i]), key(r[j])) {
      assert r[i] in s && r[j] in s && r[i] != r[j];
      PrecedesTotal(key(r[i]), key(r[j]));
    }
    ArrangeIsDescending(s, key);
    ListingIsUnique(r, Arrange(s, key), key);
  }

  lemma {:induction false} FilterIsDescending<T(!new)>(r: seq<T>, keep: T -> bool, key: T -> Cursor)
    requires Descending(r, key)
    ensures Descending(Filter(r, keep), key)
  {
    if r != [] {
      FilterIsDescending(r[1..], keep, key);
      var rest := Filter(r[1..], keep);
      forall j | 0 <= j < |rest| ensures Precedes(key(r[0]), key(rest[j])) { assert rest[j] in r[1..]; }
    }
  }

  // ---------------------------------------------------------------- one page

  /** Which records are listed, their keys, and the page size. */
  datatype Listing<!T> = Listing(keep: T -> bool, key: T -> Cursor, pageSize: nat)

  /** Keys are distinct and can be put into a token. */
  predicate Sound<T>(l: Listing<T>, log: seq<T>)
  {
    && DistinctKeys(log, l.key)
    && forall i :: 0 <= i < |log| ==> SoundKey(l.key(log[i]))
  }

  predicate SoundKey(c: Cursor) { IsBytes(c.id) && c.id != "" && -INT64 <= c.time < INT64 }

  predicate Beyond(cursor: Option<Cursor>, c: Cursor) { cursor.None? || Precedes(cursor.value, c) }

  function Behind<T>(key: T -> Cursor, cursor: Option<Cursor>): T -> bool { x => Beyond(cursor, key(x)) }

  /** The listed records behind the cursor, in order. */
  function Rest<T(!new)>(l: Listing<T>, log: seq<T>, cursor: Option<Cursor>): seq<T>
  {
    Filter(Arrange(Filter(log, l.keep), l.key), Behind(l.key, cursor))
  }

  function Limited<T>(r: seq<T>, limit: nat): seq<T> { if 0 < limit < |r| then r[..limit] else r }

  /** The records behind the cursor or, without one, from an offset on. */
  function CutFrom<T(!new)>(sorted: seq<T>, key: T -> Cursor, cursor: Option<Cursor>, offset: nat, limit: nat): seq<T>
  {
    if cursor.Some? then Limited(Filter(sorted, Behind(key, cursor)), limit)
    else if offset >= |sorted| then [] else Limited(sorted[offset..], limit)
  }

  /** One query of the store. */
  function Query<T(!new)>(l: Listing<T>, log: seq<T>, cursor: Option<Cursor>, offset: nat, limit: nat): seq<T>
  {
    CutFrom(Arrange(Filter(log, l.keep), l.key), l.key, cursor, offset, limit)
  }

  method SortByKey<T(!new)>(records: seq<T>, key: T -> Cursor) returns (sorted: seq<T>)
    ensures IsSorted(sorted, records, key)
  {
    sorted := Arrange(records, key);
    ArrangeIsSorted(records, key);
  }

  /**
   The sort, cursor scan and cut that the stores run on the records that passed their filter. Records with equal keys
   may come in either order; with distinct keys the result is determined.
   */
  method Paginate<T(!new)>(records: seq<T>, key: T -> Cursor, cursor: Option<Cursor>, offset: nat, limit: nat)
    returns (r: seq<T>, ghost sorted: seq<T>)
    ensures IsSorted(sorted, records, key) && r == CutFrom(sorted, key, cursor, offset, limit)
    ensures DistinctKeys(records, key) ==> r == Query(Listing(Everything(), key, 0), records, cursor, offset, limit)
  {
    r := SortByKey(records, key);
    sorted := r;
    FilterAll(records);
    if DistinctKeys(records, key) { SortedIsArranged(r, records, key); }
    if cursor.Some? {
      r := ScanBehind(r, key, cursor.value);
    } else {
      if offset >= |r| {
        r := [];
        return;
      }
      r := r[offset..];
    }
    if 0 < limit < |r| {
      r := r[..limit];
    }
  }

  method ScanBehind<T(!new)>(sorted: seq<T>, key: T -> Cursor, cursor: Cursor) returns (after: seq<T>)
    ensures after == Filter(sorted, Behind(key, Some(cursor)))
  {
    after := [];
    ghost var keep := Behind(key, Some(cursor));
    for i := 0 to |sorted|
      invariant after == Filter(sorted[..i], keep)
    {
      FilterStep(sorted, i, keep);
      if Precedes(cursor, key(sorted[i])) {
        after := after + [sorted[i]];
      }
    }
    assert sorted[..|sorted|] == sorted;
  }

  datatype Response<T> = Rejected | Page(records: seq<T>, next: string)

  /** One record more than the page holds is queried, to see whether there is a next page. */
  function PageBehind<T(!new)>(l: Listing<T>, log: seq<T>, cursor: Option<Cursor>): (seq<T>, Option<Cursor>)
    requires l.pageSize > 0
  {
    var records := Query(l, log, cursor, 0, l.pageSize + 1);
    if |records| > l.pageSize then (records[..l.pageSize], Some(l.key(records[l.pageSize - 1]))) else (records, None)
  }

  function TokenFor(next: Option<Cursor>): string
  {
    if next.Some? && IsBytes(next.value.id) then EncodeCursorToken(next.value) else ""
  }

  function Serve<T(!new)>(l: Listing<T>, log: seq<T>, token: string): Response<T>
    requires l.pageSize > 0
  {
    match DecodeTokenKind(token)
    case Invalid => Rejected
    case Offset(offset) =>
      var records := Query(l, log, None, offset, l.pageSize + 1);
      Page(Limited(records, l.pageSize), NextPageToken(l.pageSize, |records|, offset))
    case First => var (records, next) := PageBehind(l, log, None); Page(records, TokenFor(next))
    case Keyset(cursor) => var (records, next) := PageBehind(l, log, Some(cursor)); Page(records, TokenFor(next))
  }

  // ---------------------------------------------------------------- what a listing holds

  lemma {:induction false} FilterKeepsDistinct<T(!new)>(s: seq<T>, keep: T -> bool, key: T -> Cursor)
    requires DistinctKeys(s, key)
    ensures DistinctKeys(Filter(s, keep), key)
  {
    if s != [] {
      FilterKeepsDistinct(s[1..], keep, key);
      var rest := Filter(s[1..], keep);
      forall j | 0 <= j < |rest| ensures key(rest[j]) != key(s[0]) { assert rest[j] in s[1..]; }
    }
  }

  /** The listing is in order and holds exactly the records that pass the filter and lie behind the cursor. */
  lemma RestIsListing<T(!new)>(l: Listing<T>, log: seq<T>, cursor: Option<Cursor>)
    requires DistinctKeys(log, l.key)
    ensures Descending(Rest(l, log, cursor), l.key)
    ensures forall x :: x in Rest(l, log, cursor) <==> x in log && l.keep(x) && Beyond(cursor, l.key(x))
  {
    FilterKeepsDistinct(log, l.keep, l.key);
    ArrangeIsDescending(Filter(log, l.keep), l.key);
    FilterIsDescending(Arrange(Filter(log, l.keep), l.key), Behind(l.key, cursor), l.key);
  }

  /** Behind the key of the n-th record lie the records after it. */
  lemma RestOfRest<T(!new)>(l: Listing<T>, log: seq<T>, cursor: Option<Cursor>, n: nat)
    requires DistinctKeys(log, l.key) && 0 < n <= |Rest(l, log, cursor)|
    ensures var r := Rest(l, log, cursor); Rest(l, log, Some(l.key(r[n - 1]))) == r[n..]
  {
    var r := Rest(l, log, cursor);
    var c := l.key(r[n - 1]);
    var next := Rest(l, log, Some(c));
    RestIsListing(l, log, cursor);
    RestIsListing(l, log, Some(c));
    forall x ensures x in next <==> x in r[n..] {
      if x in r[n..] {
        var j :| 0 <= j < |r[n..]| && r[n..][j] == x;
        assert x == r[n + j] && x in r;
      }
      if x in next {
        if cursor.Some? { assert r[n - 1] in r; PrecedesTransitive(cursor.value, c, l.key(x)); }
        assert x in r;
        var j :| 0 <= j < |r| && r[j] == x;
        PrecedesTotal(c, l.key(x));
        assert j >= n;
        assert r[n..][j - n] == x;
      }
    }
    ListingIsUnique(next, r[n..], l.key);
  }

  /** Records newer than the cursor do not change what lies behind it. */
  lemma NewerDoNotShow<T(!new)>(l: Listing<T>, log: seq<T>, more: seq<T>, c: Cursor)
    requires DistinctKeys(log + more, l.key) && forall x :: x in more ==> !Precedes(c, l.key(x))
    ensures Rest(l, log + more, Some(c)) == Rest(l, log, Some(c))
  {
    assert DistinctKeys(log, l.key) by {
      forall i, j | 0 <= i < j < |log| ensures l.key(log[i]) != l.key(log[j]) {
        assert (log + more)[i] == log[i] && (log + more)[j] == log[j];
      }
    }
    RestIsListing(l, log + more, Some(c));
    RestIsListing(l, log, Some(c));
    ListingIsUnique(Rest(l, log + more, Some(c)), Rest(l, log, Some(c)), l.key);
  }

  lemma RestWithoutCursor<T(!new)>(l: Listing<T>, log: seq<T>)
    ensures Rest(l, log, None) == Arrange(Filter(log, l.keep), l.key)
  {
    FilterNone(Arrange(Filter(log, l.keep), l.key), l.key);
  }

  lemma {:induction false} FilterNone<T(!new)>(s: seq<T>, key: T -> Cursor)
    ensures Filter(s, Behind(key, None)) == s
  {
    if s != [] { FilterNone(s[1..], key); }
  }

  /** A page is the front of what lies behind the cursor; the next cursor leads to what is left. */
  lemma PageIsFront<T(!new)>(l: Listing<T>, log: seq<T>, cursor: Option<Cursor>)
    requires Sound(l, log) && l.pageSize > 0
    ensures var r, n := Rest(l, log, cursor), l.pageSize;
            if |r| <= n then PageBehind(l, log, cursor) == (r, None)
            else PageBehind(l, log, cursor) == (r[..n], Some(l.key(r[n - 1]))) && SoundKey(l.key(r[n - 1]))
                 && Rest(l, log, Some(l.key(r[n - 1]))) == r[n..]
  {
    var r, n := Rest(l, log, cursor), l.pageSize;
    QueryFromStart(l, log, cursor, n + 1);
    FrontOf(r, n);
    if |r| > n {
      KeyOfMember(l, log, cursor, n - 1);
      RestOfRest(l, log, cursor, n);
    }
  }

  lemma QueryFromStart<T(!new)>(l: Listing<T>, log: seq<T>, cursor: Option<Cursor>, limit: nat)
    ensures Query(l, log, cursor, 0, limit) == Limited(Rest(l, log, cursor), limit)
  {
    RestWithoutCursor(l, log);
  }

  /** One more than a page, cut to a page. */
  lemma FrontOf<T>(r: seq<T>, n: nat)
    ensures |Limited(r, n + 1)| > n <==> |r| > n
    ensures |r| > n ==> Limited(r, n + 1)[..n] == r[..n] && forall i :: 0 <= i < n ==> Limited(r, n + 1)[i] == r[i]
  {}

  lemma KeyOfMember<T(!new)>(l: Listing<T>, log: seq<T>, cursor: Option<Cursor>, k: nat)
    requires Sound(l, log) && k < |Rest(l, log, cursor)|
    ensures SoundKey(l.key(Rest(l, log, cursor)[k]))
  {
    var x := Rest(l, log, cursor)[k];
    assert x in Rest(l, log, cursor);
    RestIsListing(l, log, cursor);
    var i :| 0 <= i < |log| && log[i] == x;
  }

  // ---------------------------------------------------------------- following the tokens

  /** A paged source of records: what lies behind a cursor, what a token is answered with, and its cursor. */
  datatype Pager<!T> = Pager(
    rest: (seq<T>, Option<Cursor>) -> seq<T>, serve: (seq<T>, string) -> Response<T>, cursor: string -> Option<Cursor>,
    sound: seq<T> -> bool, key: T -> Cursor, pageSize: nat)

  /** The answer is the front of what lies behind the token's cursor, and the next token leads to what is left. */
  predicate CutsFront<T(==)>(p: Pager<T>, log: seq<T>, token: string)
  {
    var r, page := p.rest(log, p.cursor(token)), p.serve(log, token);
    && page.Page?
    && (if |r| <= p.pageSize then page == Page(r, "")
        else page.records == r[..p.pageSize] && page.next != "" && p.cursor(page.next).Some?
             && p.rest(log, p.cursor(page.next)) == r[p.pageSize..])
  }

  /** Newer records do not change what lies behind a cursor. */
  ghost predicate Unmoved<T(!new)>(p: Pager<T>, log: seq<T>, grown: seq<T>, c: Cursor)
  {
    p.rest(grown, Some(c)) == p.rest(log, Some(c))
  }

  ghost predicate NewerOnly<T(!new)>(p: Pager<T>, log: seq<T>, grown: seq<T>, c: Cursor)
  {
    log <= grown && forall x :: x in grown[|log|..] ==> !Precedes(c, p.key(x))
  }

  ghost predicate Works<T(!new)>(p: Pager<T>)
  {
    && p.pageSize > 0 && p.cursor("") == None
    && (forall log, token {:trigger CutsFront(p, log, token)} ::
          p.sound(log) && (token == "" || p.cursor(token).Some?) ==> CutsFront(p, log, token))
    && (forall log, grown, c {:trigger NewerOnly(p, log, grown, c)} ::
          p.sound(log) && p.sound(grown) && NewerOnly(p, log, grown, c) ==> Unmoved(p, log, grown, c))
  }

  /**
   A client asks for the first page and then follows the tokens. Page `i` is served from `logs[i]`; in between the
   store may grow, by records that are not listed behind the cursor reached.
   */
  ghost predicate Follows<T(!new)>(p: Pager<T>, logs: seq<seq<T>>, tokens: seq<string>, pages: seq<seq<T>>)
  {
    && |logs| == |pages| && |tokens| == |pages| + 1 && tokens[0] == ""
    && (forall i :: 0 <= i < |pages| ==>
          p.sound(logs[i]) && p.serve(logs[i], tokens[i]) == Page(pages[i], tokens[i + 1]))
    && (forall i :: 0 < i < |pages| ==> tokens[i] != "")
    && (forall i, j :: 0 <= i && j == i + 1 && j < |pages| ==>
          p.cursor(tokens[j]).Some? ==> NewerOnly(p, logs[i], logs[j], p.cursor(tokens[j]).value))
  }

  function Joined<T>(pages: seq<seq<T>>, n: nat): seq<T>
    requires n <= |pages|
  {
    if n == 0 then [] else Joined(pages, n - 1) + pages[n - 1]
  }

  /** What the first `n` pages have left to list. */
  function Left<T>(p: Pager<T>, logs: seq<seq<T>>, tokens: seq<string>, n: nat): seq<T>
    requires 1 <= n < |tokens| && n <= |logs|
  {
    if tokens[n] == "" then [] else p.rest(logs[n - 1], p.cursor(tokens[n]))
  }

  lemma {:induction false} PagesSoFar<T(!new)>(
    p: Pager<T>, logs: seq<seq<T>>, tokens: seq<string>, pages: seq<seq<T>>, n: nat)
    requires Works(p) && Follows(p, logs, tokens, pages) && 1 <= n <= |pages|
    ensures Joined(pages, n) + Left(p, logs, tokens, n) == p.rest(logs[0], None)
    ensures tokens[n] != "" ==> p.cursor(tokens[n]).Some? && |Joined(pages, n)| >= n
  {
    var log, token := logs[n - 1], tokens[n - 1];
    var r := p.rest(log, p.cursor(token));
    if n > 1 {
      PagesSoFar(p, logs, tokens, pages, n - 1);
      assert NewerOnly(p, logs[n - 2], log, p.cursor(token).value);
      assert Unmoved(p, logs[n - 2], log, p.cursor(token).value);
    }
    assert CutsFront(p, log, token);
    assert pages[n - 1] + Left(p, logs, tokens, n) == r;
    JoinedStep(Joined(pages, n - 1), pages[n - 1], Left(p, logs, tokens, n));
  }

  lemma JoinedStep<T>(a: seq<T>, b: seq<T>, c: seq<T>)
    ensures a + b + c == a + (b + c)
  {}

  function Total<T(!new)>(l: Listing<T>): (seq<T>, string) -> Response<T>
  {
    (log: seq<T>, token: string) => if l.pageSize > 0 then Serve(l, log, token) else Rejected
  }

  function CursorOf(token: string): Option<Cursor>
  {
    var kind := DecodeTokenKind(token);
    if kind.Keyset? then Some(kind.cursor) else None
  }

  /** The audit log query and the tenant listing, each with its own filter and key. */
  function Pages<T(!new)>(l: Listing<T>): Pager<T>
  {
    Pager((log: seq<T>, c: Option<Cursor>) => Rest(l, log, c), Total(l), CursorOf,
          (log: seq<T>) => Sound(l, log), l.key, l.pageSize)
  }

  lemma PagesCutFront<T(!new)>(l: Listing<T>, log: seq<T>, token: string)
    requires l.pageSize > 0 && Sound(l, log) && (token == "" || CursorOf(token).Some?)
    ensures CutsFront(Pages(l), log, token)
  {
    ServeCutsFront(l, log, token);
  }

  lemma ServeCutsFront<T(!new)>(l: Listing<T>, log: seq<T>, token: string)
    requires l.pageSize > 0 && Sound(l, log) && (token == "" || CursorOf(token).Some?)
    ensures var r, page := Rest(l, log, CursorOf(token)), Serve(l, log, token);
            && page.Page?
            && (if |r| <= l.pageSize then page == Page(r, "")
                else page.records == r[..l.pageSize] && page.next != "" && CursorOf(page.next).Some?
                     && Rest(l, log, CursorOf(page.next)) == r[l.pageSize..])
  {
    PageIsFront(l, log, CursorOf(token));
    var next := PageBehind(l, log, CursorOf(token)).1;
    if next.Some? { CursorRoundTrip(next.value); }
    assert Serve(l, log, token) == Page(PageBehind(l, log, CursorOf(token)).0, TokenFor(next));
  }

  lemma PagesWork<T(!new)>(l: Listing<T>)
    requires l.pageSize > 0
    ensures Works(Pages(l))
  {
    var p := Pages(l);
    forall log, token {:trigger CutsFront(p, log, token)} | p.sound(log) && (token == "" || p.cursor(token).Some?)
      ensures CutsFront(p, log, token)
    {
      PagesCutFront(l, log, token);
    }
    forall log, grown, c {:trigger NewerOnly(p, log, grown, c)} | p.sound(log) && p.sound(grown)
        && NewerOnly(p, log, grown, c)
      ensures Unmoved(p, log, grown, c)
    {
      assert grown == log + grown[|log|..];
      NewerDoNotShow(l, log, grown[|log|..], c);
    }
  }

  /**
   Following the next tokens to the end lists every record that was there at the first page and passes the filter,
   once, in order, even when newer records arrive in between.
   */
  lemma PagesListEverything<T(!new)>(
    l: Listing<T>, logs: seq<seq<T>>, tokens: seq<string>, pages: seq<seq<T>>)
    requires l.pageSize > 0 && Follows(Pages(l), logs, tokens, pages) && pages != [] && tokens[|pages|] == ""
    ensures Descending(Joined(pages, |pages|), l.key)
    ensures forall x :: x in Joined(pages, |pages|) <==> x in logs[0] && l.keep(x)
    ensures Joined(pages, |pages|) == Arrange(Filter(logs[0], l.keep), l.key)
  {
    var p := Pages(l);
    PagesWork(l);
    PagesSoFar(p, logs, tokens, pages, |pages|);
    assert p.sound(logs[0]);
    RestIsListing(l, logs[0], None);
    RestWithoutCursor(l, logs[0]);
    assert Joined(pages, |pages|) + [] == Joined(pages, |pages|);
  }

  /** No run of pages goes on for ever, and none is rejected on the way. */
  lemma PagingTerminates<T(!new)>(
    l: Listing<T>, logs: seq<seq<T>>, tokens: seq<string>, pages: seq<seq<T>>)
    requires l.pageSize > 0 && Follows(Pages(l), logs, tokens, pages) && pages != []
    ensures |pages| <= |Rest(l, logs[0], None)| + 1
    ensures tokens[|pages|] == "" || CursorOf(tokens[|pages|]).Some?
  {
    PagesWork(l);
    PagesSoFar(Pages(l), logs, tokens, pages, |pages|);
    if |pages| > 1 { PagesSoFar(Pages(l), logs, tokens, pages, |pages| - 1); }
  }

  /** Ranging over all pages of a store that does not change meanwhile ends, with everything listed; none is refused. */
  method Iterate<T(!new)>(p: Pager<T>, log: seq<T>) returns (all: seq<T>, failed: bool)
    requires Works(p) && p.sound(log)
    ensures !failed && all == p.rest(log, None)
  {
    all, failed := [], false;
    var token, more := "", true;
    ghost var rest := p.rest(log, None);
    while more
      invariant token == "" || p.cursor(token).Some?
      invariant if more then rest == p.rest(log, p.cursor(token)) else rest == []
      invariant all + rest == p.rest(log, None)
      decreases more, |rest|
    {
      assert CutsFront(p, log, token);
      var page := p.serve(log, token);
      if page.Rejected? {
        return all, true;
      }
      all := all + page.records;
      rest := if |rest| <= p.pageSize then [] else rest[p.pageSize..];
      token, more := page.next, page.next != "";
    }
  }
}
