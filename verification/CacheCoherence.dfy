/**
 Readers fill the cache from the store while writers commit and invalidate. A cached snapshot stays right because
 committed versions never change, provided the version existed when the reader queried the store.
 */
module CacheCoherence {
  import opened ConfigCache
  import opened ConfigHistory
  import opened Lru
  import opened Wrappers

  const CACHE_TTL := 300
  const NEGATIVE_TTL := 30
  const REDACTED := "[REDACTED]"

  /** What a read of a tenant's history at a version shows. */
  type Reader = (string, seq<Delta>, int) -> map<string, string>

  /** Null shown as empty, sensitive fields masked. The schema binding, and so the sensitive set, is fixed. */
  function Redacted(sensitive: string -> set<string>): Reader
  {
    (tenant, h, v) =>
      var shown := Display(Resolve(h, v));
      map p | p in shown :: if p in sensitive(tenant) then REDACTED else shown[p]
  }

  /** `cap` is the size of each cache. */
  datatype Env = Env(view: Reader, cap: int)

  /**
   A cache miss in flight: the store has been queried, the cache not yet filled. `base` is the latest version then.
   */
  datatype Fetch = Fetch(tenant: string, version: int, view: map<string, string>, base: nat)

  /** The query that filled a cache key: what it asked for and the latest version at that time. */
  datatype Origin = Origin(tenant: string, version: int, base: nat)

  datatype State = State(
    hist: map<string, seq<Delta>>,
    pos: Positive,
    neg: Negative,
    pending: map<nat, Fetch>,
    posFrom: map<string, Origin>,
    negFrom: map<string, Origin>)

  function OriginOf(x: Fetch): Origin { Origin(x.tenant, x.version, x.base) }

  function Of(hist: map<string, seq<Delta>>, tenant: string): seq<Delta> { if tenant in hist then hist[tenant] else [] }

  function History(s: State, tenant: string): seq<Delta> { Of(s.hist, tenant) }

  datatype Step =
    | Commit(tenant: string, delta: Delta)
    | Invalidate(tenant: string)
    | Query(f: nat, tenant: string, version: int)
    | Fill(f: nat, evicted: int, stored: int)
    | Sweep(first: int, second: int)

  predicate Enabled(s: State, step: Step)
  {
    match step
    case Query(f, _, _) => f !in s.pending
    case Fill(f, _, _) => f in s.pending
    case _ => true
  }

  function Apply(env: Env, s: State, step: Step): State
    requires Enabled(s, step)
  {
    match step
    case Commit(t, d) => s.(hist := s.hist[t := History(s, t) + [d]])
    case Invalidate(t) => s.(pos := DropWhere(s.pos, EntryOf(t)), neg := DropWhere(s.neg, MarkerOf(t)))
    case Query(f, t, v) => s.(pending := s.pending[f := Fetch(t, v, env.view(t, History(s, t), v), |History(s, t)|)])
    case Fill(f, evicted, stored) =>
      var x := s.pending[f];
      var k := Key(x.tenant, x.version);
      if x.view == map[] then
        s.(neg := Put(s.neg, env.cap, k, stored + NEGATIVE_TTL), negFrom := s.negFrom[k := OriginOf(x)],
            pending := s.pending - {f})
      else
        s.(pos := Stored(s.pos, env.cap, k, CacheEntry(x.view, stored + CACHE_TTL), evicted),
           posFrom := s.posFrom[k := OriginOf(x)], pending := s.pending - {f})
    case Sweep(first, second) =>
      s.(pos := DropWhere(s.pos, EntryExpired(first)), neg := DropWhere(s.neg, MarkerExpired(second)))
  }

  predicate Init(s: State)
  {
    s.pos == [] && s.neg == [] && s.pending == map[] && s.posFrom == map[] && s.negFrom == map[]
  }

  ghost predicate Run(env: Env, s: State, steps: seq<Step>, t: State)
    decreases |steps|
  {
    if steps == [] then s == t
    else Enabled(s, steps[0]) && Run(env, Apply(env, s, steps[0]), steps[1..], t)
  }

  // ---------------------------------------------------------------- the invariant

  /** `m` is the view at `v` of the history as it was when it had `base` versions. */
  predicate Remembers(env: Env, hist: map<string, seq<Delta>>, t: string, v: int, base: nat, m: map<string, string>)
  {
    base <= |Of(hist, t)| && m == env.view(t, Of(hist, t)[..base], v)
  }

  /** The content cached under `k` is remembered from the query recorded for `k`. */
  predicate Recorded(
    env: Env, hist: map<string, seq<Delta>>, k: string, from: map<string, Origin>, m: map<string, string>)
  {
    && k in from && k == Key(from[k].tenant, from[k].version)
    && Remembers(env, hist, from[k].tenant, from[k].version, from[k].base, m)
  }

  ghost predicate PosOk(env: Env, hist: map<string, seq<Delta>>, pos: Positive, from: map<string, Origin>)
  {
    forall x :: x in pos ==> Recorded(env, hist, x.0, from, x.1.values)
  }

  ghost predicate NegOk(env: Env, hist: map<string, seq<Delta>>, neg: Negative, from: map<string, Origin>)
  {
    forall x :: x in neg ==> Recorded(env, hist, x.0, from, map[])
  }

  predicate FetchOk(env: Env, hist: map<string, seq<Delta>>, x: Fetch)
  {
    Remembers(env, hist, x.tenant, x.version, x.base, x.view)
  }

  ghost predicate FetchesOk(env: Env, hist: map<string, seq<Delta>>, pending: map<nat, Fetch>)
  {
    forall f :: f in pending ==> FetchOk(env, hist, pending[f])
  }

  ghost predicate Inv(env: Env, s: State)
  {
    && PosOk(env, s.hist, s.pos, s.posFrom) && NegOk(env, s.hist, s.neg, s.negFrom) && FetchesOk(env, s.hist, s.pending)
    && DistinctKeys(s.pos) && DistinctKeys(s.neg)
  }

  lemma RemembersAfterCommit(
    env: Env, hist: map<string, seq<Delta>>, tenant: string, d: Delta, t: string, v: int, base: nat,
    m: map<string, string>)
    requires Remembers(env, hist, t, v, base, m)
    ensures Remembers(env, hist[tenant := Of(hist, tenant) + [d]], t, v, base, m)
  {
    assert Of(hist[tenant := Of(hist, tenant) + [d]], t)[..base] == Of(hist, t)[..base];
  }

  lemma RecordedAfterCommit(
    env: Env, hist: map<string, seq<Delta>>, tenant: string, d: Delta, k: string, from: map<string, Origin>,
    m: map<string, string>)
    requires Recorded(env, hist, k, from, m)
    ensures Recorded(env, hist[tenant := Of(hist, tenant) + [d]], k, from, m)
  {
    RemembersAfterCommit(env, hist, tenant, d, from[k].tenant, from[k].version, from[k].base, m);
  }

  lemma CommitKeepsInv(env: Env, s: State, tenant: string, d: Delta)
    requires Inv(env, s)
    ensures Inv(env, Apply(env, s, Commit(tenant, d)))
  {
    var hist := s.hist[tenant := History(s, tenant) + [d]];
    forall x | x in s.pos ensures Recorded(env, hist, x.0, s.posFrom, x.1.values) {
      RecordedAfterCommit(env, s.hist, tenant, d, x.0, s.posFrom, x.1.values);
    }
    forall x | x in s.neg ensures Recorded(env, hist, x.0, s.negFrom, map[]) {
      RecordedAfterCommit(env, s.hist, tenant, d, x.0, s.negFrom, map[]);
    }
    forall f | f in s.pending ensures FetchOk(env, hist, s.pending[f]) {
      var x := s.pending[f];
      RemembersAfterCommit(env, s.hist, tenant, d, x.tenant, x.version, x.base, x.view);
    }
  }

  lemma PutMembers<V>(s: seq<(string, V)>, cap: int, k: string, v: V)
    requires DistinctKeys(s)
    ensures forall x :: x in Put(s, cap, k, v) ==> x == (k, v) || (x in s && x.0 != k)
    ensures DistinctKeys(Put(s, cap, k, v)) && (k, v) in Put(s, cap, k, v)
  {
    WithoutMembers(s, k);
    var a := if Value(s, k).Some? then Without(s, k) else if |s| >= cap && s != [] then s[1..] else s;
    assert forall x :: x in a ==> x in s && x.0 != k;
    AppendDistinct(a, k, v);
    assert Put(s, cap, k, v) == a + [(k, v)];
  }

  lemma StoredMembers(s: Positive, cap: int, k: string, e: CacheEntry, now: int)
    requires DistinctKeys(s)
    ensures forall x :: x in Stored(s, cap, k, e, now) ==> x == (k, e) || (x in s && x.0 != k)
    ensures DistinctKeys(Stored(s, cap, k, e, now)) && (k, e) in Stored(s, cap, k, e, now)
  {
    DropWhereMembers(s, EntryExpired(now));
    PutMembers(if Value(s, k).None? && |s| >= cap then DropWhere(s, EntryExpired(now)) else s, cap, k, e);
  }

  lemma FillPos(
    env: Env, hist: map<string, seq<Delta>>, pos: Positive, from: map<string, Origin>, x: Fetch, evicted: int,
    stored: int)
    requires PosOk(env, hist, pos, from) && DistinctKeys(pos)
            && Remembers(env, hist, x.tenant, x.version, x.base, x.view)
    ensures var k := Key(x.tenant, x.version);
            var filled := Stored(pos, env.cap, k, CacheEntry(x.view, stored + CACHE_TTL), evicted);
            PosOk(env, hist, filled, from[k := OriginOf(x)]) && DistinctKeys(filled)
  {
    var k, e := Key(x.tenant, x.version), CacheEntry(x.view, stored + CACHE_TTL);
    StoredMembers(pos, env.cap, k, e, evicted);
    forall y | y in Stored(pos, env.cap, k, e, evicted)
      ensures Recorded(env, hist, y.0, from[k := OriginOf(x)], y.1.values)
    {
      if y != (k, e) { assert Recorded(env, hist, y.0, from, y.1.values); }
    }
  }

  lemma FillNeg(
    env: Env, hist: map<string, seq<Delta>>, neg: Negative, from: map<string, Origin>, x: Fetch, exp: int)
    requires NegOk(env, hist, neg, from) && DistinctKeys(neg)
            && Remembers(env, hist, x.tenant, x.version, x.base, x.view)
    requires x.view == map[]
    ensures var k := Key(x.tenant, x.version);
            NegOk(env, hist, Put(neg, env.cap, k, exp), from[k := OriginOf(x)])
                && DistinctKeys(Put(neg, env.cap, k, exp))
  {
    var k := Key(x.tenant, x.version);
    PutMembers(neg, env.cap, k, exp);
    forall y | y in Put(neg, env.cap, k, exp) ensures Recorded(env, hist, y.0, from[k := OriginOf(x)], map[]) {
      if y != (k, exp) { assert Recorded(env, hist, y.0, from, map[]); }
    }
  }

  lemma FewerFetches(env: Env, hist: map<string, seq<Delta>>, pending: map<nat, Fetch>, f: nat)
    requires FetchesOk(env, hist, pending)
    ensures FetchesOk(env, hist, pending - {f})
  {
    forall g | g in pending - {f} ensures FetchOk(env, hist, (pending - {f})[g]) {
      assert FetchOk(env, hist, pending[g]);
    }
  }

  lemma WithMarkers(env: Env, s: State, f: nat, neg: Negative, from: map<string, Origin>)
    requires Inv(env, s) && NegOk(env, s.hist, neg, from) && DistinctKeys(neg)
    ensures Inv(env, s.(neg := neg, negFrom := from, pending := s.pending - {f}))
  {
    FewerFetches(env, s.hist, s.pending, f);
  }

  lemma WithEntries(env: Env, s: State, f: nat, pos: Positive, from: map<string, Origin>)
    requires Inv(env, s) && PosOk(env, s.hist, pos, from) && DistinctKeys(pos)
    ensures Inv(env, s.(pos := pos, posFrom := from, pending := s.pending - {f}))
  {
    FewerFetches(env, s.hist, s.pending, f);
  }

  lemma FillMarker(env: Env, s: State, f: nat, evicted: int, stored: int)
    requires Inv(env, s) && f in s.pending && s.pending[f].view == map[]
    ensures Inv(env, Apply(env, s, Fill(f, evicted, stored)))
  {
    var x := s.pending[f];
    var k := Key(x.tenant, x.version);
    var neg := Put(s.neg, env.cap, k, stored + NEGATIVE_TTL);
    FillNeg(env, s.hist, s.neg, s.negFrom, x, stored + NEGATIVE_TTL);
    WithMarkers(env, s, f, neg, s.negFrom[k := OriginOf(x)]);
    assert Apply(env, s, Fill(f, evicted, stored))
        == s.(neg := neg, negFrom := s.negFrom[k := OriginOf(x)], pending := s.pending - {f});
  }

  lemma FillEntry(env: Env, s: State, f: nat, evicted: int, stored: int)
    requires Inv(env, s) && f in s.pending && s.pending[f].view != map[]
    ensures Inv(env, Apply(env, s, Fill(f, evicted, stored)))
  {
    var x := s.pending[f];
    var k := Key(x.tenant, x.version);
    var pos := Stored(s.pos, env.cap, k, CacheEntry(x.view, stored + CACHE_TTL), evicted);
    FillPos(env, s.hist, s.pos, s.posFrom, x, evicted, stored);
    WithEntries(env, s, f, pos, s.posFrom[k := OriginOf(x)]);
    FillStores(env, s, f, evicted, stored);
  }

  /** What filling a snapshot with values in it does to the cache. */
  lemma FillStores(env: Env, s: State, f: nat, evicted: int, stored: int)
    requires f in s.pending && s.pending[f].view != map[]
    ensures var x := s.pending[f];
            var k := Key(x.tenant, x.version);
            Apply(env, s, Fill(f, evicted, stored))
            == s.(pos := Stored(s.pos, env.cap, k, CacheEntry(x.view, stored + CACHE_TTL), evicted),
                  posFrom := s.posFrom[k := OriginOf(x)], pending := s.pending - {f})
  {}

  lemma StepKeepsInv(env: Env, s: State, step: Step)
    requires Inv(env, s) && Enabled(s, step)
    ensures Inv(env, Apply(env, s, step))
  {
    match step {
      case Commit(t, d) => CommitKeepsInv(env, s, t, d);
      case Invalidate(t) =>
        DropWhereMembers(s.pos, EntryOf(t));
        DropWhereMembers(s.neg, MarkerOf(t));
      case Query(f, t, v) => assert History(s, t)[..|History(s, t)|] == History(s, t);
      case Fill(f, evicted, stored) =>
        if s.pending[f].view == map[] {
          FillMarker(env, s, f, evicted, stored);
        } else {
          FillEntry(env, s, f, evicted, stored);
        }
      case Sweep(first, second) =>
        DropWhereMembers(s.pos, EntryExpired(first));
        DropWhereMembers(s.neg, MarkerExpired(second));
    }
  }

  lemma {:induction false} RunKeepsInv(env: Env, s: State, steps: seq<Step>, t: State)
    requires Inv(env, s) && Run(env, s, steps, t)
    ensures Inv(env, t)
    decreases |steps|
  {
    if steps != [] {
      StepKeepsInv(env, s, steps[0]);
      RunKeepsInv(env, Apply(env, s, steps[0]), steps[1..], t);
    }
  }

  // ---------------------------------------------------------------- hits are right

  lemma ViewOfPrefix(sensitive: string -> set<string>, t: string, h: seq<Delta>, base: nat, v: int)
    requires base <= |h| && v <= base
    ensures Redacted(sensitive)(t, h[..base], v) == Redacted(sensitive)(t, h, v)
  {
    if v >= 0 {
      SnapshotStable(h[..base], h[base..], v);
      assert h[..base] + h[base..] == h;
    }
    assert Resolve(h[..base], v) == Resolve(h, v);
  }

  lemma {:induction false} ValueIsMember<V>(s: seq<(string, V)>, k: string)
    requires Value(s, k).Some?
    ensures (k, Value(s, k).value) in s
  {
    if s[0].0 != k { ValueIsMember(s[1..], k); assert (k, Value(s, k).value) in s[1..]; } else { assert s[0] in s; }
  }

  /**
   A positive hit at a version that existed when the entry's query ran, or at version 0, is what the store returns now.
   */
  lemma PositiveHitIsCoherent(
    env: Env, sensitive: string -> set<string>, s: State, steps: seq<Step>, s': State, t: string, v: int, now: int)
    requires env.view == Redacted(sensitive) && Init(s) && Run(env, s, steps, s')
    requires LiveValues(s'.pos, Key(t, v), now).Some?
    requires v <= 0 || (Key(t, v) in s'.posFrom && v <= s'.posFrom[Key(t, v)].base)
    ensures LiveValues(s'.pos, Key(t, v), now).value == env.view(t, History(s', t), v)
  {
    RunKeepsInv(env, s, steps, s');
    ValueIsMember(s'.pos, Key(t, v));
    var x := (Key(t, v), Value(s'.pos, Key(t, v)).value);
    assert Recorded(env, s'.hist, x.0, s'.posFrom, x.1.values);
    var o := s'.posFrom[x.0];
    KeyInjective(t, v, o.tenant, o.version);
    ViewOfPrefix(sensitive, t, History(s', t), o.base, v);
  }

  /** Likewise a negative hit: the tenant has nothing at that version. */
  lemma NegativeHitIsCoherent(
    env: Env, sensitive: string -> set<string>, s: State, steps: seq<Step>, s': State, t: string, v: int, now: int)
    requires env.view == Redacted(sensitive) && Init(s) && Run(env, s, steps, s')
    requires LiveMarker(s'.neg, Key(t, v), now)
    requires v <= 0 || (Key(t, v) in s'.negFrom && v <= s'.negFrom[Key(t, v)].base)
    ensures env.view(t, History(s', t), v) == map[]
  {
    RunKeepsInv(env, s, steps, s');
    ValueIsMember(s'.neg, Key(t, v));
    var x := (Key(t, v), Value(s'.neg, Key(t, v)).value);
    assert Recorded(env, s'.hist, x.0, s'.negFrom, map[]);
    var o := s'.negFrom[x.0];
    KeyInjective(t, v, o.tenant, o.version);
    ViewOfPrefix(sensitive, t, History(s', t), o.base, v);
  }

  // ---------------------------------------------------------------- versions that do not exist yet

  /** A write of one plain field. */
  function Write(p: string, value: string): Delta { map[p := Row(Some(value), None, None)] }

  function Repeat(step: Step, n: nat): seq<Step> { seq(n, _ => step) }

  lemma {:induction false} RepeatedCommits(env: Env, s: State, t: string, d: Delta, n: nat) returns (s': State)
    ensures Run(env, s, Repeat(Commit(t, d), n), s')
    ensures s' == s.(hist := s'.hist) && |History(s', t)| == |History(s, t)| + n
    ensures n > 0 ==> History(s', t)[|History(s', t)| - 1] == d
    decreases n
  {
    var steps := Repeat(Commit(t, d), n);
    if n == 0 {
      s' := s;
    } else {
      var m := Apply(env, s, steps[0]);
      assert steps[1..] == Repeat(Commit(t, d), n - 1);
      s' := RepeatedCommits(env, m, t, d, n - 1);
      if n == 1 { assert s' == m.(hist := s'.hist); LastOfNone(env, m, t, d, s'); }
    }
  }

  lemma LastOfNone(env: Env, m: State, t: string, d: Delta, s': State)
    requires Run(env, m, Repeat(Commit(t, d), 0), s')
    ensures s' == m
  {}

  lemma {:induction false} RunAppend(env: Env, s: State, steps: seq<Step>, m: State, last: Step)
    requires Run(env, s, steps, m) && Enabled(m, last)
    ensures Run(env, s, steps + [last], Apply(env, m, last))
    decreases |steps|
  {
    if steps == [] {
      assert [last][1..] == [];
    } else {
      assert (steps + [last])[1..] == steps[1..] + [last];
      RunAppend(env, Apply(env, s, steps[0]), steps[1..], m, last);
    }
  }

  /**
   The restriction is needed for every version above the latest one: from any state with a query in flight at such a
   version, writers can commit up to it and the late fill then caches, under that now existing version, a snapshot
   that is not the one the store returns. Here the query saw values; a query that saw none is the next lemma.
   */
  lemma FutureVersionGoesStale(
    env: Env, sensitive: string -> set<string>, s: State, f: nat, p: string, value: string, now: int)
    returns (steps: seq<Step>, s': State)
    requires f in s.pending && s.pending[f].view != map[] && s.pending[f].version > |History(s, s.pending[f].tenant)|
    requires DistinctKeys(s.pos)
    requires env.view == Redacted(sensitive) && p !in sensitive(s.pending[f].tenant)
    requires p in s.pending[f].view ==> s.pending[f].view[p] != value
    ensures Run(env, s, steps, s')
    ensures var t, v := s.pending[f].tenant, s.pending[f].version;
            && v == |History(s', t)|
            && LiveValues(s'.pos, Key(t, v), now) == Some(s.pending[f].view)
            && LiveValues(s'.pos, Key(t, v), now).value != env.view(t, History(s', t), v)
  {
    var x := s.pending[f];
    var d, n := Write(p, value), x.version - |History(s, x.tenant)|;
    var m := RepeatedCommits(env, s, x.tenant, d, n);
    var last := Fill(f, now, now);
    RunAppend(env, s, Repeat(Commit(x.tenant, d), n), m, last);
    steps, s' := Repeat(Commit(x.tenant, d), n) + [last], Apply(env, m, last);
    FillStores(env, m, f, now, now);
    StoredIsLive(s.pos, env.cap, Key(x.tenant, x.version), x.view, now);
    LastWriteShows(sensitive, x.tenant, History(s', x.tenant), p, value);
  }

  /** A query that saw nothing leaves a marker that hides the configuration committed since. */
  lemma FutureMarkerGoesStale(
    env: Env, sensitive: string -> set<string>, s: State, f: nat, p: string, value: string, now: int)
    returns (steps: seq<Step>, s': State)
    requires f in s.pending && s.pending[f].view == map[] && s.pending[f].version > |History(s, s.pending[f].tenant)|
    requires DistinctKeys(s.neg)
    requires env.view == Redacted(sensitive) && p !in sensitive(s.pending[f].tenant)
    ensures Run(env, s, steps, s')
    ensures var t, v := s.pending[f].tenant, s.pending[f].version;
            && v == |History(s', t)|
            && LiveMarker(s'.neg, Key(t, v), now)
            && env.view(t, History(s', t), v) != map[]
  {
    var x := s.pending[f];
    var d, n := Write(p, value), x.version - |History(s, x.tenant)|;
    var m := RepeatedCommits(env, s, x.tenant, d, n);
    var last := Fill(f, now, now);
    RunAppend(env, s, Repeat(Commit(x.tenant, d), n), m, last);
    steps, s' := Repeat(Commit(x.tenant, d), n) + [last], Apply(env, m, last);
    FillMarks(env, m, f, now, now);
    PutLookup(s.neg, env.cap, Key(x.tenant, x.version), now + NEGATIVE_TTL, Key(x.tenant, x.version));
    LastWriteShows(sensitive, x.tenant, History(s', x.tenant), p, value);
  }

  /** What filling an empty snapshot does to the cache. */
  lemma FillMarks(env: Env, s: State, f: nat, evicted: int, stored: int)
    requires f in s.pending && s.pending[f].view == map[]
    ensures var k := Key(s.pending[f].tenant, s.pending[f].version);
            Apply(env, s, Fill(f, evicted, stored))
            == s.(neg := Put(s.neg, env.cap, k, stored + NEGATIVE_TTL),
                  negFrom := s.negFrom[k := OriginOf(s.pending[f])], pending := s.pending - {f})
  {}

  lemma StoredIsLive(pos: Positive, cap: int, k: string, values: map<string, string>, now: int)
    requires DistinctKeys(pos)
    ensures LiveValues(Stored(pos, cap, k, CacheEntry(values, now + CACHE_TTL), now), k, now) == Some(values)
  {
    var e := CacheEntry(values, now + CACHE_TTL);
    StoredMembers(pos, cap, k, e, now);
    var filled := Stored(pos, cap, k, e, now);
    var i :| 0 <= i < |filled| && filled[i] == (k, e);
    ValueAt(filled, i);
  }

  lemma LastWriteShows(
    sensitive: string -> set<string>, t: string, h: seq<Delta>, p: string, value: string)
    requires h != [] && h[|h| - 1] == Write(p, value) && p !in sensitive(t)
    ensures p in Redacted(sensitive)(t, h, |h|) && Redacted(sensitive)(t, h, |h|)[p] == value
  {
    assert Resolve(h, |h|) == Snapshot(h, |h| - 1) + Write(p, value);
  }
}
