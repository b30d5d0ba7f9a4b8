/**
 The per-key token-bucket limiter. Buckets are evicted least recently used first; evicted keys are remembered in a
 quarantine log so that coming back does not grant a fresh burst. A call looks its bucket up under the lock and charges
 it after releasing the lock, so a bucket can be charged after it was evicted. Clocks and rates are real numbers.
 */
module RateLimiter {
  import opened Wrappers

  /** `earn` gives the tokens earned between two instants. */
  datatype Env = Env(earn: (real, real) -> real, burst: nat, maxBuckets: int)

  function Earned(rate: real, seconds: real): real { rate * seconds }

  /** The earnings of a limiter with the given rate. */
  function PerSecond(rate: real): (real, real) -> real { (from, to) => Earned(rate, to - from) }

  // ---------------------------------------------------------------- token buckets

  datatype Bucket = Bucket(tokens: real, last: real)

  function Min(a: real, b: real): real { if a <= b then a else b }

  function Refill(env: Env, from: real, to: real): real { if to <= from then 0.0 else env.earn(from, to) }

  /** Tokens available at `now`. */
  function Level(env: Env, b: Bucket, now: real): real
  {
    Min(env.burst as real, b.tokens + Refill(env, b.last, now))
  }

  /** Take `n` tokens if there are that many; a refused request leaves the bucket as it was. */
  function Take(env: Env, b: Bucket, now: real, n: real): (Bucket, bool)
  {
    if Level(env, b, now) >= n then (Bucket(Level(env, b, now) - n, now), true) else (b, false)
  }

  function Full(env: Env, now: real): Bucket { Bucket(env.burst as real, now) }

  // ---------------------------------------------------------------- the limiter

  /** A list element. Elements are numbered as they are made, so an evicted one differs from its key's next one. */
  datatype Entry = Entry(key: string, number: nat)

  /** Listed elements and quarantined keys, most recent first, and the bucket of every element ever made. */
  datatype Lim = Lim(ll: seq<Entry>, q: seq<string>, buckets: map<Entry, Bucket>, made: nat)

  function Find(ll: seq<Entry>, key: string): (i: nat)
    ensures i <= |ll|
    ensures i < |ll| ==> ll[i].key == key
    ensures forall j :: 0 <= j < i ==> ll[j].key != key
  {
    if ll == [] || ll[0].key == key then 0 else 1 + Find(ll[1..], key)
  }

  predicate Has(ll: seq<Entry>, key: string) { Find(ll, key) < |ll| }

  /** The listed element of a key. */
  function At(ll: seq<Entry>, key: string): Option<Entry> { if Has(ll, key) then Some(ll[Find(ll, key)]) else None }

  /** Adds `key` to the log unless it is there already, forgetting the oldest if the log is over-full. */
  function Quarantined(q: seq<string>, cap: int, key: string): seq<string>
  {
    if key in q then q
    else
      var longer := [key] + q;
      if |longer| > cap then longer[..|longer| - 1] else longer
  }

  /** A key enters with a full burst: it has no bucket and is not in quarantine. */
  predicate FullAdmission(s: Lim, key: string) { !Has(s.ll, key) && key !in s.q }

  /** The bucket of a key that enters; from quarantine it starts empty. */
  function NewBucket(env: Env, s: Lim, key: string, now: real): Bucket
  {
    if key in s.q then Take(env, Full(env, now), now, env.burst as real).0 else Full(env, now)
  }

  /** The element a call for `key` finds or makes. */
  function EntryFor(s: Lim, key: string): Entry
  {
    if Has(s.ll, key) then s.ll[Find(s.ll, key)] else Entry(key, s.made)
  }

  /** The element that looking `key` up evicts. */
  function Evicted(env: Env, s: Lim, key: string): Option<Entry>
  {
    if Has(s.ll, key) || |s.ll| + 1 <= env.maxBuckets then None
    else Some(if s.ll == [] then EntryFor(s, key) else s.ll[|s.ll| - 1])
  }

  /** A new element at the front, and the oldest evicted if there are too many. */
  function Inserted(env: Env, s: Lim, key: string, b: Bucket): Lim
  {
    var e := Entry(key, s.made);
    var pushed := [e] + s.ll;
    if |pushed| > env.maxBuckets
    then Lim(pushed[..|pushed| - 1], Quarantined(s.q, env.maxBuckets, pushed[|pushed| - 1].key),
             s.buckets[e := b], s.made + 1)
    else Lim(pushed, s.q, s.buckets[e := b], s.made + 1)
  }

  function Moved(ll: seq<Entry>, i: nat): seq<Entry>
    requires i < |ll|
  {
    [ll[i]] + (ll[..i] + ll[i + 1..])
  }

  /** What a call does under the lock: the key's element comes to the front, made if there is none. */
  function LookedUp(env: Env, s: Lim, key: string, now: real): Lim
  {
    if Has(s.ll, key) then s.(ll := Moved(s.ll, Find(s.ll, key)))
    else Inserted(env, s, key, NewBucket(env, s, key, now))
  }

  /** What it does afterwards: charge the bucket of the element it found, and learn whether it may proceed. */
  function Charged(env: Env, s: Lim, e: Entry, now: real): (Lim, bool)
    requires e in s.buckets
  {
    var (b, ok) := Take(env, s.buckets[e], now, 1.0);
    (s.(buckets := s.buckets[e := b]), ok)
  }

  predicate DistinctEntries(ll: seq<Entry>) { forall i, j :: 0 <= i < j < |ll| ==> ll[i].key != ll[j].key }

  predicate DistinctLog(q: seq<string>) { forall i, j :: 0 <= i < j < |q| ==> q[i] != q[j] }

  /** Keys and log entries do not repeat, and every element has a bucket and a number of its own. */
  ghost predicate WellFormed(s: Lim)
  {
    && DistinctEntries(s.ll) && DistinctLog(s.q)
    && (forall e :: e in s.ll ==> e in s.buckets)
    && (forall e :: e in s.buckets ==> e.number < s.made)
  }

  ghost predicate Indexes(keys: map<string, Entry>, ll: seq<Entry>)
  {
    forall k :: At(ll, k) == if k in keys then Some(keys[k]) else None
  }

  ghost predicate Logs(qmap: set<string>, q: seq<string>) { DistinctLog(q) && forall k :: k in qmap <==> k in q }

  class InProcessLimiter {
    const env: Env
    var ll: seq<Entry>
    var keys: map<string, Entry>
    var qll: seq<string>
    var qmap: set<string>
    var buckets: map<Entry, Bucket>
    var made: nat

    /** Each list and the map beside it hold the same keys, each once. */
    ghost predicate Valid()
      reads this
    {
      WellFormed(State()) && Indexes(keys, ll) && Logs(qmap, qll)
    }

    ghost function State(): Lim
      reads this
    {
      Lim(ll, qll, buckets, made)
    }

    constructor (env: Env)
      ensures Valid() && State() == Lim([], [], map[], 0) && this.env == env
    {
      this.env := env;
      ll, keys, qll, qmap, buckets, made := [], map[], [], {}, map[], 0;
    }

    /** A call that no other one comes between. */
    method Allow(key: string, drained: real, now: real) returns (ok: bool)
      requires Valid()
      modifies this
      ensures Valid()
      ensures var s, e := old(LookedUp(env, State(), key, drained)), old(EntryFor(State(), key));
              e in s.buckets && (State(), ok) == Charged(env, s, e, now)
    {
      var e := Lookup(key, drained);
      ok := Charge(e, now);
    }

    /** The critical section of a call. */
    method Lookup(key: string, now: real) returns (e: Entry)
      requires Valid()
      modifies this
      ensures Valid() && State() == old(LookedUp(env, State(), key, now))
      ensures e == old(EntryFor(State(), key)) && e in buckets
    {
      if key in keys {
        e := keys[key];
        MoveKeepsKeys(ll, Find(ll, key));
        ll := Moved(ll, Find(ll, key));
        return;
      }
      var rl := Full(env, now);
      if key in qmap {
        rl := Take(env, rl, now, env.burst as real).0;
      }
      e := Entry(key, made);
      Insert(e, rl);
    }

    /** The charge that follows it. */
    method Charge(e: Entry, now: real) returns (ok: bool)
      requires Valid() && e in buckets
      modifies this`buckets
      ensures Valid() && (State(), ok) == old(Charged(env, State(), e, now))
    {
      var (b, allowed) := Take(env, buckets[e], now, 1.0);
      buckets := buckets[e := b];
      ok := allowed;
    }

    method Insert(e: Entry, b: Bucket)
      requires Valid() && e.key !in keys && e.number == made
      modifies this
      ensures Valid() && State() == old(Inserted(env, State(), e.key, b))
    {
      PushIndexes(keys, ll, e);
      PushKeepsForm(State(), e, b);
      buckets, made := buckets[e := b], made + 1;
      ll, keys := [e] + ll, keys[e.key := e];
      if |ll| > env.maxBuckets {
        EvictOldest();
      }
    }

    method EvictOldest()
      requires Valid() && ll != []
      modifies this`ll, this`keys, this`qll, this`qmap
      ensures Valid() && ll == old(ll[..|ll| - 1])
      ensures qll == old(Quarantined(qll, env.maxBuckets, ll[|ll| - 1].key))
    {
      var evicted := ll[|ll| - 1].key;
      PopIndexes(keys, ll);
      PopKeepsForm(State());
      ll, keys := ll[..|ll| - 1], keys - {evicted};
      Quarantine(evicted);
    }

    method Quarantine(key: string)
      requires Logs(qmap, qll)
      modifies this`qll, this`qmap
      ensures Logs(qmap, qll) && qll == old(Quarantined(qll, env.maxBuckets, key))
    {
      if key in qmap {
        return;
      }
      qll := [key] + qll;
      qmap := qmap + {key};
      if |qll| > env.maxBuckets {
        ghost var n := |qll| - 1;
        assert forall k :: k in qll <==> k in qll[..n] || k == qll[n];
        assert forall k :: k in qll[..n] ==> k != qll[n];
        qmap := qmap - {qll[|qll| - 1]};
        qll := qll[..|qll| - 1];
      }
    }
  }

  lemma FoundAt(ll: seq<Entry>, i: nat)
    requires DistinctEntries(ll) && i < |ll|
    ensures At(ll, ll[i].key) == Some(ll[i])
  {
    assert Find(ll, ll[i].key) == i;
  }

  /** In lists without repeated keys, the elements decide what is found. */
  lemma SameElements(a: seq<Entry>, b: seq<Entry>, k: string)
    requires DistinctEntries(a) && DistinctEntries(b) && forall e :: e in a <==> e in b
    ensures At(a, k) == At(b, k)
  {
    assert Has(b, k) ==> b[Find(b, k)] in a;
    if Has(a, k) {
      assert a[Find(a, k)] in b;
      var j :| 0 <= j < |b| && b[j] == a[Find(a, k)];
      FoundAt(b, j);
    }
  }

  lemma MoveKeepsElements(ll: seq<Entry>, i: nat)
    requires DistinctEntries(ll) && i < |ll|
    ensures DistinctEntries(Moved(ll, i)) && forall e :: e in Moved(ll, i) <==> e in ll
  {
    assert ll == ll[..i] + [ll[i]] + ll[i + 1..];
  }

  lemma MoveKeepsKeys(ll: seq<Entry>, i: nat)
    requires DistinctEntries(ll) && i < |ll|
    ensures DistinctEntries(Moved(ll, i)) && forall e :: e in Moved(ll, i) <==> e in ll
    ensures forall k :: At(Moved(ll, i), k) == At(ll, k)
  {
    MoveKeepsElements(ll, i);
    forall k ensures At(Moved(ll, i), k) == At(ll, k) { SameElements(Moved(ll, i), ll, k); }
  }

  lemma PushKeepsKeys(ll: seq<Entry>, e: Entry)
    requires DistinctEntries(ll) && !Has(ll, e.key)
    ensures DistinctEntries([e] + ll)
    ensures forall k :: At([e] + ll, k) == if k == e.key then Some(e) else At(ll, k)
  {
    assert ([e] + ll)[1..] == ll;
  }

  lemma PopKeepsKeys(ll: seq<Entry>)
    requires DistinctEntries(ll) && ll != []
    ensures var n := |ll| - 1;
            DistinctEntries(ll[..n]) && forall k :: At(ll[..n], k) == if k == ll[n].key then None else At(ll, k)
  {
    var n := |ll| - 1;
    forall k ensures At(ll[..n], k) == if k == ll[n].key then None else At(ll, k) {
      if Has(ll[..n], k) { FoundAt(ll, Find(ll[..n], k)); }
      if Has(ll, k) && k != ll[n].key { FoundAt(ll[..n], Find(ll, k)); }
    }
  }

  lemma PushIndexes(keys: map<string, Entry>, ll: seq<Entry>, e: Entry)
    requires Indexes(keys, ll) && DistinctEntries(ll) && e.key !in keys
    ensures Indexes(keys[e.key := e], [e] + ll) && !Has(ll, e.key)
  {
    assert At(ll, e.key) == None;
    PushKeepsKeys(ll, e);
  }

  lemma PopIndexes(keys: map<string, Entry>, ll: seq<Entry>)
    requires Indexes(keys, ll) && DistinctEntries(ll) && ll != []
    ensures Indexes(keys - {ll[|ll| - 1].key}, ll[..|ll| - 1])
  {
    PopKeepsKeys(ll);
  }

  lemma PushKeepsForm(s: Lim, e: Entry, b: Bucket)
    requires WellFormed(s) && !Has(s.ll, e.key) && e.number == s.made
    ensures WellFormed(Lim([e] + s.ll, s.q, s.buckets[e := b], s.made + 1))
  {
    PushKeepsKeys(s.ll, e);
  }

  lemma PopKeepsForm(s: Lim)
    requires WellFormed(s) && s.ll != []
    ensures WellFormed(s.(ll := s.ll[..|s.ll| - 1]))
  {
    PopKeepsKeys(s.ll);
  }
}
