/** Write deduplication: a key can be claimed once per window, as far as the bounded memory allows. */
module Idempotency {
  import opened Lru
  import opened Sorting
  import opened Wrappers

  /** Claimed key and expiry, least recently claimed first. */
  type Claims = seq<(string, int)>

  /** The clock is read once for the test and once for the new expiry. */
  function ClaimResult(s: Claims, cap: int, key: string, tested: int, stored: int, ttl: int): (Claims, bool)
  {
    if Value(s, key).Some? && tested < Value(s, key).value then (s, false)
    else (Put(s, cap, key, stored + ttl), true)
  }

  function Expired(now: int): (string, int) -> bool { (k, exp) => now > exp }

  function Swept(s: Claims, now: int): Claims { DropWhere(s, Expired(now)) }

  class MemoryIdempotencyCache {
    const lru: LRU<string, int>

    constructor (maxEntries: int)
      ensures lru.Valid() && lru.Contents() == [] && fresh(lru)
      ensures lru.cap == if maxEntries <= 0 then 10000 else maxEntries
    {
      lru := new LRU(if maxEntries <= 0 then 10000 else maxEntries);
    }

    method Claim(key: string, tested: int, stored: int, ttl: int) returns (first: bool)
      requires lru.Valid()
      modifies lru
      ensures lru.Valid()
      ensures (lru.Contents(), first) == old(ClaimResult(lru.Contents(), lru.cap, key, tested, stored, ttl))
    {
      var exp := lru.Peek(key);
      if exp.Some? && tested < exp.value {
        return false;
      }
      lru.Set(key, stored + ttl);
      return true;
    }

    method SweepExpired(now: int)
      requires lru.Valid()
      modifies lru
      ensures lru.Valid()
      ensures lru.Contents() == old(Swept(lru.Contents(), now))
    {
      lru.DeleteWhere(Expired(now));
    }
  }

  // ---------------------------------------------------------------- runs

  datatype Op = Claim(key: string, tested: int, stored: int, ttl: int) | Sweep(now: int)

  function Apply(s: Claims, cap: int, op: Op): (Claims, bool)
  {
    match op
    case Claim(key, tested, stored, ttl) => ClaimResult(s, cap, key, tested, stored, ttl)
    case Sweep(now) => (Swept(s, now), false)
  }

  function Exec(s: Claims, cap: int, ops: seq<Op>): Claims
    decreases |ops|
  {
    if ops == [] then s else Exec(Apply(s, cap, ops[0]).0, cap, ops[1..])
  }

  /** Keys other than `key` that were granted during the run. */
  function Granted(s: Claims, cap: int, ops: seq<Op>, key: string): set<string>
    decreases |ops|
  {
    if ops == [] then {}
    else
      var (t, first) := Apply(s, cap, ops[0]);
      (if first && ops[0].key != key then {ops[0].key} else {}) + Granted(t, cap, ops[1..], key)
  }

  predicate ClockBelow(op: Op, limit: int)
  {
    match op
    case Claim(_, tested, stored, _) => tested < limit && stored < limit
    case Sweep(now) => now < limit
  }

  predicate Bounded(s: Claims, cap: int) { DistinctKeys(s) && |s| <= cap }

  /** The claim of `key` is still recorded, and everything claimed more recently is among `others`. */
  ghost predicate Recorded(s: Claims, key: string, exp: int, others: set<string>)
  {
    exists a: Claims, b: Claims :: Split(s, a, key, exp, b, others)
  }

  ghost predicate Split(s: Claims, a: Claims, key: string, exp: int, b: Claims, others: set<string>)
  {
    s == a + [(key, exp)] + b && forall i :: 0 <= i < |b| ==> b[i].0 in others
  }

  /** Claiming another key keeps the record, unless that evicts it, in which case `others` has filled the cache. */
  lemma OtherClaim(s: Claims, cap: int, key: string, exp: int, others: set<string>, k: string, v: int)
    requires 1 <= cap && Bounded(s, cap) && k != key && key !in others && Recorded(s, key, exp, others)
    ensures Recorded(Put(s, cap, k, v), key, exp, others + {k}) || |others + {k}| >= cap
  {
    var a: Claims, b: Claims :| Split(s, a, key, exp, b, others);
    var t := Put(s, cap, k, v);
    if Value(s, k).Some? {
      WithoutConcat(a + [(key, exp)], b, k);
      WithoutConcat(a, [(key, exp)], k);
      WithoutMembers(b, k);
      var a', b' := Without(a, k), Without(b, k) + [(k, v)];
      assert Without([(key, exp)], k) == [(key, exp)] by { WithoutAbsent([(key, exp)], k); }
      forall i | 0 <= i < |b'| ensures b'[i].0 in others + {k} {
        if i < |b'| - 1 { assert b'[i] in Without(b, k); assert b'[i] in b; }
      }
      assert t == a' + [(key, exp)] + b';
      assert Split(t, a', key, exp, b', others + {k});
    } else if |s| >= cap && a == [] {
      assert s[1..] == b;
      assert DistinctKeys(b);
      assert k !in others || k in others;
      FillWithNew(s, b, others, k);
    } else {
      var a' := if |s| >= cap then a[1..] else a;
      assert t == a' + [(key, exp)] + (b + [(k, v)]);
      assert Split(t, a', key, exp, b + [(k, v)], others + {k});
    }
  }

  lemma FillWithNew(s: Claims, b: Claims, others: set<string>, k: string)
    requires s != [] && b == s[1..] && DistinctKeys(s) && Value(s, k).None?
    requires forall i :: 0 <= i < |b| ==> b[i].0 in others
    ensures |others + {k}| >= |s|
  {
    assert forall i :: 0 <= i < |b| ==> b[i] == s[i + 1] && b[i].0 != k;
    var keys := seq(|b|, i requires 0 <= i < |b| => b[i].0);
    DistinctFitInto(keys, others - {k});
    assert others + {k} == (others - {k}) + {k};
  }

  lemma SweepKeepsRecord(s: Claims, key: string, exp: int, others: set<string>, now: int)
    requires Recorded(s, key, exp, others) && now < exp
    ensures Recorded(Swept(s, now), key, exp, others)
  {
    var a: Claims, b: Claims :| Split(s, a, key, exp, b, others);
    var p := Expired(now);
    DropWhereConcat(a + [(key, exp)], b, p);
    DropWhereConcat(a, [(key, exp)], p);
    DropWhereMembers(b, p);
    assert DropWhere([(key, exp)], p) == [(key, exp)];
    forall i | 0 <= i < |DropWhere(b, p)| ensures DropWhere(b, p)[i].0 in others { assert DropWhere(b, p)[i] in b; }
    assert Split(Swept(s, now), DropWhere(a, p), key, exp, DropWhere(b, p), others);
  }

  lemma RecordedValue(s: Claims, key: string, exp: int, others: set<string>)
    requires DistinctKeys(s) && Recorded(s, key, exp, others)
    ensures Value(s, key) == Some(exp)
  {
    var a: Claims, b: Claims :| Split(s, a, key, exp, b, others);
    assert s[|a|] == (key, exp);
    ValueAt(s, |a|);
  }

  lemma ApplyBounded(s: Claims, cap: int, op: Op)
    requires 1 <= cap && Bounded(s, cap)
    ensures Bounded(Apply(s, cap, op).0, cap)
  {
    match op {
      case Claim(key, tested, stored, ttl) => PutBounded(s, cap, key, stored + ttl);
      case Sweep(now) => DropWhereMembers(s, Expired(now));
    }
  }

  lemma {:induction false} RunKeepsRecord(s: Claims, cap: int, ops: seq<Op>, key: string, exp: int, others: set<string>)
    requires 1 <= cap && Bounded(s, cap) && key !in others && Recorded(s, key, exp, others)
    requires forall i :: 0 <= i < |ops| ==> ClockBelow(ops[i], exp)
    ensures |others + Granted(s, cap, ops, key)| >= cap
         || Value(Exec(s, cap, ops), key) == Some(exp)
    decreases |ops|
  {
    if ops == [] {
      RecordedValue(s, key, exp, others);
    } else {
      var op := ops[0];
      var (t, first) := Apply(s, cap, op);
      ApplyBounded(s, cap, op);
      RecordedValue(s, key, exp, others);
      assert ClockBelow(op, exp);
      var now := if first && op.key != key then others + {op.key} else others;
      if op.Sweep? { SweepKeepsRecord(s, key, exp, others, op.now); }
      else if first && op.key != key { OtherClaim(s, cap, key, exp, others, op.key, op.stored + op.ttl); }
      var later := Granted(t, cap, ops[1..], key);
      assert others + Granted(s, cap, ops, key) == now + later;
      if Recorded(t, key, exp, now) {
        RunKeepsRecord(t, cap, ops[1..], key, exp, now);
      } else {
        assert |now| >= cap;
        SubsetSize(now, now + later);
      }
    }
  }

  lemma GrantedMeansNotHeld(s: Claims, cap: int, op: Op)
    requires op.Claim? && Apply(s, cap, op).1
    ensures Value(s, op.key).Some? ==> Value(s, op.key).value <= op.tested
    ensures Apply(s, cap, op).0 == Put(s, cap, op.key, op.stored + op.ttl)
  {}

  lemma GrantIsRecorded(s: Claims, cap: int, key: string, exp: int)
    requires 1 <= cap && Bounded(s, cap)
    ensures Bounded(Put(s, cap, key, exp), cap) && Recorded(Put(s, cap, key, exp), key, exp, {})
  {
    PutBounded(s, cap, key, exp);
    var a :| Put(s, cap, key, exp) == a + [(key, exp)];
    assert Split(Put(s, cap, key, exp), a, key, exp, [], {});
  }

  /**
   A key granted once is granted again before its window ends only if at least `cap` distinct other keys were
   granted in between. Any operations may happen in between, with clocks that stay inside the window.
   */
  lemma {:induction false} ClaimedTwiceOnlyWhenFull(s: Claims, cap: int, first: Op, ops: seq<Op>, second: Op)
    requires 1 <= cap && Bounded(s, cap)
    requires first.Claim? && second.Claim? && first.key == second.key
    requires Apply(s, cap, first).1
    requires forall i :: 0 <= i < |ops| ==> ClockBelow(ops[i], first.stored + first.ttl)
    requires second.tested < first.stored + first.ttl
    requires Apply(Exec(Apply(s, cap, first).0, cap, ops), cap, second).1
    ensures |Granted(Apply(s, cap, first).0, cap, ops, first.key)| >= cap
  {
    var t := Apply(s, cap, first).0;
    var key, exp := first.key, first.stored + first.ttl;
    GrantedMeansNotHeld(s, cap, first);
    GrantIsRecorded(s, cap, key, exp);
    GrantedMeansNotHeld(Exec(t, cap, ops), cap, second);
    RunKeepsRecord(t, cap, ops, key, exp, {});
    assert {} + Granted(t, cap, ops, key) == Granted(t, cap, ops, key);
  }
}
