/**
 What the limiter guarantees over whole runs of calls, for any mix of keys, evictions and re-entries, and for any
 interleaving of the two steps of each call.
 */
module RateBounds {
  import opened RateLimiter
  import opened Sorting
  import opened Wrappers

  /** The limiter and the calls that have looked up their element and not charged it yet. */
  datatype State = State(lim: Lim, waiting: multiset<Entry>)

  /** The two steps of a call, each with its clock reading. */
  datatype Step = Lookup(key: string, at: real) | Charge(call: Entry, at: real)

  predicate Enabled(s: State, step: Step) { step.Charge? ==> step.call in s.waiting && step.call in s.lim.buckets }

  function Next(env: Env, s: State, step: Step): State
    requires Enabled(s, step)
  {
    match step
    case Lookup(key, at) =>
      State(LookedUp(env, s.lim, key, at), s.waiting + multiset{EntryFor(s.lim, key)})
    case Charge(call, at) =>
      State(Charged(env, s.lim, call, at).0, s.waiting - multiset{call})
  }

  /** The step lets a call proceed. */
  predicate Granted(env: Env, s: State, step: Step)
  {
    step.Charge? && step.call in s.lim.buckets && Charged(env, s.lim, step.call, step.at).1
  }

  function Fresh(): State { State(Lim([], [], map[], 0), multiset{}) }

  predicate StepAt(env: Env, states: seq<State>, steps: seq<Step>, i: nat)
    requires i < |steps| < |states|
  {
    && Enabled(states[i], steps[i]) && states[i + 1] == Next(env, states[i], steps[i])
    && (i > 0 ==> steps[i - 1].at <= steps[i].at)
  }

  /** A run as the sequence of its states. Clock readings do not go back. */
  predicate Execution(env: Env, states: seq<State>, steps: seq<Step>)
  {
    && |states| == |steps| + 1
    && states[0] == Fresh()
    && forall i :: 0 <= i < |steps| ==> StepAt(env, states, steps, i)
  }

  /** The element a step evicts. */
  function EvictedBy(env: Env, s: State, step: Step): Option<Entry>
  {
    if step.Lookup? then Evicted(env, s.lim, step.key) else None
  }

  function Lost(env: Env, s: State, step: Step, k: string): set<string>
  {
    var gone := EvictedBy(env, s, step);
    if gone.Some? && gone.value.key != k then {gone.value.key} else {}
  }

  /** Keys other than `k` that lost their bucket in the steps from `m` up to `n`. */
  function EvictedOthers(env: Env, states: seq<State>, steps: seq<Step>, m: nat, n: nat, k: string): set<string>
    requires m <= n <= |steps| < |states|
    decreases n
  {
    if m == n then {} else EvictedOthers(env, states, steps, m, n - 1, k) + Lost(env, states[n - 1], steps[n - 1], k)
  }

  /** Besides the limiter being in order, whoever waits can charge. */
  ghost predicate Sound(s: State) { WellFormed(s.lim) && forall e :: e in s.waiting ==> e in s.lim.buckets }

  /** What a lookup does to the listed elements. */
  lemma LookupFinds(env: Env, s: Lim, key: string, at: real, k: string)
    requires WellFormed(s)
    ensures var gone, e := Evicted(env, s, key), EntryFor(s, key);
            At(LookedUp(env, s, key, at).ll, k)
            == if gone.Some? && gone.value.key == k then None else if k == key then Some(e) else At(s.ll, k)
    ensures DistinctEntries(LookedUp(env, s, key, at).ll)
  {
    if Has(s.ll, key) {
      MoveKeepsKeys(s.ll, Find(s.ll, key));
    } else {
      PushKeepsKeys(s.ll, EntryFor(s, key));
      PopKeepsKeys([EntryFor(s, key)] + s.ll);
    }
  }

  lemma LookupKeepsForm(env: Env, s: Lim, key: string, at: real)
    requires WellFormed(s)
    ensures WellFormed(LookedUp(env, s, key, at)) && EntryFor(s, key) in LookedUp(env, s, key, at).buckets
    ensures forall e :: e in s.buckets ==> e in LookedUp(env, s, key, at).buckets
  {
    LookupFinds(env, s, key, at, key);
    var gone := Evicted(env, s, key);
    if gone.Some? { QuarantineDistinct(s.q, env.maxBuckets, gone.value.key); }
    if Has(s.ll, key) { MoveKeepsElements(s.ll, Find(s.ll, key)); }
  }

  /** Every step keeps the limiter in order and every waiting call able to charge. */
  lemma StepKeepsSound(env: Env, s: State, step: Step)
    requires Sound(s) && Enabled(s, step)
    ensures Sound(Next(env, s, step))
  {
    if step.Lookup? { LookupKeepsForm(env, s.lim, step.key, step.at); }
  }

  /** No bucket is overdrawn. */
  ghost predicate Solvent(s: Lim) { forall e :: e in s.buckets ==> s.buckets[e].tokens >= 0.0 }

  lemma StepKeepsSolvent(env: Env, s: State, step: Step)
    requires Solvent(s.lim) && Enabled(s, step)
    ensures Solvent(Next(env, s, step).lim)
  {}

  lemma {:induction false} RunKeepsSound(env: Env, states: seq<State>, steps: seq<Step>, i: nat)
    requires Execution(env, states, steps) && i < |states|
    ensures Sound(states[i]) && Solvent(states[i].lim)
  {
    if i > 0 {
      RunKeepsSound(env, states, steps, i - 1);
      assert StepAt(env, states, steps, i - 1);
      StepKeepsSound(env, states[i - 1], steps[i - 1]);
      StepKeepsSolvent(env, states[i - 1], steps[i - 1]);
    }
  }

  // ---------------------------------------------------------------- spacing of full bursts

  /** Everything quarantined after `k` is among `others`. */
  ghost predicate Shielded(q: seq<string>, k: string, others: set<string>)
  {
    exists i :: 0 <= i < |q| && q[i] == k && forall j :: 0 <= j < i ==> q[j] in others
  }

  /** Since its last full admission: `k` has kept its bucket, or is quarantined, or `others` has filled the log. */
  ghost predicate Guarded(env: Env, s: Lim, k: string, others: set<string>)
  {
    || (Has(s.ll, k) && k !in s.q)
    || Shielded(s.q, k, others)
    || |others| >= env.maxBuckets
  }

  lemma QuarantineSelf(q: seq<string>, cap: int, k: string, others: set<string>)
    requires cap >= 1 && k !in q
    ensures Shielded(Quarantined(q, cap, k), k, others)
  {
    assert Quarantined(q, cap, k)[0] == k;
  }

  lemma QuarantineDistinct(q: seq<string>, cap: int, key: string)
    requires DistinctLog(q)
    ensures DistinctLog(Quarantined(q, cap, key))
    ensures forall x :: x in Quarantined(q, cap, key) ==> x == key || x in q
  {}

  /** Logging another key keeps `k` shielded, unless that pushes `k` out, and then the log is full of others. */
  lemma QuarantineOther(q: seq<string>, cap: int, k: string, o: string, others: set<string>)
    requires DistinctLog(q) && o != k && Shielded(q, k, others)
    ensures Shielded(Quarantined(q, cap, o), k, others + {o}) || |others + {o}| >= cap
  {
    var i :| 0 <= i < |q| && q[i] == k && forall j :: 0 <= j < i ==> q[j] in others;
    var r := Quarantined(q, cap, o);
    if o in q {
      assert r[i] == k;
    } else {
      var longer := [o] + q;
      assert longer[i + 1] == k && forall j :: 0 <= j < i + 1 ==> longer[j] in others + {o};
      if i + 1 < |r| {
        assert r[i + 1] == k;
      } else {
        DistinctFitInto(longer[..i + 1], others + {o});
      }
    }
  }

  lemma LookupKeepsGuard(env: Env, s: Lim, key: string, at: real, k: string, others: set<string>)
    requires WellFormed(s) && env.maxBuckets >= 1 && Guarded(env, s, k, others)
    ensures var gone := Evicted(env, s, key);
            Guarded(env, LookedUp(env, s, key, at), k,
                    if gone.Some? && gone.value.key != k then others + {gone.value.key} else others)
  {
    LookupFinds(env, s, key, at, k);
    var gone := Evicted(env, s, key);
    if |others| >= env.maxBuckets {
      if gone.Some? { SubsetSize(others, others + {gone.value.key}); }
    } else if gone.Some? && gone.value.key == k {
      if k !in s.q { QuarantineSelf(s.q, env.maxBuckets, k, others); }
    } else if gone.Some? {
      if Shielded(s.q, k, others) {
        QuarantineOther(s.q, env.maxBuckets, k, gone.value.key, others);
      } else {
        QuarantineDistinct(s.q, env.maxBuckets, gone.value.key);
      }
    }
  }

  lemma StepKeepsGuard(env: Env, s: State, step: Step, k: string, others: set<string>)
    requires Sound(s) && Enabled(s, step) && env.maxBuckets >= 1 && Guarded(env, s.lim, k, others)
    ensures Guarded(env, Next(env, s, step).lim, k, others + Lost(env, s, step, k))
  {
    assert others + {} == others;
    if step.Lookup? { LookupKeepsGuard(env, s.lim, step.key, step.at, k, others); }
  }

  lemma {:induction false} RunKeepsGuard(env: Env, states: seq<State>, steps: seq<Step>, m: nat, n: nat, k: string)
    requires Execution(env, states, steps) && m <= n <= |steps| && env.maxBuckets >= 1
    requires Guarded(env, states[m].lim, k, {})
    ensures Guarded(env, states[n].lim, k, EvictedOthers(env, states, steps, m, n, k))
    decreases n
  {
    if m < n {
      RunKeepsGuard(env, states, steps, m, n - 1, k);
      RunKeepsSound(env, states, steps, n - 1);
      assert StepAt(env, states, steps, n - 1);
      StepKeepsGuard(env, states[n - 1], steps[n - 1], k, EvictedOthers(env, states, steps, m, n - 1, k));
    }
  }

  /** A key that was just admitted with a full burst is guarded. */
  lemma AdmittedIsGuarded(env: Env, s: Lim, key: string, at: real)
    requires WellFormed(s) && FullAdmission(s, key) && env.maxBuckets >= 1
    ensures Guarded(env, LookedUp(env, s, key, at), key, {})
  {
    LookupFinds(env, s, key, at, key);
    var gone := Evicted(env, s, key);
    if gone.Some? {
      QuarantineDistinct(s.q, env.maxBuckets, gone.value.key);
    }
  }

  /** The step admits `k` with a full burst. */
  predicate Admits(s: State, step: Step, k: string) { step.Lookup? && step.key == k && FullAdmission(s.lim, k) }

  lemma AdmissionGuards(env: Env, states: seq<State>, steps: seq<Step>, m: nat, k: string)
    requires Execution(env, states, steps) && m < |steps| && Admits(states[m], steps[m], k) && env.maxBuckets >= 1
    ensures Guarded(env, states[m + 1].lim, k, {})
  {
    RunKeepsSound(env, states, steps, m);
    assert StepAt(env, states, steps, m);
    AdmittedIsGuarded(env, states[m].lim, k, steps[m].at);
  }

  /** Between two full-burst admissions of a key at least `maxBuckets` distinct other keys were evicted. */
  lemma FullBurstsAreSpaced(env: Env, states: seq<State>, steps: seq<Step>, m: nat, n: nat, k: string)
    requires Execution(env, states, steps) && m < n < |steps|
    requires Admits(states[m], steps[m], k) && Admits(states[n], steps[n], k)
    ensures |EvictedOthers(env, states, steps, m + 1, n, k)| >= env.maxBuckets
  {
    if env.maxBuckets >= 1 {
      AdmissionGuards(env, states, steps, m, k);
      RunKeepsGuard(env, states, steps, m + 1, n, k);
    }
  }

  // ---------------------------------------------------------------- refill

  /** Earnings are never negative and add up over adjacent spans. */
  ghost predicate Steady(env: Env)
  {
    && (forall a, b :: a <= b ==> env.earn(a, b) >= 0.0)
    && (forall a, b, c {:trigger env.earn(a, b), env.earn(b, c)} :: a <= b <= c ==>
          env.earn(a, c) == env.earn(a, b) + env.earn(b, c))
  }

  lemma PerSecondIsSteady(env: Env, rate: real)
    requires rate >= 0.0 && env.earn == PerSecond(rate)
    ensures Steady(env)
  {
    forall a, b | a <= b ensures env.earn(a, b) >= 0.0 { EarnedNonNegative(rate, b - a); }
    forall a, b, c {:trigger env.earn(a, b), env.earn(b, c)} | a <= b <= c
      ensures env.earn(a, c) == env.earn(a, b) + env.earn(b, c)
    {
      EarnedAdds(rate, b - a, c - b);
      assert (b - a) + (c - b) == c - a;
    }
  }

  lemma EarnedNonNegative(rate: real, x: real)
    requires rate >= 0.0 && x >= 0.0
    ensures Earned(rate, x) >= 0.0
  {}

  lemma EarnedAdds(rate: real, x: real, y: real)
    ensures Earned(rate, x + y) == Earned(rate, x) + Earned(rate, y)
  {}

  lemma RefillAdds(env: Env, a: real, b: real, c: real)
    requires Steady(env) && a <= b <= c
    ensures Refill(env, a, c) == Refill(env, a, b) + Refill(env, b, c)
    ensures 0.0 <= Refill(env, a, b)
  {}

  /** Waiting adds at most the refill. */
  lemma LevelGrows(env: Env, b: Bucket, from: real, to: real)
    requires Steady(env) && from <= to
    ensures Level(env, b, to) <= Level(env, b, from) + Refill(env, from, to)
  {
    if b.last <= from { RefillAdds(env, b.last, from, to); }
    else if b.last <= to { RefillAdds(env, from, b.last, to); }
    RefillAdds(env, from, to, to);
  }

  lemma LevelNonNegative(env: Env, b: Bucket, now: real)
    requires Steady(env) && b.tokens >= 0.0
    ensures Level(env, b, now) >= 0.0
  {
    if b.last <= now { RefillAdds(env, b.last, now, now); }
  }

  // ---------------------------------------------------------------- the token account of one key

  /** Tokens of the element that is listed for `k`: none while there is no such element. */
  function Spendable(env: Env, s: Lim, k: string, now: real): real
  {
    if EntryFor(s, k) in s.buckets then Level(env, s.buckets[EntryFor(s, k)], now) else 0.0
  }

  function Spent(env: Env, s: State, step: Step, k: string): nat
  {
    if Granted(env, s, step) && step.call.key == k then 1 else 0
  }

  /** A call allowed on an element that was evicted between its two steps. */
  function Stray(env: Env, s: State, step: Step, k: string): nat
  {
    if Granted(env, s, step) && step.call.key == k && step.call !in s.lim.ll then 1 else 0
  }

  /** The calls for `k` that the steps from `m` up to `n` let proceed. */
  function Allowed(env: Env, states: seq<State>, steps: seq<Step>, m: nat, n: nat, k: string): nat
    requires m <= n <= |steps| < |states|
    decreases n
  {
    if m == n then 0
    else Allowed(env, states, steps, m, n - 1, k) + Spent(env, states[n - 1], steps[n - 1], k)
  }

  function Strays(env: Env, states: seq<State>, steps: seq<Step>, m: nat, n: nat, k: string): nat
    requires m <= n <= |steps| < |states|
    decreases n
  {
    if m == n then 0
    else Strays(env, states, steps, m, n - 1, k) + Stray(env, states[n - 1], steps[n - 1], k)
  }

  function FullBursts(states: seq<State>, steps: seq<Step>, m: nat, n: nat, k: string): nat
    requires m <= n <= |steps| < |states|
    decreases n
  {
    if m == n then 0
    else FullBursts(states, steps, m, n - 1, k) + (if Admits(states[n - 1], steps[n - 1], k) then 1 else 0)
  }

  /** The last clock reading before step `n`, or `start` if the window is empty. */
  function EndTime(steps: seq<Step>, m: nat, n: nat, start: real): real
    requires m <= n <= |steps|
  {
    if m == n then start else steps[n - 1].at
  }

  /** That many bursts. */
  function Gifts(env: Env, n: nat): real { if n == 0 then 0.0 else env.burst as real + Gifts(env, n - 1) }

  lemma {:induction false} GiftsIsProduct(env: Env, n: nat)
    ensures Gifts(env, n) == n as real * env.burst as real
  {
    if n > 0 { GiftsIsProduct(env, n - 1); }
  }

  lemma NewBucketLevel(env: Env, s: Lim, key: string, at: real)
    requires Steady(env)
    ensures Level(env, NewBucket(env, s, key, at), at) == if key in s.q then 0.0 else env.burst as real
  {
    assert Refill(env, at, at) == 0.0;
  }

  lemma ListedEntry(s: Lim, e: Entry)
    requires WellFormed(s)
    ensures EntryFor(s, e.key) in s.buckets <==> Has(s.ll, e.key)
    ensures e in s.ll <==> Has(s.ll, e.key) && EntryFor(s, e.key) == e
  {
    if e in s.ll {
      var i :| 0 <= i < |s.ll| && s.ll[i] == e;
      FoundAt(s.ll, i);
    }
  }

  lemma SpendableBounds(env: Env, s: Lim, k: string, now: real)
    requires Steady(env) && Solvent(s)
    ensures 0.0 <= Spendable(env, s, k, now) <= env.burst as real
  {
    if EntryFor(s, k) in s.buckets { LevelNonNegative(env, s.buckets[EntryFor(s, k)], now); }
  }

  lemma SpendableGrows(env: Env, s: Lim, k: string, start: real, at: real)
    requires Steady(env) && start <= at
    ensures Spendable(env, s, k, at) <= Spendable(env, s, k, start) + Refill(env, start, at)
    ensures 0.0 <= Refill(env, start, at)
  {
    RefillAdds(env, start, at, at);
    if EntryFor(s, k) in s.buckets { LevelGrows(env, s.buckets[EntryFor(s, k)], start, at); }
  }

  /** A lookup gives `k` at most a burst, and that only if it admits `k` afresh. */
  lemma LookupAccount(env: Env, s: Lim, key: string, at: real, k: string)
    requires Steady(env) && WellFormed(s) && Solvent(s)
    ensures Spendable(env, LookedUp(env, s, key, at), k, at)
            <= Spendable(env, s, k, at) + (if key == k && FullAdmission(s, k) then env.burst as real else 0.0)
  {
    var t, e := LookedUp(env, s, key, at), EntryFor(s, key);
    LookupFinds(env, s, key, at, k);
    LookupKeepsForm(env, s, key, at);
    SpendableBounds(env, s, k, at);
    NewBucketLevel(env, s, key, at);
    ListedEntry(t, EntryFor(t, k));
    ListedEntry(s, EntryFor(s, k));
    if Has(t.ll, k) { assert At(t.ll, k) == Some(EntryFor(t, k)); }
  }

  /** A charge takes a token from the element listed for `k`, or is a stray, or is not for `k`. */
  lemma ChargeAccount(env: Env, s: Lim, e: Entry, at: real, k: string)
    requires Steady(env) && WellFormed(s) && Solvent(s) && e in s.buckets
    ensures var (t, ok) := Charged(env, s, e, at);
            (if ok && e.key == k then 1.0 else 0.0) + Spendable(env, t, k, at)
            <= Spendable(env, s, k, at) + (if ok && e.key == k && e !in s.ll then 1.0 else 0.0)
  {
    ListedEntry(s, e);
    assert Refill(env, at, at) == 0.0;
    assert EntryFor(Charged(env, s, e, at).0, k) == EntryFor(s, k);
  }

  /** What a step spends for `k`, less what it is given and what is charged to an evicted element. */
  function StepNet(env: Env, s: State, step: Step, k: string): real
  {
    Spent(env, s, step, k) as real - (if Admits(s, step, k) then env.burst as real else 0.0)
    - Stray(env, s, step, k) as real
  }

  /** One step: what `k` spends and keeps is covered by what it had, the refill, a burst on entry, and the strays. */
  lemma StepAccount(env: Env, s: State, step: Step, k: string, start: real)
    requires Steady(env) && Sound(s) && Solvent(s.lim) && Enabled(s, step) && start <= step.at
    ensures StepNet(env, s, step, k) + Spendable(env, Next(env, s, step).lim, k, step.at)
            <= Spendable(env, s.lim, k, start) + Refill(env, start, step.at)
  {
    SpendableGrows(env, s.lim, k, start, step.at);
    if step.Lookup? {
      LookupAccount(env, s.lim, step.key, step.at, k);
    } else {
      ChargeAccount(env, s.lim, step.call, step.at, k);
    }
  }

  function RunNet(env: Env, states: seq<State>, steps: seq<Step>, m: nat, n: nat, k: string): real
    requires m <= n <= |steps| < |states|
    decreases n
  {
    if m == n then 0.0
    else RunNet(env, states, steps, m, n - 1, k) + StepNet(env, states[n - 1], steps[n - 1], k)
  }

  lemma {:induction false} NetOfRun(env: Env, states: seq<State>, steps: seq<Step>, m: nat, n: nat, k: string)
    requires m <= n <= |steps| < |states|
    ensures RunNet(env, states, steps, m, n, k)
            == Allowed(env, states, steps, m, n, k) as real - Gifts(env, FullBursts(states, steps, m, n, k))
               - Strays(env, states, steps, m, n, k) as real
    decreases n
  {
    if m < n {
      var s, step := states[n - 1], steps[n - 1];
      NetOfRun(env, states, steps, m, n - 1, k);
      NetAdds(env, Allowed(env, states, steps, m, n - 1, k), FullBursts(states, steps, m, n - 1, k),
          Strays(env, states, steps, m, n - 1, k), Spent(env, s, step, k), Admits(s, step, k), Stray(env, s, step, k));
    }
  }

  lemma NetAdds(env: Env, allowed: nat, bursts: nat, strays: nat, spent: nat, admits: bool, stray: nat)
    ensures (allowed as real - Gifts(env, bursts) - strays as real)
            + (spent as real - (if admits then env.burst as real else 0.0) - stray as real)
            == (allowed + spent) as real - Gifts(env, bursts + if admits then 1 else 0) - (strays + stray) as real
  {}

  lemma {:induction false} RunAccount(
    env: Env, states: seq<State>, steps: seq<Step>, m: nat, n: nat, k: string, start: real)
    requires Steady(env) && Execution(env, states, steps) && m <= n <= |steps| && (m < n ==> start <= steps[m].at)
    ensures start <= EndTime(steps, m, n, start)
    ensures RunNet(env, states, steps, m, n, k) + Spendable(env, states[n].lim, k, EndTime(steps, m, n, start))
            <= Spendable(env, states[m].lim, k, start) + Refill(env, start, EndTime(steps, m, n, start))
    decreases n
  {
    if m == n {
      assert Refill(env, start, start) == 0.0;
    } else {
      var before := EndTime(steps, m, n - 1, start);
      RunAccount(env, states, steps, m, n - 1, k, start);
      RunKeepsSound(env, states, steps, n - 1);
      assert StepAt(env, states, steps, n - 1);
      StepAccount(env, states[n - 1], steps[n - 1], k, before);
      RefillAdds(env, start, before, steps[n - 1].at);
    }
  }

  lemma AllowedIsCovered(env: Env, states: seq<State>, steps: seq<Step>, m: nat, n: nat, k: string, start: real)
    requires Steady(env) && Execution(env, states, steps) && m <= n <= |steps| && (m < n ==> start <= steps[m].at)
    ensures var end, allowed := EndTime(steps, m, n, start), Allowed(env, states, steps, m, n, k) as real;
            var covered := Gifts(env, FullBursts(states, steps, m, n, k)) + Strays(env, states, steps, m, n, k) as real;
            && start <= end
            && allowed <= env.burst as real + Refill(env, start, end) + covered
            && (!Has(states[m].lim.ll, k) ==> allowed <= Refill(env, start, end) + covered)
  {
    RunAccount(env, states, steps, m, n, k, start);
    NetOfRun(env, states, steps, m, n, k);
    RunKeepsSound(env, states, steps, m);
    RunKeepsSound(env, states, steps, n);
    SpendableBounds(env, states[m].lim, k, start);
    SpendableBounds(env, states[n].lim, k, EndTime(steps, m, n, start));
    ListedEntry(states[m].lim, EntryFor(states[m].lim, k));
  }

  lemma RefillPerSecond(env: Env, rate: real, start: real, end: real)
    requires env.earn == PerSecond(rate) && start <= end
    ensures Refill(env, start, end) == Earned(rate, end - start)
  {}

  /**
   Over any window of any run, a key is allowed at most what its bucket can hold, the refill of the window, one burst
   for every full admission inside it, and the calls allowed on an element evicted while they waited. Without a bucket
   at the start, the first of these is not there. With no admission inside, or only one that opens the window, and no
   such call, that is burst + rate * time.
   */
  lemma RateIsBounded(
    env: Env, rate: real, states: seq<State>, steps: seq<Step>, m: nat, n: nat, k: string, start: real)
    requires rate >= 0.0 && env.earn == PerSecond(rate) && Execution(env, states, steps)
    requires m <= n <= |steps| && (m < n ==> start <= steps[m].at)
    ensures var allowed := Allowed(env, states, steps, m, n, k) as real;
            var earned := Earned(rate, EndTime(steps, m, n, start) - start);
            var bursts, strays := FullBursts(states, steps, m, n, k), Strays(env, states, steps, m, n, k) as real;
            && allowed <= env.burst as real + earned + Gifts(env, bursts) + strays
            && (!Has(states[m].lim.ll, k) ==> allowed <= earned + Gifts(env, bursts) + strays)
            && (bursts == 0 || (bursts == 1 && FullAdmission(states[m].lim, k)) ==>
                  allowed <= env.burst as real + earned + strays)
  {
    PerSecondIsSteady(env, rate);
    AllowedIsCovered(env, states, steps, m, n, k, start);
    RefillPerSecond(env, rate, start, EndTime(steps, m, n, start));
    assert Gifts(env, 0) == 0.0 && Gifts(env, 1) == env.burst as real;
  }

  // ---------------------------------------------------------------- calls that outlive their element

  function StrandedBy(env: Env, s: State, step: Step, after: State, k: string): nat
  {
    var gone := EvictedBy(env, s, step);
    if gone.Some? && gone.value.key == k then after.waiting[gone.value] else 0
  }

  /** The calls that wait on an element of `k` when it is evicted. */
  function Stranded(env: Env, states: seq<State>, steps: seq<Step>, m: nat, n: nat, k: string): nat
    requires m <= n <= |steps| < |states|
    decreases n
  {
    if m == n then 0
    else Stranded(env, states, steps, m, n - 1, k) + StrandedBy(env, states[n - 1], steps[n - 1], states[n], k)
  }

  /** `late` holds every call of `k` that waits on an element that is not listed. */
  ghost predicate Covers(late: multiset<Entry>, s: State, k: string)
  {
    forall e: Entry :: e.key == k && e !in s.lim.ll ==> s.waiting[e] <= late[e]
  }

  /** A lookup takes at most the evicted element off the list, and leaves on it the one it returns. */
  lemma LookupLists(env: Env, s: Lim, key: string, at: real, e: Entry)
    requires WellFormed(s) && (e in s.ll || e == EntryFor(s, key))
    ensures e in LookedUp(env, s, key, at).ll || Evicted(env, s, key) == Some(e)
  {
    if Has(s.ll, key) {
      MoveKeepsElements(s.ll, Find(s.ll, key));
    } else {
      var pushed := [EntryFor(s, key)] + s.ll;
      assert e in pushed && pushed == pushed[..|pushed| - 1] + [pushed[|pushed| - 1]];
    }
  }

  /** What is late after a step. */
  ghost function LateAfter(env: Env, s: State, step: Step, k: string, late: multiset<Entry>): multiset<Entry>
    requires Enabled(s, step)
  {
    if step.Lookup? then
      var gone := EvictedBy(env, s, step);
      if gone.None? then late
      else late[gone.value := late[gone.value] + StrandedBy(env, s, step, Next(env, s, step), k)]
    else if Stray(env, s, step, k) == 1 then late - multiset{step.call} else late
  }

  lemma LookupCovers(env: Env, s: State, step: Step, k: string, late: multiset<Entry>, e: Entry)
    requires step.Lookup? && Sound(s) && Covers(late, s, k)
    requires e.key == k && e !in Next(env, s, step).lim.ll
    ensures Next(env, s, step).waiting[e] <= LateAfter(env, s, step, k, late)[e]
  {
    if e in s.lim.ll || e == EntryFor(s.lim, step.key) { LookupLists(env, s.lim, step.key, step.at, e); }
  }

  lemma ChargeCovers(env: Env, s: State, step: Step, k: string, late: multiset<Entry>)
    requires step.Charge? && Enabled(s, step) && Covers(late, s, k)
    ensures Covers(LateAfter(env, s, step, k, late), Next(env, s, step), k)
    ensures Stray(env, s, step, k) + |LateAfter(env, s, step, k, late)| <= |late|
  {}

  lemma StepCovers(env: Env, s: State, step: Step, k: string, late: multiset<Entry>)
    requires Enabled(s, step) && Sound(s) && Covers(late, s, k)
    ensures Covers(LateAfter(env, s, step, k, late), Next(env, s, step), k)
    ensures Stray(env, s, step, k) + |LateAfter(env, s, step, k, late)|
            <= |late| + StrandedBy(env, s, step, Next(env, s, step), k)
  {
    if step.Charge? {
      ChargeCovers(env, s, step, k, late);
    } else {
      forall e: Entry | e.key == k && e !in Next(env, s, step).lim.ll
        ensures Next(env, s, step).waiting[e] <= LateAfter(env, s, step, k, late)[e]
      {
        LookupCovers(env, s, step, k, late, e);
      }
    }
  }

  lemma {:induction false} LateCallsCover(env: Env, states: seq<State>, steps: seq<Step>, m: nat, n: nat, k: string)
    returns (late: multiset<Entry>)
    requires Execution(env, states, steps) && m <= n <= |steps| && Covers(multiset{}, states[m], k)
    ensures Covers(late, states[n], k)
    ensures Strays(env, states, steps, m, n, k) + |late| <= Stranded(env, states, steps, m, n, k)
    decreases n
  {
    if m == n {
      late := multiset{};
    } else {
      var s, step := states[n - 1], steps[n - 1];
      late := LateCallsCover(env, states, steps, m, n - 1, k);
      RunKeepsSound(env, states, steps, n - 1);
      assert StepAt(env, states, steps, n - 1);
      StepCovers(env, s, step, k, late);
      late := LateAfter(env, s, step, k, late);
    }
  }

  /**
   From a moment at which every waiting call of `k` waits on its listed element, the calls allowed beyond the rate are
   at most those that waited on an element of `k` when it was evicted.
   */
  lemma StraysWereStranded(env: Env, states: seq<State>, steps: seq<Step>, m: nat, n: nat, k: string)
    requires Execution(env, states, steps) && m <= n <= |steps|
    requires forall e: Entry :: e in states[m].waiting && e.key == k ==> e in states[m].lim.ll
    ensures Strays(env, states, steps, m, n, k) <= Stranded(env, states, steps, m, n, k)
  {
    assert Covers(multiset{}, states[m], k);
    var late := LateCallsCover(env, states, steps, m, n, k);
  }

  /** While fewer than `maxBuckets` other keys lose their bucket, a guarded key gets no further full burst. */
  lemma {:induction false} GuardedGetsNoBurst(
    env: Env, states: seq<State>, steps: seq<Step>, m: nat, n: nat, k: string)
    requires Execution(env, states, steps) && m <= n <= |steps| && Guarded(env, states[m].lim, k, {})
    requires |EvictedOthers(env, states, steps, m, n, k)| < env.maxBuckets
    ensures FullBursts(states, steps, m, n, k) == 0
    decreases n
  {
    if m < n {
      SubsetSize(EvictedOthers(env, states, steps, m, n - 1, k), EvictedOthers(env, states, steps, m, n, k));
      GuardedGetsNoBurst(env, states, steps, m, n - 1, k);
      RunKeepsGuard(env, states, steps, m, n - 1, k);
      GuardedStays(env, states[n - 1], steps[n - 1], k, EvictedOthers(env, states, steps, m, n - 1, k));
    }
  }

  lemma GuardedStays(env: Env, s: State, step: Step, k: string, others: set<string>)
    requires Guarded(env, s.lim, k, others) && |others| < env.maxBuckets
    ensures !Admits(s, step, k)
  {}

  lemma {:induction false} BurstsSplit(states: seq<State>, steps: seq<Step>, m: nat, n: nat, k: string)
    requires m < n <= |steps| < |states|
    ensures FullBursts(states, steps, m, n, k)
            == (if Admits(states[m], steps[m], k) then 1 else 0) + FullBursts(states, steps, m + 1, n, k)
    decreases n
  {
    if m + 1 < n { BurstsSplit(states, steps, m, n - 1, k); }
  }

  lemma {:induction false} OthersSplit(
    env: Env, states: seq<State>, steps: seq<Step>, m: nat, n: nat, k: string)
    requires m < n <= |steps| < |states|
    ensures EvictedOthers(env, states, steps, m + 1, n, k) <= EvictedOthers(env, states, steps, m, n, k)
    decreases n
  {
    if m + 1 < n { OthersSplit(env, states, steps, m, n - 1, k); }
  }

  /**
   From a full admission on, while fewer than `maxBuckets` other keys are evicted, the key stays within its rate, but
   for the calls that outlive their element.
   */
  lemma SpanIsRateLimited(env: Env, rate: real, states: seq<State>, steps: seq<Step>, m: nat, n: nat, k: string)
    requires rate >= 0.0 && env.earn == PerSecond(rate) && Execution(env, states, steps)
    requires m < n <= |steps| && Admits(states[m], steps[m], k)
    requires |EvictedOthers(env, states, steps, m, n, k)| < env.maxBuckets
    ensures Allowed(env, states, steps, m, n, k) as real
            <= env.burst as real + Earned(rate, steps[n - 1].at - steps[m].at)
               + Strays(env, states, steps, m, n, k) as real
  {
    AdmissionGuards(env, states, steps, m, k);
    OthersSplit(env, states, steps, m, n, k);
    SubsetSize(EvictedOthers(env, states, steps, m + 1, n, k), EvictedOthers(env, states, steps, m, n, k));
    GuardedGetsNoBurst(env, states, steps, m + 1, n, k);
    BurstsSplit(states, steps, m, n, k);
    RateIsBounded(env, rate, states, steps, m, n, k, steps[m].at);
  }

  // ---------------------------------------------------------------- nobody is refused too early

  /** The calls that charge element `e`. */
  function ChargesOn(steps: seq<Step>, m: nat, n: nat, e: Entry): nat
    requires m <= n <= |steps|
    decreases n
  {
    if m == n then 0
    else ChargesOn(steps, m, n - 1, e) + (if steps[n - 1].Charge? && steps[n - 1].call == e then 1 else 0)
  }

  /** Those of them that proceed. */
  function GrantedOn(env: Env, states: seq<State>, steps: seq<Step>, m: nat, n: nat, e: Entry): nat
    requires m <= n <= |steps| < |states|
    decreases n
  {
    if m == n then 0
    else GrantedOn(env, states, steps, m, n - 1, e)
         + (if Granted(env, states[n - 1], steps[n - 1]) && steps[n - 1].call == e then 1 else 0)
  }

  /** Waiting never takes tokens away. */
  lemma LevelKeeps(env: Env, b: Bucket, from: real, to: real)
    requires Steady(env) && from <= to
    ensures Level(env, b, to) >= Level(env, b, from)
  {
    if b.last <= from {
      RefillAdds(env, b.last, from, to);
      RefillAdds(env, from, to, to);
    } else if b.last <= to {
      RefillAdds(env, b.last, to, to);
    }
  }

  /** A step takes at most one token from an element, and that only from one that has it. */
  lemma StepSpendsOne(env: Env, s: State, step: Step, e: Entry, before: real)
    requires Steady(env) && Sound(s) && Enabled(s, step) && before <= step.at && e in s.lim.buckets
    ensures e in Next(env, s, step).lim.buckets
    ensures var had, t := Level(env, s.lim.buckets[e], before), Next(env, s, step);
            var left := Level(env, t.lim.buckets[e], step.at);
            if step.Charge? && step.call == e
            then (had >= 1.0 ==> left >= had - 1.0 && Granted(env, s, step))
            else left >= had
  {
    LevelKeeps(env, s.lim.buckets[e], before, step.at);
    assert Refill(env, step.at, step.at) == 0.0;
  }

  /** An element, listed or evicted, lets every call proceed that its tokens cover. */
  lemma {:induction false} TokensAreHonoured(
    env: Env, states: seq<State>, steps: seq<Step>, m: nat, n: nat, e: Entry, start: real)
    requires Steady(env) && Execution(env, states, steps) && m <= n <= |steps| && (m < n ==> start <= steps[m].at)
    requires e in states[m].lim.buckets
    requires ChargesOn(steps, m, n, e) as real <= Level(env, states[m].lim.buckets[e], start)
    ensures GrantedOn(env, states, steps, m, n, e) == ChargesOn(steps, m, n, e)
    ensures e in states[n].lim.buckets
    ensures Level(env, states[n].lim.buckets[e], EndTime(steps, m, n, start))
            >= Level(env, states[m].lim.buckets[e], start) - ChargesOn(steps, m, n, e) as real
    decreases n
  {
    if m < n {
      TokensAreHonoured(env, states, steps, m, n - 1, e, start);
      RunKeepsSound(env, states, steps, n - 1);
      assert StepAt(env, states, steps, n - 1);
      StepSpendsOne(env, states[n - 1], steps[n - 1], e, EndTime(steps, m, n - 1, start));
    }
  }

  function Requests(steps: seq<Step>, m: nat, n: nat, k: string): nat
    requires m <= n <= |steps|
    decreases n
  {
    if m == n then 0
    else Requests(steps, m, n - 1, k) + (if steps[n - 1].Charge? && steps[n - 1].call.key == k then 1 else 0)
  }

  /** The step does not evict an element of `k`. */
  predicate Spares(env: Env, s: State, step: Step, k: string)
  {
    var gone := EvictedBy(env, s, step);
    gone.Some? ==> gone.value.key != k
  }

  predicate KeepsBucket(env: Env, states: seq<State>, steps: seq<Step>, m: nat, n: nat, k: string)
    requires m <= n <= |steps| < |states|
  {
    forall i :: m <= i < n ==> Spares(env, states[i], steps[i], k)
  }

  /** Every waiting call of the key waits on `e`. */
  ghost predicate WaitOn(s: State, e: Entry) { forall w :: w in s.waiting && w.key == e.key ==> w == e }

  lemma StepSharesElement(env: Env, s: State, step: Step, e: Entry)
    requires Sound(s) && Enabled(s, step) && At(s.lim.ll, e.key) == Some(e) && WaitOn(s, e)
    requires Spares(env, s, step, e.key)
    ensures At(Next(env, s, step).lim.ll, e.key) == Some(e) && WaitOn(Next(env, s, step), e)
  {
    if step.Lookup? { LookupFinds(env, s.lim, step.key, step.at, e.key); }
  }

  lemma {:induction false} ElementStays(env: Env, states: seq<State>, steps: seq<Step>, m: nat, n: nat, e: Entry)
    requires Execution(env, states, steps) && m <= n <= |steps| && KeepsBucket(env, states, steps, m, n, e.key)
    requires At(states[m].lim.ll, e.key) == Some(e) && WaitOn(states[m], e)
    ensures At(states[n].lim.ll, e.key) == Some(e) && WaitOn(states[n], e)
    decreases n
  {
    if m < n {
      ElementStays(env, states, steps, m, n - 1, e);
      RunKeepsSound(env, states, steps, n - 1);
      assert StepAt(env, states, steps, n - 1);
      assert Spares(env, states[n - 1], steps[n - 1], e.key);
      StepSharesElement(env, states[n - 1], steps[n - 1], e);
    }
  }

  lemma SameCalls(env: Env, s: State, step: Step, e: Entry)
    requires Enabled(s, step) && WaitOn(s, e)
    ensures step.Charge? ==> (step.call.key == e.key <==> step.call == e)
  {}

  /** While a key keeps its element, its calls are the calls on that element. */
  lemma {:induction false} CallsShareElement(env: Env, states: seq<State>, steps: seq<Step>, m: nat, n: nat, e: Entry)
    requires Execution(env, states, steps) && m <= n <= |steps| && KeepsBucket(env, states, steps, m, n, e.key)
    requires At(states[m].lim.ll, e.key) == Some(e) && WaitOn(states[m], e)
    ensures Requests(steps, m, n, e.key) == ChargesOn(steps, m, n, e)
    ensures Allowed(env, states, steps, m, n, e.key) == GrantedOn(env, states, steps, m, n, e)
    decreases n
  {
    if m < n {
      CallsShareElement(env, states, steps, m, n - 1, e);
      ElementStays(env, states, steps, m, n - 1, e);
      assert Enabled(states[n - 1], steps[n - 1]) by { assert StepAt(env, states, steps, n - 1); }
      SameCalls(env, states[n - 1], steps[n - 1], e);
    }
  }

  /** A key admitted with a full burst while none of its calls waits is allowed its burst while it keeps its bucket. */
  lemma BurstIsHonoured(env: Env, states: seq<State>, steps: seq<Step>, m: nat, n: nat, k: string)
    requires Steady(env) && Execution(env, states, steps) && m < n <= |steps| && Admits(states[m], steps[m], k)
    requires KeepsBucket(env, states, steps, m, n, k) && Requests(steps, m + 1, n, k) <= env.burst
    requires forall w :: w in states[m].waiting ==> w.key != k
    ensures Allowed(env, states, steps, m + 1, n, k) == Requests(steps, m + 1, n, k)
  {
    var s, at := states[m], steps[m].at;
    var e := EntryFor(s.lim, k);
    RunKeepsSound(env, states, steps, m);
    assert StepAt(env, states, steps, m);
    assert Spares(env, s, steps[m], k);
    LookupFinds(env, s.lim, k, at, k);
    assert WaitOn(states[m + 1], e);
    CallsShareElement(env, states, steps, m + 1, n, e);
    NewBucketLevel(env, s.lim, k, at);
    if m + 1 < n { assert StepAt(env, states, steps, m + 1); }
    TokensAreHonoured(env, states, steps, m + 1, n, e, at);
  }
}
