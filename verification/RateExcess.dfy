/** A run in which calls that outlive their element take a key beyond burst + rate * time. */
module RateExcess {
  import opened RateBounds
  import opened RateLimiter

  /** A run that ends in state `s` at time `at`, having allowed `k` that many calls and admitted it that often. */
  ghost predicate Reaches(
    env: Env, states: seq<State>, steps: seq<Step>, k: string, s: State, at: real, allowed: nat, bursts: nat)
  {
    && Execution(env, states, steps) && states[|steps|] == s
    && EndTime(steps, 0, |steps|, 0.0) == at && (steps != [] ==> 0.0 <= steps[0].at)
    && Allowed(env, states, steps, 0, |steps|, k) == allowed && FullBursts(states, steps, 0, |steps|, k) == bursts
  }

  ghost predicate Reachable(env: Env, k: string, s: State, at: real, allowed: nat, bursts: nat)
  {
    exists states, steps :: Reaches(env, states, steps, k, s, at, allowed, bursts)
  }

  lemma {:induction false} SamePrefix(
    env: Env, states: seq<State>, steps: seq<Step>, t: State, step: Step, n: nat, k: string)
    requires n <= |steps| < |states|
    ensures Allowed(env, states + [t], steps + [step], 0, n, k) == Allowed(env, states, steps, 0, n, k)
    ensures FullBursts(states + [t], steps + [step], 0, n, k) == FullBursts(states, steps, 0, n, k)
    decreases n
  {
    if n > 0 { SamePrefix(env, states, steps, t, step, n - 1, k); }
  }

  lemma Extend(env: Env, states: seq<State>, steps: seq<Step>, step: Step)
    requires Execution(env, states, steps) && Enabled(states[|steps|], step)
    requires steps != [] ==> steps[|steps| - 1].at <= step.at
    ensures Execution(env, states + [Next(env, states[|steps|], step)], steps + [step])
  {
    var longer := states + [Next(env, states[|steps|], step)];
    forall i | 0 <= i < |steps| + 1 ensures StepAt(env, longer, steps + [step], i) {
      if i < |steps| { assert StepAt(env, states, steps, i); }
    }
  }

  lemma ReachesNext(env: Env, k: string, s: State, at: real, allowed: nat, bursts: nat, step: Step)
    requires Reachable(env, k, s, at, allowed, bursts) && Enabled(s, step) && 0.0 <= at <= step.at
    ensures Reachable(env, k, Next(env, s, step), step.at, allowed + Spent(env, s, step, k),
                      bursts + if Admits(s, step, k) then 1 else 0)
  {
    var states, steps :| Reaches(env, states, steps, k, s, at, allowed, bursts);
    var t := Next(env, s, step);
    Extend(env, states, steps, step);
    SamePrefix(env, states, steps, t, step, |steps|, k);
    assert Reaches(env, states + [t], steps + [step], k, t, step.at, allowed + Spent(env, s, step, k),
        bursts + if Admits(s, step, k) then 1 else 0);
  }

  /** A limiter that allows one call a second. */
  function Slow(): Env { Env(PerSecond(1.0), 1, 1) }

  lemma RefillsInASecond(at: real)
    ensures Take(Slow(), Bucket(0.0, at), at + 1.0, 1.0) == (Bucket(0.0, at + 1.0), true)
  {
    RefillPerSecond(Slow(), 1.0, at, at + 1.0);
  }

  /** After the first calls for `k`; `m` of them wait. */
  function Entered(k: string, m: nat): State
  {
    State(Lim([Entry(k, 0)], [], map[Entry(k, 0) := Bucket(1.0, 0.0)], 1), multiset{}[Entry(k, 0) := m])
  }

  /** After a call for `o` has evicted the element of `k`. */
  function Displaced(k: string, o: string, m: nat): State
  {
    State(Lim([Entry(o, 1)], [k], map[Entry(k, 0) := Bucket(1.0, 0.0), Entry(o, 1) := Bucket(1.0, 0.0)], 2),
          multiset{Entry(o, 1)}[Entry(k, 0) := m])
  }

  /** After `k` has come back: its old and its new element hold the buckets `a` and `b`. */
  function Returned(k: string, o: string, a: Bucket, b: Bucket, waiting: multiset<Entry>): State
  {
    State(Lim([Entry(k, 2)], [o], map[Entry(k, 0) := a, Entry(o, 1) := Bucket(1.0, 0.0), Entry(k, 2) := b], 3), waiting)
  }

  /** `m` calls wait on the old element, and the calls that displaced it and brought `k` back wait too. */
  function Waiting(k: string, o: string, m: nat): multiset<Entry>
  {
    multiset{Entry(o, 1), Entry(k, 2)}[Entry(k, 0) := m]
  }

  lemma CallWaits(k: string, m: nat)
    ensures Next(Slow(), Entered(k, m), Lookup(k, 0.0)) == Entered(k, m + 1)
  {
    var e := Entry(k, 0);
    assert Moved([e], 0) == [e];
    assert multiset{}[e := m] + multiset{e} == multiset{}[e := m + 1];
  }

  lemma OpeningSteps(k: string, o: string, m: nat)
    requires k != o
    ensures Next(Slow(), Fresh(), Lookup(k, 0.0)) == Entered(k, 1)
    ensures Next(Slow(), Entered(k, m), Lookup(o, 0.0)) == Displaced(k, o, m)
    ensures Next(Slow(), Displaced(k, o, m), Lookup(k, 0.0))
            == Returned(k, o, Bucket(1.0, 0.0), Bucket(0.0, 0.0), Waiting(k, o, m))
  {
    assert [Entry(o, 1), Entry(k, 0)][..1] == [Entry(o, 1)] && [Entry(k, 2), Entry(o, 1)][..1] == [Entry(k, 2)];
    assert [o, k][..1] == [o];
    assert Refill(Slow(), 0.0, 0.0) == 0.0;
    assert multiset{} + multiset{Entry(k, 0)} == multiset{}[Entry(k, 0) := 1];
    assert multiset{}[Entry(k, 0) := m] + multiset{Entry(o, 1)} == multiset{Entry(o, 1)}[Entry(k, 0) := m];
    assert multiset{Entry(o, 1)}[Entry(k, 0) := m] + multiset{Entry(k, 2)}
        == Waiting(k, o, m);
  }

  lemma {:induction false} CallsWait(k: string, m: nat)
    ensures Reachable(Slow(), k, Entered(k, m + 1), 0.0, 0, 1)
  {
    if m == 0 {
      assert Reaches(Slow(), [Fresh()], [], k, Fresh(), 0.0, 0, 0);
      OpeningSteps(k, k + "o", 1);
      ReachesNext(Slow(), k, Fresh(), 0.0, 0, 0, Lookup(k, 0.0));
    } else {
      CallsWait(k, m - 1);
      CallWaits(k, m);
      ReachesNext(Slow(), k, Entered(k, m), 0.0, 0, 1, Lookup(k, 0.0));
    }
  }

  lemma LookupAgain(k: string, o: string, a: Bucket, b: Bucket, w: multiset<Entry>, at: real, next: real, allowed: nat)
    requires k != o && 0.0 <= at <= next && Reachable(Slow(), k, Returned(k, o, a, b, w), at, allowed, 1)
    ensures Reachable(Slow(), k, Returned(k, o, a, b, w + multiset{Entry(k, 2)}), next, allowed, 1)
  {
    assert Moved([Entry(k, 2)], 0) == [Entry(k, 2)];
    ReachesNext(Slow(), k, Returned(k, o, a, b, w), at, allowed, 1, Lookup(k, next));
  }

  lemma ChargeOld(
    k: string, o: string, a: Bucket, b: Bucket, w: multiset<Entry>, at: real, next: real, allowed: nat, left: Bucket)
    requires k != o && 0.0 <= at <= next && Reachable(Slow(), k, Returned(k, o, a, b, w), at, allowed, 1)
    requires Entry(k, 0) in w && Take(Slow(), a, next, 1.0) == (left, true)
    ensures Reachable(Slow(), k, Returned(k, o, left, b, w - multiset{Entry(k, 0)}), next, allowed + 1, 1)
  {
    var s, step := Returned(k, o, a, b, w), Charge(Entry(k, 0), next);
    assert Next(Slow(), s, step).lim.buckets == Returned(k, o, left, b, w).lim.buckets;
    ReachesNext(Slow(), k, s, at, allowed, 1, step);
  }

  lemma ChargeNew(
    k: string, o: string, a: Bucket, b: Bucket, w: multiset<Entry>, at: real, next: real, allowed: nat, left: Bucket)
    requires k != o && 0.0 <= at <= next && Reachable(Slow(), k, Returned(k, o, a, b, w), at, allowed, 1)
    requires Entry(k, 2) in w && Take(Slow(), b, next, 1.0) == (left, true)
    ensures Reachable(Slow(), k, Returned(k, o, a, left, w - multiset{Entry(k, 2)}), next, allowed + 1, 1)
  {
    var s, step := Returned(k, o, a, b, w), Charge(Entry(k, 2), next);
    assert Next(Slow(), s, step).lim.buckets == Returned(k, o, a, left, w).lim.buckets;
    ReachesNext(Slow(), k, s, at, allowed, 1, step);
  }

  lemma WaitingChanges(k: string, o: string, m: nat)
    ensures Waiting(k, o, m + 1) - multiset{Entry(k, 0)} == Waiting(k, o, m) && Entry(k, 0) in Waiting(k, o, m + 1)
    ensures Waiting(k, o, m) + multiset{Entry(k, 2)} - multiset{Entry(k, 2)} == Waiting(k, o, m)
  {}

  /** Both elements of `k` are empty, and `m` calls wait on the old one. */
  function Empty(k: string, o: string, m: nat, at: real): State
  {
    Returned(k, o, Bucket(0.0, at), Bucket(0.0, at), Waiting(k, o, m))
  }

  /** In every second one call proceeds on each of the two elements. */
  lemma Round(k: string, o: string, m: nat, at: real, allowed: nat)
    requires k != o && 0.0 <= at && Reachable(Slow(), k, Empty(k, o, m + 1, at), at, allowed, 1)
    ensures Reachable(Slow(), k, Empty(k, o, m, at + 1.0), at + 1.0, allowed + 2, 1)
  {
    var w, next := Waiting(k, o, m), at + 1.0;
    var empty, left := Bucket(0.0, at), Bucket(0.0, next);
    RefillsInASecond(at);
    WaitingChanges(k, o, m);
    ChargeOld(k, o, empty, empty, Waiting(k, o, m + 1), at, next, allowed, left);
    LookupAgain(k, o, left, empty, w, next, next, allowed + 1);
    ChargeNew(k, o, left, empty, w + multiset{Entry(k, 2)}, next, next, allowed + 1, left);
  }

  lemma {:induction false} Rounds(k: string, o: string, m: nat, n: nat)
    requires k != o && Reachable(Slow(), k, Empty(k, o, m + n, 0.0), 0.0, 1, 1)
    ensures Reachable(Slow(), k, Empty(k, o, m, n as real), n as real, 2 * n + 1, 1)
    decreases n
  {
    if n > 0 {
      assert m + n == m + 1 + (n - 1);
      Rounds(k, o, m + 1, n - 1);
      Round(k, o, m, (n - 1) as real, 2 * n - 1);
      assert (n - 1) as real + 1.0 == n as real;
    }
  }

  lemma Displacement(k: string, o: string, m: nat)
    requires k != o
    ensures Reachable(Slow(), k, Returned(k, o, Bucket(1.0, 0.0), Bucket(0.0, 0.0), Waiting(k, o, m + 1)), 0.0, 0, 1)
  {
    CallsWait(k, m);
    OpeningSteps(k, o, m + 1);
    ReachesNext(Slow(), k, Entered(k, m + 1), 0.0, 0, 1, Lookup(o, 0.0));
    ReachesNext(Slow(), k, Displaced(k, o, m + 1), 0.0, 0, 1, Lookup(k, 0.0));
  }

  /** `k` is displaced with `n + 1` calls waiting, comes back, and the first of them takes the burst. */
  lemma BurstTaken(k: string, o: string, n: nat)
    requires k != o
    ensures Reachable(Slow(), k, Empty(k, o, n, 0.0), 0.0, 1, 1)
  {
    Displacement(k, o, n);
    assert Refill(Slow(), 0.0, 0.0) == 0.0;
    WaitingChanges(k, o, n);
    ChargeOld(k, o, Bucket(1.0, 0.0), Bucket(0.0, 0.0), Waiting(k, o, n + 1), 0.0, 0.0, 0, Bucket(0.0, 0.0));
  }

  /**
   The strays are real: a key admitted once, whose calls wait while another key displaces it and it comes back, can be
   allowed any number of calls more than burst + rate * time.
   */
  lemma DelayedCallsExceedRate(k: string, o: string, n: nat) returns (states: seq<State>, steps: seq<Step>)
    requires k != o
    ensures Execution(Slow(), states, steps) && FullBursts(states, steps, 0, |steps|, k) == 1
    ensures var start := 0.0;
            && (steps != [] ==> start <= steps[0].at)
            && Allowed(Slow(), states, steps, 0, |steps|, k) as real
               == Slow().burst as real + Earned(1.0, EndTime(steps, 0, |steps|, start) - start) + n as real
  {
    BurstTaken(k, o, n);
    Rounds(k, o, 0, n);
    var at := n as real;
    states, steps :| Reaches(Slow(), states, steps, k, Empty(k, o, 0, at), at, 2 * n + 1, 1);
  }
}
