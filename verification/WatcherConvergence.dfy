/** Every interleaving keeps the watcher on course: its fields are never older than its snapshot and end up current. */
module WatcherConvergence {
  import opened ConfigHistory
  import opened WatcherProtocol
  import opened Wrappers

  // ---------------------------------------------------------------- where a field ends up

  /** The version of `p` after receiving `ms`, starting from `v`. */
  function Ends(ms: seq<Message>, p: string, v: nat): nat
    decreases |ms|
  {
    if ms == [] then v else Ends(ms[1..], p, if ms[0].path == p then ms[0].version else v)
  }

  lemma {:induction false} EndsConcat(a: seq<Message>, b: seq<Message>, p: string, v: nat)
    ensures Ends(a + b, p, v) == Ends(b, p, Ends(a, p, v))
    decreases |a|
  {
    if a == [] {
      assert a + b == b;
    } else {
      assert (a + b)[0] == a[0] && (a + b)[1..] == a[1..] + b;
      EndsConcat(a[1..], b, p, if a[0].path == p then a[0].version else v);
    }
  }

  lemma {:induction false} EndsExpand(env: Env, d: Delta, order: seq<string>, n: nat, p: string, v: nat)
    requires Wanted(env, p)
    ensures Ends(Expand(env, d, order, n), p, v) == if p in order && p in d then n else v
    decreases |order|
  {
    if order != [] {
      var q := order[0];
      var first := if q in d && Wanted(env, q) then [Message(n, q, Deref(d[q].value))] else [];
      var v' := if order[0] == p && p in d then n else v;
      EndsConcat(first, Expand(env, d, order[1..], n), p, v);
      assert Ends(first, p, v) == v' by { if first != [] { assert first[1..] == []; } }
      EndsExpand(env, d, order[1..], n, p, v');
    }
  }

  lemma EndsMessages(env: Env, d: Delta, n: nat, live: bool, p: string, v: nat)
    requires Listing(env) && Wanted(env, p)
    ensures Ends(Messages(env, d, n, live), p, v) == if p in d then n else v
  {
    EndsExpand(env, d, if live then env.published(d) else env.replayed(d), n, p, v);
  }

  /** Receiving everything above `from` ends at the last writer, if that is above `from`. */
  lemma {:induction false} EndsSince(env: Env, h: seq<Delta>, from: nat, live: bool, p: string, v: nat)
    requires Listing(env) && Wanted(env, p) && from <= |h|
    ensures var w := LastWriter(h, |h|, p); Ends(Since(env, h, from, live), p, v) == if w > from then w else v
    decreases |h| - from
  {
    if from < |h| {
      var first, rest := Messages(env, h[from], from + 1, live), Since(env, h, from + 1, live);
      var v' := if p in h[from] then from + 1 else v;
      assert Ends(first, p, v) == v' by { EndsMessages(env, h[from], from + 1, live, p, v); }
      EndsConcat(first, rest, p, v);
      EndsSince(env, h, from + 1, live, p, v');
      assert p in h[from] ==> LastWriter(h, |h|, p) > from;
    }
  }

  lemma {:induction false} SinceAppend(env: Env, h: seq<Delta>, d: Delta, from: nat, live: bool)
    requires from <= |h|
    ensures Since(env, h + [d], from, live) == Since(env, h, from, live) + Messages(env, d, |h| + 1, live)
    decreases |h| - from
  {
    if from < |h| {
      SinceAppend(env, h, d, from + 1, live);
      assert (h + [d])[from] == h[from];
    } else {
      assert Since(env, h + [d], |h| + 1, live) == [];
      assert (h + [d])[from] == d;
    }
  }

  // ---------------------------------------------------------------- invariant

  /** A message says what its version wrote, and its version is above the client's snapshot. */
  predicate Genuine(h: seq<Delta>, snapshotVersion: nat, m: Message)
  {
    && snapshotVersion < m.version <= |h| && m.path in h[m.version - 1]
    && m.value == Deref(h[m.version - 1][m.path].value)
  }

  predicate AllGenuine(h: seq<Delta>, snapshotVersion: nat, ms: seq<Message>)
  {
    forall i :: 0 <= i < |ms| ==> Genuine(h, snapshotVersion, ms[i])
  }

  /** A field holds what the store showed at the version it was taken from, which is no older than the snapshot. */
  predicate Faithful(s: State, p: string)
  {
    p in s.seen && s.snapshotVersion <= s.seen[p] <= |s.h| && Lookup(s.view, p) == ValueAt(s.h, s.seen[p], p)
  }

  function Max(a: nat, b: nat): nat { if a <= b then b else a }

  /** Everything the connection will still deliver, as things stand. */
  function Pending(env: Env, s: State): seq<Message>
  {
    s.wire + (s.replay + (s.sending + Since(env, s.h, Max(s.head, s.watermark), true)))
  }

  /** Once the pending messages are received, `p` is at or after its last writer. */
  predicate OnCourse(env: Env, s: State, p: string)
  {
    p in s.seen && Ends(Pending(env, s), p, s.seen[p]) >= LastWriter(s.h, |s.h|, p)
  }

  predicate Counters(env: Env, s: State)
  {
    && s.published <= |s.h| && s.snapshotVersion <= |s.h|
    && (Connected(s) ==> s.head <= s.published)
    && (s.phase.Marked? || s.phase.Streaming? ==> s.snapshotVersion <= s.watermark <= |s.h|)
    && (!s.phase.Streaming? ==> s.wire == [] && s.replay == [] && s.sending == [])
    && (s.sending != [] ==> s.replay == [])
    && (!s.loaded ==> s.phase.Reading? || s.phase.Read?)
    && (s.phase.Read? ==> s.phase.v <= |s.h| && s.phase.values == ValuesAt(env, s.h, s.phase.v))
  }

  ghost predicate Inv(env: Env, s: State)
  {
    && Counters(env, s)
    && AllGenuine(s.h, s.snapshotVersion, s.wire) && AllGenuine(s.h, s.snapshotVersion, s.replay)
    && AllGenuine(s.h, s.snapshotVersion, s.sending)
    && (s.loaded ==> s.view.Keys <= env.fields && forall p :: p in env.fields ==> Faithful(s, p))
    && (s.phase.Streaming? ==> forall p :: p in env.fields ==> OnCourse(env, s, p))
  }

  lemma {:induction false} GenuineExpand(env: Env, h: seq<Delta>, order: seq<string>, v: nat, snapshotVersion: nat)
    requires snapshotVersion < v <= |h|
    ensures AllGenuine(h, snapshotVersion, Expand(env, h[v - 1], order, v))
    decreases |order|
  {
    if order != [] { GenuineExpand(env, h, order[1..], v, snapshotVersion); }
  }

  lemma {:induction false} GenuineSince(env: Env, h: seq<Delta>, from: nat, live: bool, snapshotVersion: nat)
    requires snapshotVersion <= from
    ensures AllGenuine(h, snapshotVersion, Since(env, h, from, live))
    decreases |h| - from
  {
    if from < |h| {
      GenuineExpand(env, h, if live then env.published(h[from]) else env.replayed(h[from]), from + 1, snapshotVersion);
      GenuineSince(env, h, from + 1, live, snapshotVersion);
    }
  }

  /** Later commits do not change what a genuine message or an old read says. */
  lemma CommitKeepsPast(h: seq<Delta>, d: Delta, v: nat, p: string)
    requires v <= |h|
    ensures ValueAt(h + [d], v, p) == ValueAt(h, v, p)
  {
    SnapshotStable(h, [d], v);
  }

  lemma {:induction false} LastWriterOfAppend(h: seq<Delta>, d: Delta, v: nat, p: string)
    requires v <= |h|
    ensures LastWriter(h + [d], v, p) == LastWriter(h, v, p)
  {
    if v > 0 { LastWriterOfAppend(h, d, v - 1, p); }
  }

  lemma GenuineValue(h: seq<Delta>, snapshotVersion: nat, m: Message)
    requires Genuine(h, snapshotVersion, m)
    ensures ValueAt(h, m.version, m.path) == Some(m.value)
  {}

  /** Reads at or after a field's last writer agree. */
  lemma SettledReads(h: seq<Delta>, v: nat, p: string)
    requires LastWriter(h, |h|, p) <= v <= |h|
    ensures ValueAt(h, v, p) == ValueAt(h, |h|, p)
  {
    SnapshotIsLastWrite(h, v, p);
    SnapshotIsLastWrite(h, |h|, p);
    assert LastWriter(h, v, p) == LastWriter(h, |h|, p) by { SameWriter(h, v, |h|, p); }
  }

  lemma {:induction false} SameWriter(h: seq<Delta>, v: nat, n: nat, p: string)
    requires v <= n <= |h| && LastWriter(h, n, p) <= v
    ensures LastWriter(h, v, p) == LastWriter(h, n, p)
  {
    if v < n { SameWriter(h, v, n - 1, p); }
  }

  // ---------------------------------------------------------------- every step keeps it

  lemma CommitKeepsInv(env: Env, s: State, d: Delta)
    requires Listing(env) && Inv(env, s) && NonNull(d)
    ensures Inv(env, Apply(env, s, Commit(d)))
  {
    var t := Apply(env, s, Commit(d));
    forall p, v: nat | v <= |s.h| ensures ValueAt(t.h, v, p) == ValueAt(s.h, v, p) { CommitKeepsPast(s.h, d, v, p); }
    if s.phase.Read? { assert ValuesAt(env, t.h, s.phase.v) == ValuesAt(env, s.h, s.phase.v); }
    forall p | p in env.fields && s.loaded ensures Faithful(t, p) { assert Faithful(s, p); }
    forall p | p in env.fields && s.phase.Streaming? ensures OnCourse(env, t, p) {
      assert OnCourse(env, s, p);
      CommitKeepsCourse(env, s, d, p);
    }
  }

  lemma CommitKeepsCourse(env: Env, s: State, d: Delta, p: string)
    requires Listing(env) && Counters(env, s) && s.phase.Streaming? && p in env.fields && OnCourse(env, s, p)
    ensures OnCourse(env, s.(h := s.h + [d]), p)
  {
    var pending, more := Pending(env, s), Messages(env, d, |s.h| + 1, true);
    PendingOfCommit(env, s, d);
    EndsConcat(pending, more, p, s.seen[p]);
    EndsMessages(env, d, |s.h| + 1, true, p, Ends(pending, p, s.seen[p]));
    LastWriterOfAppend(s.h, d, |s.h|, p);
  }

  lemma PendingOfCommit(env: Env, s: State, d: Delta)
    requires s.head <= |s.h| && s.watermark <= |s.h|
    ensures Pending(env, s.(h := s.h + [d])) == Pending(env, s) + Messages(env, d, |s.h| + 1, true)
  {
    SinceAppend(env, s.h, d, Max(s.head, s.watermark), true);
    Reassociate(s.wire, s.replay, s.sending, Since(env, s.h, Max(s.head, s.watermark), true),
        Messages(env, d, |s.h| + 1, true));
  }

  lemma Reassociate(a: seq<Message>, b: seq<Message>, c: seq<Message>, d: seq<Message>, e: seq<Message>)
    ensures a + (b + (c + (d + e))) == a + (b + (c + d)) + e
  {}

  lemma ApplySnapshotKeepsInv(env: Env, s: State)
    requires Inv(env, s) && s.phase.Read?
    ensures Inv(env, Apply(env, s, ApplySnapshot))
  {}

  lemma ReadRowsKeepsInv(env: Env, s: State)
    requires Listing(env) && Inv(env, s) && s.phase.Marked?
    ensures Inv(env, Apply(env, s, ReadRows))
  {
    var t := Apply(env, s, ReadRows);
    GenuineSince(env, s.h, s.snapshotVersion, false, s.snapshotVersion);
    forall p | p in env.fields ensures Faithful(t, p) && OnCourse(env, t, p) {
      assert Faithful(s, p);
      ReplaySetsCourse(env, t, p);
    }
  }

  lemma ReplaySetsCourse(env: Env, s: State, p: string)
    requires Listing(env) && p in env.fields && p in s.seen && s.snapshotVersion <= s.seen[p]
    requires s.wire == [] && s.sending == [] && s.replay == Since(env, s.h, s.snapshotVersion, false)
    requires s.snapshotVersion <= s.watermark <= |s.h| && s.head <= |s.h|
    ensures OnCourse(env, s, p)
  {
    var from, v := Max(s.head, s.watermark), s.seen[p];
    var live := Since(env, s.h, from, true);
    assert Pending(env, s) == s.replay + live;
    EndsConcat(s.replay, live, p, v);
    EndsSince(env, s.h, s.snapshotVersion, false, p, v);
    EndsSince(env, s.h, from, true, p, Ends(s.replay, p, v));
  }

  lemma ReceiveKeepsInv(env: Env, s: State)
    requires Inv(env, s) && Enabled(s, Receive)
    ensures Inv(env, Apply(env, s, Receive))
  {
    var t := Apply(env, s, Receive);
    forall p | p in env.fields ensures Faithful(t, p) && OnCourse(env, t, p) {
      assert Faithful(s, p) && OnCourse(env, s, p);
      ReceiveField(env, s, p);
    }
  }

  lemma ReceiveField(env: Env, s: State, p: string)
    requires Enabled(s, Receive) && Genuine(s.h, s.snapshotVersion, s.wire[0]) && p in env.fields
    requires Faithful(s, p) && OnCourse(env, s, p)
    ensures Faithful(Apply(env, s, Receive), p) && OnCourse(env, Apply(env, s, Receive), p)
  {
    var t, m := Apply(env, s, Receive), s.wire[0];
    GenuineValue(s.h, s.snapshotVersion, m);
    assert Pending(env, s)[0] == m && Pending(env, s)[1..] == Pending(env, t);
  }

  /** Moving messages along the connection does not change what is pending. */
  lemma ServerKeepsInv(env: Env, s: State, step: Step)
    requires Inv(env, s) && Enabled(s, step) && (step.SendReplayed? || step.SendLive? || step.TakeEvent?)
    ensures Inv(env, Apply(env, s, step))
  {
    var t := Apply(env, s, step);
    if step.SendReplayed? {
      PendingOfReplayed(env, s);
    } else if step.SendLive? {
      PendingOfSent(env, s);
    } else {
      PendingOfTaken(env, s);
      if s.head + 1 > s.watermark {
        GenuineExpand(env, s.h, env.published(s.h[s.head]), s.head + 1, s.snapshotVersion);
      }
    }
    forall p | p in env.fields ensures Faithful(t, p) && OnCourse(env, t, p) {
      assert Faithful(s, p) && OnCourse(env, s, p);
    }
  }

  lemma PendingOfReplayed(env: Env, s: State)
    requires Enabled(s, SendReplayed)
    ensures Pending(env, Apply(env, s, SendReplayed)) == Pending(env, s)
  {
    MoveAlong(s.wire, s.replay, s.sending + Since(env, s.h, Max(s.head, s.watermark), true));
  }

  lemma PendingOfSent(env: Env, s: State)
    requires Enabled(s, SendLive) && s.replay == []
    ensures Pending(env, Apply(env, s, SendLive)) == Pending(env, s)
  {
    var live := Since(env, s.h, Max(s.head, s.watermark), true);
    assert s.replay + (s.sending + live) == s.sending + live
        && s.replay + (s.sending[1..] + live) == s.sending[1..] + live;
    MoveAlong(s.wire, s.sending, live);
  }

  lemma PendingOfTaken(env: Env, s: State)
    requires Enabled(s, TakeEvent)
    ensures Pending(env, Apply(env, s, TakeEvent)) == Pending(env, s)
  {
    var live := Since(env, s.h, Max(s.head, s.watermark), true);
    assert s.sending + live == live;
    if s.head + 1 > s.watermark {
      assert live == Messages(env, s.h[s.head], s.head + 1, true) + Since(env, s.h, s.head + 1, true);
    }
  }

  lemma MoveAlong(a: seq<Message>, b: seq<Message>, c: seq<Message>)
    requires b != []
    ensures a + [b[0]] + (b[1..] + c) == a + (b + c)
  {}

  lemma QuietKeepsInv(env: Env, s: State, step: Step)
    requires Inv(env, s) && Enabled(s, step)
    requires step.Publish? || step.ReadSnapshot? || step.FailSnapshot? || step.Subscribe? || step.Disconnect?
            || step.ReadLatest?
    ensures Inv(env, Apply(env, s, step))
  {
    var t := Apply(env, s, step);
    forall p | p in env.fields && s.loaded ensures Faithful(t, p) { assert Faithful(s, p); }
    if t.phase.Streaming? {
      forall p | p in env.fields ensures OnCourse(env, t, p) {
        assert OnCourse(env, s, p) && Pending(env, t) == Pending(env, s);
      }
    }
  }

  lemma StepKeepsInv(env: Env, s: State, step: Step)
    requires Listing(env) && Inv(env, s) && Enabled(s, step)
    ensures Inv(env, Apply(env, s, step))
  {
    match step
    case Commit(d) => CommitKeepsInv(env, s, d);
    case ApplySnapshot => ApplySnapshotKeepsInv(env, s);
    case ReadRows => ReadRowsKeepsInv(env, s);
    case Receive => ReceiveKeepsInv(env, s);
    case SendReplayed => ServerKeepsInv(env, s, step);
    case SendLive => ServerKeepsInv(env, s, step);
    case TakeEvent => ServerKeepsInv(env, s, step);
    case _ => QuietKeepsInv(env, s, step);
  }

  lemma {:induction false} RunKeepsInv(env: Env, states: seq<State>, steps: seq<Step>, i: nat)
    requires Listing(env) && Execution(env, states, steps) && i < |states|
    ensures Inv(env, states[i])
  {
    if i > 0 {
      RunKeepsInv(env, states, steps, i - 1);
      StepKeepsInv(env, states[i - 1], steps[i - 1]);
    }
  }

  // ---------------------------------------------------------------- theorems

  /** Nothing is queued, on the wire, in the channel or unpublished. */
  predicate Drained(s: State)
  {
    s.phase.Streaming? && s.wire == [] && s.replay == [] && s.sending == [] && s.head == s.published == |s.h|
  }

  /** Across any disconnects, failed or successful reloads and resubscriptions: drained means up to date. */
  lemma DrainedIsCurrent(env: Env, states: seq<State>, steps: seq<Step>, i: nat)
    requires Listing(env) && Execution(env, states, steps) && i < |states| && Drained(states[i])
    ensures states[i].view == ValuesAt(env, states[i].h, |states[i].h|)
  {
    RunKeepsInv(env, states, steps, i);
    CurrentWhenDrained(env, states[i]);
  }

  lemma CurrentWhenDrained(env: Env, s: State)
    requires Inv(env, s) && Drained(s)
    ensures s.view == ValuesAt(env, s.h, |s.h|)
  {
    var latest := ValuesAt(env, s.h, |s.h|);
    forall p ensures Lookup(s.view, p) == Lookup(latest, p) {
      if p in env.fields {
        assert Faithful(s, p) && OnCourse(env, s, p) && Pending(env, s) == [];
        SettledReads(s.h, s.seen[p], p);
      }
    }
    SameLookups(s.view, latest);
  }

  /** At every moment a registered field shows what the store held at some version no older than the last snapshot. */
  lemma NeverOlderThanSnapshot(env: Env, states: seq<State>, steps: seq<Step>, i: nat, p: string)
    requires Listing(env) && Execution(env, states, steps) && i < |states| && states[i].loaded && p in env.fields
    ensures var s := states[i];
            exists v :: s.snapshotVersion <= v <= |s.h| && Lookup(s.view, p) == ValueAt(s.h, v, p)
  {
    RunKeepsInv(env, states, steps, i);
    assert Faithful(states[i], p);
  }

  /** A schedule of deliveries. */
  predicate Schedule(env: Env, s: State, steps: seq<Step>, t: State)
    decreases |steps|
  {
    if steps == [] then s == t
    else
      && Enabled(s, steps[0]) && !steps[0].Commit? && !steps[0].Disconnect?
      && Schedule(env, Apply(env, s, steps[0]), steps[1..], t)
  }

  /** How far the client is from streaming. */
  function Distance(phase: Phase): nat
  {
    match phase
    case Reading => 5
    case Read(_, _) => 4
    case Dialing => 3
    case Subscribed => 2
    case Marked => 1
    case Streaming => 0
  }

  /** The step that brings the client closer to streaming and then drains what is on its way. */
  function Forward(s: State): Step
  {
    match s.phase
    case Reading => ReadSnapshot
    case Read(_, _) => ApplySnapshot
    case Dialing => Subscribe
    case Subscribed => ReadLatest
    case Marked => ReadRows
    case Streaming =>
      if s.published < |s.h| then Publish else if s.wire != [] then Receive
      else if s.replay != [] then SendReplayed else if s.sending != [] then SendLive else TakeEvent
  }

  /**
   From any state of a tenant that has a version, whatever the client is doing: if nothing more is committed and the
   connection holds, the fields catch up.
   */
  lemma {:induction false} CatchesUp(env: Env, s: State) returns (steps: seq<Step>, t: State)
    requires Listing(env) && Inv(env, s) && s.h != []
    ensures Schedule(env, s, steps, t) && t.h == s.h && Drained(t) && t.view == ValuesAt(env, s.h, |s.h|)
    decreases Distance(s.phase), |s.h| - s.published, s.published - s.head, |s.replay| + |s.sending|, |s.wire|
  {
    if Drained(s) {
      CurrentWhenDrained(env, s);
      return [], s;
    }
    var step := Forward(s);
    StepKeepsInv(env, s, step);
    var rest;
    rest, t := CatchesUp(env, Apply(env, s, step));
    steps := [step] + rest;
    assert steps[1..] == rest;
  }
}
