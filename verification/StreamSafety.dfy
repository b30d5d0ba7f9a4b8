/** What every interleaving of a stream with its tenant's writers keeps, and how often each change is sent. */
module StreamSafety {
  import opened ChangeStream

  // ---------------------------------------------------------------- counting messages

  function One(b: bool): nat { if b then 1 else 0 }

  function Count(ms: seq<Message>, m: Message): nat
  {
    if ms == [] then 0 else One(ms[0] == m) + Count(ms[1..], m)
  }

  lemma {:induction false} CountConcat(a: seq<Message>, b: seq<Message>, m: Message)
    ensures Count(a + b, m) == Count(a, m) + Count(b, m)
  {
    if a == [] {
      assert a + b == b;
    } else {
      assert (a + b)[0] == a[0] && (a + b)[1..] == a[1..] + b;
      CountConcat(a[1..], b, m);
    }
  }

  lemma {:induction false} CountMember(ms: seq<Message>, m: Message)
    ensures m in ms <==> Count(ms, m) >= 1
  {
    if ms != [] { CountMember(ms[1..], m); }
  }

  lemma {:induction false} CountExpand(env: Env, paths: seq<string>, v: nat, live: bool, m: Message)
    requires Distinct(paths)
    ensures Count(Expand(env, paths, v, live), m)
            == One(m.version == v && m.live == live && m.path in paths && Wanted(env, m.path))
  {
    if paths != [] {
      CountExpand(env, paths[1..], v, live, m);
      var first := if Wanted(env, paths[0]) then [Message(v, paths[0], live)] else [];
      CountConcat(first, Expand(env, paths[1..], v, live), m);
    }
  }

  /** The version that wrote the field of `m`, seen from the store. */
  predicate Wrote(versions: seq<Version>, m: Message)
  {
    1 <= m.version <= |versions| && m.path in versions[m.version - 1].paths
  }

  predicate AllDistinct(versions: seq<Version>) { forall i :: 0 <= i < |versions| ==> Distinct(versions[i].paths) }

  lemma {:induction false} CountReplay(env: Env, versions: seq<Version>, n: nat, m: Message)
    requires n <= |versions| && AllDistinct(versions)
    ensures Count(Replay(env, versions, n), m)
            == One(!m.live && env.start <= m.version <= n && Wrote(versions, m) && Wanted(env, m.path))
  {
    if n > 0 {
      CountReplay(env, versions, n - 1, m);
      CountLast(env, versions[n - 1].paths, n, m);
      CountConcat(Replay(env, versions, n - 1), Last(env, versions[n - 1].paths, n), m);
    }
  }

  lemma CountLast(env: Env, paths: seq<string>, n: nat, m: Message)
    requires Distinct(paths)
    ensures Count(Last(env, paths, n), m)
            == One(!m.live && env.start <= m.version == n && m.path in paths && Wanted(env, m.path))
  {
    CountExpand(env, paths, n, false, m);
  }

  // ---------------------------------------------------------------- invariant

  /** The event that announces version `v`. */
  function EventOf(s: State, v: nat): Event { Event(v, if 1 <= v <= |s.versions| then s.versions[v - 1].paths else []) }

  /** An event in circulation describes a committed version that its writer publishes. */
  predicate Genuine(s: State, e: Event)
  {
    1 <= e.version <= |s.versions| && s.versions[e.version - 1] == Version(e.paths, true)
  }

  predicate Known(s: State, e: Event) { e in s.unpublished || e in s.early || e in s.delivered || e in s.lost }

  /** Events in circulation are genuine, and until the stream ends every publishing version is in circulation. */
  ghost predicate Accounted(s: State)
  {
    && AllDistinct(s.versions)
    && (forall e :: Known(s, e) ==> Genuine(s, e))
    && (s.phase != Ended ==> forall i :: 0 <= i < |s.versions| && s.versions[i].publishes ==>
          Known(s, Event(i + 1, s.versions[i].paths)))
  }

  ghost predicate Marks(s: State)
  {
    && (s.phase == Marked || s.phase == Streaming ==> (forall e :: e in s.early ==> e.version <= s.watermark))
    && (s.phase == Marked ==> s.watermark <= |s.versions|)
    && (s.phase == Streaming ==> s.watermark <= s.replayedTo <= |s.versions|)
    && (s.phase != Streaming && s.phase != Ended ==>
          s.sent == [] && s.replay == [] && s.sending == [] && forall e :: e in s.channel <==> e in s.delivered)
  }

  ghost predicate Channel(s: State)
  {
    && (s.phase == Idle ==> s.channel == [])
    && (forall e :: e in s.channel ==> e in s.delivered && e !in s.unpublished)
    && (forall e :: e in s.delivered ==> e !in s.unpublished)
    && (forall i, j :: 0 <= i < j < |s.channel| ==> s.channel[i] != s.channel[j])
  }

  predicate Due(env: Env, s: State, m: Message) { Wrote(s.versions, m) && Wanted(env, m.path) }

  /** How often `m` was sent, is queued to be sent, or will be expanded from the channel. */
  predicate Balance(env: Env, s: State, m: Message)
  {
    var e := EventOf(s, m.version);
    if m.live then
      Count(s.sent, m) + Count(s.sending, m) + One(e in s.channel && Due(env, s, m) && m.version > s.watermark)
      == One(e in s.delivered && Due(env, s, m) && m.version > s.watermark) && Count(s.replay, m) == 0
    else
      Count(s.sent, m) + Count(s.replay, m) == One(env.start <= m.version <= s.replayedTo && Due(env, s, m))
      && Count(s.sending, m) == 0
  }

  ghost predicate Inv(env: Env, s: State)
  {
    && Accounted(s) && Marks(s) && Channel(s)
    && (s.phase == Streaming ==> forall m :: Balance(env, s, m))
  }

  lemma StepKeepsAccounts(env: Env, s: State, step: Step)
    requires Inv(env, s) && Enabled(s, step)
    ensures Accounted(Apply(env, s, step))
  {
    var t := Apply(env, s, step);
    forall e | Known(t, e) ensures Genuine(t, e) { assert Known(s, e) || step.Commit?; }
    forall i | t.phase != Ended && 0 <= i < |t.versions| && t.versions[i].publishes
      ensures Known(t, Event(i + 1, t.versions[i].paths))
    {
      assert i < |s.versions| ==> Known(s, Event(i + 1, s.versions[i].paths));
    }
  }

  lemma StepKeepsMarks(env: Env, s: State, step: Step)
    requires Inv(env, s) && Enabled(s, step)
    ensures Marks(Apply(env, s, step)) && Channel(Apply(env, s, step))
  {
    var t := Apply(env, s, step);
    assert forall e :: e in s.early || e in s.delivered ==> Known(s, e);
  }

  lemma CommitKeepsBalance(env: Env, s: State, version: Version, m: Message)
    requires Accounted(s) && Marks(s) && Channel(s) && Balance(env, s, m) && s.phase == Streaming
            && Distinct(version.paths)
    ensures Balance(env, Apply(env, s, Commit(version)), m)
  {
    var t := Apply(env, s, Commit(version));
    var e, e' := EventOf(s, m.version), EventOf(t, m.version);
    assert e in s.delivered || e in s.channel ==> Known(s, e);
    assert e' in s.delivered || e' in s.channel ==> Known(s, e');
  }

  lemma PublishKeepsBalance(env: Env, s: State, e: Event, m: Message)
    requires Accounted(s) && Channel(s) && Balance(env, s, m) && s.phase == Streaming && e in s.unpublished
    ensures Balance(env, Apply(env, s, Publish(e)), m)
  {
    assert Known(s, e);
  }

  lemma ReceiveKeepsBalance(env: Env, s: State, m: Message)
    requires Accounted(s) && Channel(s) && Balance(env, s, m) && Enabled(s, Receive)
    ensures Balance(env, Apply(env, s, Receive), m)
  {
    var e, t := s.channel[0], Apply(env, s, Receive);
    assert Known(s, e) && AllDistinct(s.versions) && Genuine(s, e);
    assert s.channel == [e] + t.channel && e !in t.channel && e in s.delivered;
    CountExpand(env, e.paths, e.version, true, m);
    Expanded(env, s, e, t.channel, t.sending, m);
  }

  lemma Expanded(env: Env, s: State, e: Event, rest: seq<Event>, queue: seq<Message>, m: Message)
    requires s.channel == [e] + rest && e !in rest && e in s.delivered && Genuine(s, e) && s.sending == []
    requires Balance(env, s, m)
    requires Count(queue, m)
            == One(s.watermark < e.version && Message(e.version, m.path, true) == m && m.path in e.paths
                && Wanted(env, m.path))
    ensures Balance(env, s.(channel := rest, sending := queue), m)
  {
    var e' := EventOf(s, m.version);
    assert e' in s.channel <==> e' == e || e' in rest;
  }

  lemma SendKeepsBalance(env: Env, s: State, step: Step, m: Message)
    requires Balance(env, s, m) && Enabled(s, step) && (step.SendReplayed? || step.SendLive?)
    ensures Balance(env, Apply(env, s, step), m)
  {
    if step.SendReplayed? {
      CountConcat(s.sent, [s.replay[0]], m);
    } else {
      CountConcat(s.sent, [s.sending[0]], m);
    }
  }

  lemma {:induction false} FirstBalance(env: Env, s: State, rows: seq<Message>, m: Message)
    requires s.sent == [] && s.sending == [] && forall e :: e in s.channel <==> e in s.delivered
    requires Count(rows, m) == One(!m.live && env.start <= m.version <= |s.versions| && Due(env, s, m))
    ensures Balance(env, s.(phase := Streaming, replayedTo := |s.versions|, replay := rows), m)
  {}

  lemma StepKeepsInv(env: Env, s: State, step: Step)
    requires Inv(env, s) && Enabled(s, step)
    ensures Inv(env, Apply(env, s, step))
  {
    var t := Apply(env, s, step);
    StepKeepsAccounts(env, s, step);
    StepKeepsMarks(env, s, step);
    if t.phase == Streaming {
      forall m ensures Balance(env, t, m) {
        assert s.phase == Streaming ==> Balance(env, s, m);
        match step
        case ReadRows =>
          CountReplay(env, s.versions, |s.versions|, m);
          FirstBalance(env, s, Replay(env, s.versions, |s.versions|), m);
        case Commit(version) => CommitKeepsBalance(env, s, version, m);
        case Publish(e) => PublishKeepsBalance(env, s, e, m);
        case Receive => ReceiveKeepsBalance(env, s, m);
        case SendReplayed => SendKeepsBalance(env, s, step, m);
        case SendLive => SendKeepsBalance(env, s, step, m);
        case _ =>
      }
    }
  }

  lemma {:induction false} RunKeepsInv(env: Env, states: seq<State>, steps: seq<Step>, i: nat)
    requires Execution(env, states, steps) && i < |states|
    ensures Inv(env, states[i])
  {
    if i > 0 {
      RunKeepsInv(env, states, steps, i - 1);
      StepKeepsInv(env, states[i - 1], steps[i - 1]);
    }
  }

  // ---------------------------------------------------------------- theorems

  /** How often the change of `path` by version `v` is on the stream. */
  function Sent(s: State, v: nat, path: string): nat
  {
    Count(s.sent, Message(v, path, true)) + Count(s.sent, Message(v, path, false))
  }

  /** Still on its way: queued for sending, in the channel, or with a writer that is about to publish. */
  predicate Pending(s: State, v: nat, path: string)
  {
    || Message(v, path, false) in s.replay || Message(v, path, true) in s.sending
    || EventOf(s, v) in s.channel || EventOf(s, v) in s.unpublished
  }

  /**
   In every interleaving, every change at or above the start version that passes the filter has been sent, is pending,
   was lost at a full channel or a failed publish, or is a rollback's that came after the replay read.
   */
  lemma EveryChangeIsSent(
    env: Env, states: seq<State>, steps: seq<Step>, i: nat, v: nat, path: string)
    requires Execution(env, states, steps) && i < |states| && states[i].phase == Streaming
    requires env.start <= v && Wrote(states[i].versions, Message(v, path, false)) && Wanted(env, path)
    ensures var s := states[i];
            || Sent(s, v, path) >= 1 || Pending(s, v, path)
            || EventOf(s, v) in s.lost
            || (!s.versions[v - 1].publishes && v > s.replayedTo)
  {
    RunKeepsInv(env, states, steps, i);
    DueIsSent(env, states[i], v, path);
  }

  lemma DueIsSent(env: Env, s: State, v: nat, path: string)
    requires Inv(env, s) && s.phase == Streaming
    requires env.start <= v && Wrote(s.versions, Message(v, path, false)) && Wanted(env, path)
    ensures || Sent(s, v, path) >= 1 || Pending(s, v, path)
            || EventOf(s, v) in s.lost
            || (!s.versions[v - 1].publishes && v > s.replayedTo)
  {
    CountMember(s.replay, Message(v, path, false));
    CountMember(s.sending, Message(v, path, true));
    assert Balance(env, s, Message(v, path, true)) && Balance(env, s, Message(v, path, false));
    if s.versions[v - 1].publishes { assert Known(s, Event(v - 1 + 1, s.versions[v - 1].paths)); }
  }

  /** Nothing is on its way. */
  predicate Quiet(s: State)
  {
    s.phase == Streaming && s.replay == [] && s.sending == [] && s.channel == [] && s.unpublished == {}
  }

  /** A schedule without new versions, failed publishing or an end of the stream. */
  predicate Schedule(env: Env, s: State, steps: seq<Step>, t: State)
    decreases |steps|
  {
    if steps == [] then s == t
    else
      && Enabled(s, steps[0]) && !steps[0].Commit? && !steps[0].FailToPublish? && !steps[0].End?
      && Schedule(env, Apply(env, s, steps[0]), steps[1..], t)
  }

  /** How far the stream is from its event loop. */
  function Distance(phase: Phase): nat
  {
    match phase
    case Idle => 3
    case Subscribed => 2
    case Marked => 1
    case Streaming => 0
    case Ended => 4
  }

  /** The step that brings the stream closer to its event loop and then empties what is on its way. */
  ghost function Forward(s: State): Step
    requires s.phase != Ended && !Quiet(s)
  {
    match s.phase
    case Idle => Subscribe
    case Subscribed => ReadLatest
    case Marked => ReadRows
    case Streaming =>
      if s.replay != [] then SendReplayed else if s.sending != [] then SendLive
      else if s.channel != [] then Receive else var e :| e in s.unpublished; Publish(e)
  }

  /**
   From any state of a stream that has not ended, of a tenant that has a version: it can deliver all that is on its way
   without losing any of it, and then every change that is due has been sent, was lost before, or is a rollback's that
   came after the replay read.
   */
  lemma {:induction false} CatchesUp(env: Env, s: State) returns (steps: seq<Step>, t: State)
    requires Inv(env, s) && s.phase != Ended && s.versions != [] && env.capacity > 0
    ensures Schedule(env, s, steps, t) && Quiet(t) && t.versions == s.versions && t.lost == s.lost
    ensures forall v: nat, path {:trigger Sent(t, v, path)} ::
              env.start <= v && Wrote(s.versions, Message(v, path, false)) && Wanted(env, path) ==>
                || Sent(t, v, path) >= 1 || EventOf(s, v) in s.lost
                || (!s.versions[v - 1].publishes && v > t.replayedTo)
    decreases Distance(s.phase), |s.unpublished|, |s.channel|, |s.replay| + |s.sending|
  {
    if Quiet(s) {
      forall v: nat, path | env.start <= v && Wrote(s.versions, Message(v, path, false)) && Wanted(env, path)
        ensures || Sent(s, v, path) >= 1 || EventOf(s, v) in s.lost
                || (!s.versions[v - 1].publishes && v > s.replayedTo)
      {
        DueIsSent(env, s, v, path);
      }
      return [], s;
    }
    var step := Forward(s);
    StepKeepsInv(env, s, step);
    var rest;
    rest, t := CatchesUp(env, Apply(env, s, step));
    steps := [step] + rest;
    assert steps[1..] == rest;
  }

  /**
   In every interleaving, a change is sent at most twice, and twice only if its version was committed after the
   latest-version read and before the replay read. Only committed changes that pass the filter are sent, and one below
   the start version only by the event loop, once, when its version is above the watermark.
   */
  lemma DuplicatesAreBounded(
    env: Env, states: seq<State>, steps: seq<Step>, i: nat, v: nat, path: string)
    requires Execution(env, states, steps) && i < |states| && states[i].phase == Streaming
    ensures var s := states[i];
            && Sent(s, v, path) <= 2
            && (Sent(s, v, path) == 2 ==> s.watermark < v <= s.replayedTo)
            && (Sent(s, v, path) >= 1 ==> Wrote(s.versions, Message(v, path, false)) && Wanted(env, path))
            && (v < env.start ==>
                  && Message(v, path, false) !in s.sent && Message(v, path, false) !in s.replay
                  && Sent(s, v, path) <= One(EventOf(s, v) in s.delivered && v > s.watermark))
  {
    RunKeepsInv(env, states, steps, i);
    var live, replayed := Message(v, path, true), Message(v, path, false);
    assert Balance(env, states[i], live) && Balance(env, states[i], replayed);
    CountMember(states[i].sent, replayed);
    CountMember(states[i].replay, replayed);
  }

  /**
   With nothing of it pending, how often a change was sent: once if it was replayed, and once if it was delivered live
   above the watermark. The replay covers the start version and what follows; the event loop does not look at it.
   */
  lemma SentExactly(env: Env, states: seq<State>, steps: seq<Step>, i: nat, v: nat, path: string)
    requires Execution(env, states, steps) && i < |states| && states[i].phase == Streaming
    requires Wrote(states[i].versions, Message(v, path, false)) && Wanted(env, path)
    requires !Pending(states[i], v, path)
    ensures var s := states[i];
            Sent(s, v, path)
            == One(env.start <= v <= s.replayedTo) + One(EventOf(s, v) in s.delivered && v > s.watermark)
  {
    RunKeepsInv(env, states, steps, i);
    CountMember(states[i].replay, Message(v, path, false));
    CountMember(states[i].sending, Message(v, path, true));
    assert Balance(env, states[i], Message(v, path, true)) && Balance(env, states[i], Message(v, path, false));
  }

  /**
   In every interleaving, the changes of a version that is not published, made after the replay read, never show up.
   */
  lemma SilentVersionIsNeverSent(
    env: Env, states: seq<State>, steps: seq<Step>, i: nat, v: nat, path: string)
    requires Execution(env, states, steps) && i < |states| && states[i].phase == Streaming
    requires states[i].replayedTo < v <= |states[i].versions| && !states[i].versions[v - 1].publishes
    ensures Sent(states[i], v, path) == 0 && !Pending(states[i], v, path)
  {
    RunKeepsInv(env, states, steps, i);
    var s := states[i];
    assert Balance(env, s, Message(v, path, true)) && Balance(env, s, Message(v, path, false));
    CountMember(s.replay, Message(v, path, false));
    CountMember(s.sending, Message(v, path, true));
    assert EventOf(s, v) in s.channel || EventOf(s, v) in s.delivered || EventOf(s, v) in s.unpublished ==>
        Known(s, EventOf(s, v));
  }

  lemma Extend(env: Env, states: seq<State>, steps: seq<Step>, step: Step)
    requires Execution(env, states, steps) && Enabled(states[|steps|], step)
    ensures Execution(env, states + [Apply(env, states[|steps|], step)], steps + [step])
  {}

  /** Such a version can occur in any run that is streaming: it takes one rollback. */
  lemma RollbackWhileStreaming(env: Env, states: seq<State>, steps: seq<Step>, path: string)
    requires Execution(env, states, steps) && states[|steps|].phase == Streaming && Wanted(env, path)
    ensures var version := Version([path], false);
            var states', steps' := states + [Apply(env, states[|steps|], Commit(version))], steps + [Commit(version)];
            var s := states'[|steps'|];
            && Execution(env, states', steps')
            && Wrote(s.versions, Message(|s.versions|, path, false)) && Sent(s, |s.versions|, path) == 0
            && !Pending(s, |s.versions|, path)
  {
    var version := Version([path], false);
    var states', steps' := states + [Apply(env, states[|steps|], Commit(version))], steps + [Commit(version)];
    RunKeepsInv(env, states, steps, |steps|);
    Extend(env, states, steps, Commit(version));
    var n := |states'[|steps'|].versions|;
    assert states'[|steps'|].versions[n - 1] == version;
    SilentVersionIsNeverSent(env, states', steps', |steps'|, n, path);
  }

  function Then(env: Env, states: seq<State>, step: Step): seq<State>
    requires states != [] && Enabled(states[|states| - 1], step)
  {
    states + [Apply(env, states[|states| - 1], step)]
  }

  /** The next version, published at once, goes through an idle stream. */
  lemma NextVersionGoesThrough(env: Env, states: seq<State>, steps: seq<Step>, path: string)
    returns (states': seq<State>, steps': seq<Step>)
    requires Execution(env, states, steps) && Quiet(states[|steps|]) && Wanted(env, path) && env.capacity > 0
    ensures Execution(env, states', steps') && Quiet(states'[|steps'|])
    ensures var s, v := states'[|steps'|], |states[|steps|].versions| + 1;
            && |s.versions| == v && s.versions[v - 1] == Version([path], true) && Sent(s, v, path) == 1
            && s.watermark == states[|steps|].watermark
  {
    var s, version := states[|steps|], Version([path], true);
    var v := |s.versions| + 1;
    var e := Event(v, [path]);
    RunKeepsInv(env, states, steps, |steps|);
    Extend(env, states, steps, Commit(version));
    states', steps' := Then(env, states, Commit(version)), steps + [Commit(version)];
    Extend(env, states', steps', Publish(e));
    states', steps' := Then(env, states', Publish(e)), steps' + [Publish(e)];
    assert states'[|steps'|].channel == [e] && states'[|steps'|].unpublished == {};
    ExpandOne(env, path, v);
    Extend(env, states', steps', Receive);
    states', steps' := Then(env, states', Receive), steps' + [Receive];
    assert states'[|steps'|].sending == [Message(v, path, true)] && states'[|steps'|].channel == [];
    Extend(env, states', steps', SendLive);
    states', steps' := Then(env, states', SendLive), steps' + [SendLive];
    SentExactly(env, states', steps', |steps'|, v, path);
  }

  lemma ExpandOne(env: Env, path: string, v: nat)
    requires Wanted(env, path)
    ensures Expand(env, [path], v, true) == [Message(v, path, true)]
  {
    assert [path][1..] == [];
  }

  /**
   A stream asked for versions from 5 on while the tenant has one: once it is live, version 2 is sent, although it lies
   below the start.
   */
  lemma BelowStartIsSentLive(path: string) returns (env: Env, states: seq<State>, steps: seq<Step>)
    ensures env.start == 5 && Execution(env, states, steps)
    ensures var s := states[|steps|]; s.phase == Streaming && s.watermark == 1 && Sent(s, 2, path) == 1
  {
    env := Env(5, {}, 64);
    var s := State([], {}, {}, {}, {}, Idle, [], 0, 0, [], [], []);
    var version := Version([], false);
    states, steps := [s], [];
    Extend(env, states, steps, Commit(version));
    states, steps := Then(env, states, Commit(version)), steps + [Commit(version)];
    Extend(env, states, steps, Subscribe);
    states, steps := Then(env, states, Subscribe), steps + [Subscribe];
    Extend(env, states, steps, ReadLatest);
    states, steps := Then(env, states, ReadLatest), steps + [ReadLatest];
    assert states[|steps|].versions == [version];
    assert Replay(env, [version], 1) == Replay(env, [version], 0) + Last(env, [], 1) == [];
    Extend(env, states, steps, ReadRows);
    states, steps := Then(env, states, ReadRows), steps + [ReadRows];
    states, steps := NextVersionGoesThrough(env, states, steps, path);
  }
}
