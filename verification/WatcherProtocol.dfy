/**
 A watcher following one tenant across disconnects: it loads a snapshot, subscribes from the version after it, applies
 what the stream sends, and on every disconnect reloads (or fails to) and subscribes again. The run it is interleaved
 with commits versions whose values are not null and publishes them in version order without losing any, and has no
 rollbacks.
 */
module WatcherProtocol {
  import opened ConfigHistory
  import opened Wrappers

  /** One change on the wire: version `version` set `path` to `value`. */
  datatype Message = Message(version: nat, path: string, value: string)

  /** The registered fields, and the order in which a version's changes are replayed or published. */
  datatype Env = Env(fields: set<string>, replayed: Delta -> seq<string>, published: Delta -> seq<string>)

  datatype Phase = Reading | Read(v: nat, values: map<string, string>) | Dialing | Subscribed | Marked | Streaming

  datatype State = State(
    h: seq<Delta>, published: nat,                    // the store, and how many versions have been published
    phase: Phase, loaded: bool, snapshotVersion: nat, // the client
    view: map<string, string>,                        // the fields that are set
    seen: map<string, nat>,                           // the version each field's value was taken from
    wire: seq<Message>,                               // sent, not yet received
    replay: seq<Message>, sending: seq<Message>,      // the server's queues for this connection
    head: nat, watermark: nat)                        // versions taken from the channel, and the replay's watermark

  datatype Step =
    | Commit(d: Delta) | Publish
    | ReadSnapshot | FailSnapshot | ApplySnapshot | Subscribe | Disconnect | Receive
    | ReadLatest | ReadRows | SendReplayed | TakeEvent | SendLive

  /** The order functions list each version's fields. */
  ghost predicate Listing(env: Env)
  {
    forall d, p :: (p in env.replayed(d) <==> p in d) && (p in env.published(d) <==> p in d)
  }

  predicate NonNull(d: Delta) { forall p :: p in d ==> d[p].value.Some? }

  /** What a read of `p` at version `v` shows. */
  function ValueAt(h: seq<Delta>, v: nat, p: string): Option<string>
    requires v <= |h|
  {
    if p in Snapshot(h, v) then Some(Deref(Snapshot(h, v)[p].value)) else None
  }

  /** The registered fields that a snapshot sets. */
  function ValuesAt(env: Env, h: seq<Delta>, v: nat): map<string, string>
    requires v <= |h|
  {
    map p | p in env.fields && ValueAt(h, v, p).Some? :: ValueAt(h, v, p).value
  }

  predicate Wanted(env: Env, p: string) { env.fields == {} || p in env.fields }

  function Expand(env: Env, d: Delta, order: seq<string>, v: nat): seq<Message>
  {
    if order == [] then []
    else (if order[0] in d && Wanted(env, order[0]) then [Message(v, order[0], Deref(d[order[0]].value))] else [])
         + Expand(env, d, order[1..], v)
  }

  function Messages(env: Env, d: Delta, v: nat, live: bool): seq<Message>
  {
    Expand(env, d, if live then env.published(d) else env.replayed(d), v)
  }

  /** The changes of versions above `from`, oldest first. */
  function Since(env: Env, h: seq<Delta>, from: nat, live: bool): seq<Message>
    decreases |h| - from
  {
    if from >= |h| then [] else Messages(env, h[from], from + 1, live) + Since(env, h, from + 1, live)
  }

  predicate Initial(s: State) { s == State([], 0, Reading, false, 0, map[], map[], [], [], [], 0, 0) }

  predicate Connected(s: State) { s.phase.Subscribed? || s.phase.Marked? || s.phase.Streaming? }

  predicate Enabled(s: State, step: Step)
  {
    match step
    case Commit(d) => NonNull(d)
    case Publish => s.published < |s.h|
    case ReadSnapshot => s.phase == Reading
    case FailSnapshot => s.phase == Reading
    case ApplySnapshot => s.phase.Read?
    case Subscribe => s.phase == Dialing
    case Disconnect => s.phase == Dialing || Connected(s)
    case Receive => Connected(s) && s.wire != []
    case ReadLatest => s.phase == Subscribed
    case ReadRows => s.phase == Marked
    case SendReplayed => s.phase == Streaming && s.replay != []
    case TakeEvent => s.phase == Streaming && s.replay == [] && s.sending == [] && s.head < s.published <= |s.h|
    case SendLive => s.phase == Streaming && s.sending != []
  }

  function Hangup(s: State): State { s.(phase := Reading, wire := [], replay := [], sending := []) }

  function Apply(env: Env, s: State, step: Step): State
    requires Enabled(s, step)
  {
    match step
    case Commit(d) => s.(h := s.h + [d])
    case Publish => s.(published := s.published + 1)
    case ReadSnapshot => s.(phase := Read(|s.h|, ValuesAt(env, s.h, |s.h|)))
    case FailSnapshot => s.(phase := if s.loaded then Dialing else Reading)
    case ApplySnapshot =>
      s.(phase := Dialing, loaded := true, snapshotVersion := s.phase.v,
         view := s.phase.values, seen := map p | p in env.fields :: s.phase.v)
    case Subscribe => s.(phase := Subscribed, head := s.published)
    case Disconnect => Hangup(s)
    case Receive =>
      var m, t := s.wire[0], s.(wire := s.wire[1..]);
      if m.path in env.fields then t.(view := s.view[m.path := m.value], seen := s.seen[m.path := m.version]) else t
    case ReadLatest => if s.h == [] then Hangup(s) else s.(phase := Marked, watermark := |s.h|)
    case ReadRows => s.(phase := Streaming, replay := Since(env, s.h, s.snapshotVersion, false))
    case SendReplayed => s.(replay := s.replay[1..], wire := s.wire + [s.replay[0]])
    case TakeEvent =>
      var v := s.head + 1;
      s.(head := v, sending := if v <= s.watermark then [] else Messages(env, s.h[v - 1], v, true))
    case SendLive => s.(sending := s.sending[1..], wire := s.wire + [s.sending[0]])
  }

  /** A run as the sequence of its states. */
  predicate Execution(env: Env, states: seq<State>, steps: seq<Step>)
  {
    && |states| == |steps| + 1
    && Initial(states[0])
    && forall i :: 0 <= i < |steps| ==> Enabled(states[i], steps[i]) && states[i + 1] == Apply(env, states[i], steps[i])
  }
}
