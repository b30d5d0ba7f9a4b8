/**
 One Subscribe stream with a start version, interleaved with committing and publishing writers of its tenant. The
 server subscribes, reads the latest version as its watermark, reads the rows to replay, sends them, and then streams
 the events whose version is above the watermark. Writers publish after they commit, in any order; an event is lost
 when the channel is full or publishing fails. A rollback commits without publishing.
 */
module ChangeStream {
  /** A committed version: the fields it wrote, each once, and whether its writer publishes it. */
  datatype Version = Version(paths: seq<string>, publishes: bool)

  datatype Event = Event(version: nat, paths: seq<string>)

  /** A message on the stream; `live` tells the event loop's messages from the replay's. */
  datatype Message = Message(version: nat, path: string, live: bool)

  datatype Phase = Idle | Subscribed | Marked | Streaming | Ended

  datatype Env = Env(start: int, filter: set<string>, capacity: nat)

  datatype State = State(
    versions: seq<Version>,      // version v is versions[v - 1]
    unpublished: set<Event>,     // committed, publishing still to come
    early: set<Event>,           // published before the stream subscribed
    delivered: set<Event>,       // put into the stream's channel
    lost: set<Event>,            // dropped at a full channel, or never published
    phase: Phase,
    channel: seq<Event>, watermark: nat, replayedTo: nat,
    replay: seq<Message>, sending: seq<Message>, sent: seq<Message>)

  datatype Step =
    | Commit(version: Version) | Publish(e: Event) | FailToPublish(e: Event)
    | Subscribe | ReadLatest | ReadRows | SendReplayed | Receive | SendLive | End

  predicate Wanted(env: Env, path: string) { env.filter == {} || path in env.filter }

  predicate Distinct(paths: seq<string>) { forall i, j :: 0 <= i < j < |paths| ==> paths[i] != paths[j] }

  /** The messages for one version's fields. */
  function Expand(env: Env, paths: seq<string>, v: nat, live: bool): seq<Message>
  {
    if paths == [] then []
    else (if Wanted(env, paths[0]) then [Message(v, paths[0], live)] else []) + Expand(env, paths[1..], v, live)
  }

  /** The replay of versions up to `n`, oldest first. */
  function Replay(env: Env, versions: seq<Version>, n: nat): seq<Message>
    requires n <= |versions|
  {
    if n == 0 then []
    else Replay(env, versions, n - 1) + Last(env, versions[n - 1].paths, n)
  }

  function Last(env: Env, paths: seq<string>, n: nat): seq<Message>
  {
    if n >= env.start then Expand(env, paths, n, false) else []
  }

  predicate Initial(s: State) { s == State([], {}, {}, {}, {}, Idle, [], 0, 0, [], [], []) }

  predicate Enabled(s: State, step: Step)
  {
    match step
    case Commit(version) => Distinct(version.paths)
    case Publish(e) => e in s.unpublished
    case FailToPublish(e) => e in s.unpublished
    case Subscribe => s.phase == Idle
    case ReadLatest => s.phase == Subscribed
    case ReadRows => s.phase == Marked
    case SendReplayed => s.phase == Streaming && s.replay != []
    case Receive => s.phase == Streaming && s.replay == [] && s.sending == [] && s.channel != []
    case SendLive => s.phase == Streaming && s.sending != []
    case End => true
  }

  function Apply(env: Env, s: State, step: Step): State
    requires Enabled(s, step)
  {
    match step
    case Commit(version) =>
      var e := Event(|s.versions| + 1, version.paths);
      s.(versions := s.versions + [version],
         unpublished := if version.publishes then s.unpublished + {e} else s.unpublished)
    case Publish(e) =>
      var t := s.(unpublished := s.unpublished - {e});
      if s.phase == Idle then t.(early := s.early + {e})
      else if s.phase == Ended then t
      else if |s.channel| < env.capacity then t.(channel := s.channel + [e], delivered := s.delivered + {e})
      else t.(lost := s.lost + {e})
    case FailToPublish(e) => s.(unpublished := s.unpublished - {e}, lost := s.lost + {e})
    case Subscribe => s.(phase := Subscribed)
    case ReadLatest =>
      if s.versions == [] then s.(phase := Ended) else s.(phase := Marked, watermark := |s.versions|)
    case ReadRows =>
      s.(phase := Streaming, replayedTo := |s.versions|, replay := Replay(env, s.versions, |s.versions|))
    case SendReplayed => s.(replay := s.replay[1..], sent := s.sent + [s.replay[0]])
    case Receive =>
      var e, t := s.channel[0], s.(channel := s.channel[1..]);
      if e.version <= s.watermark then t else t.(sending := Expand(env, e.paths, e.version, true))
    case SendLive => s.(sending := s.sending[1..], sent := s.sent + [s.sending[0]])
    case End => s.(phase := Ended)
  }

  /** A run as the sequence of its states. */
  predicate Execution(env: Env, states: seq<State>, steps: seq<Step>)
  {
    && |states| == |steps| + 1
    && Initial(states[0])
    && forall i :: 0 <= i < |steps| ==> Enabled(states[i], steps[i]) && states[i + 1] == Apply(env, states[i], steps[i])
  }
}
