/**
 The handshake between Watcher.Start, Watcher.Close and the subscription goroutine, as interleaved steps. A step is
 one critical section or one channel operation. Channels are numbered as they are made; closing a nil or closed
 channel panics.
 */
module WatcherLifecycle {
  import opened Wrappers

  /** Where a call is. `Returned` and `Reaped` are ends; only the first Close ends in `Reaped`. */
  datatype Pc =
    // Start
    | StartEntry | Snapshot | Failed | Unblock(stale: Option<nat>) | Assign | Signal | Launch
    // Close
    | CloseEntry | AwaitReady(ready: Option<nat>) | ReadCancel | AwaitDone | CloseValues
    | Returned | Reaped

  datatype Watcher = Watcher(
    started: bool, closed: bool, cancelSet: bool, cancelReady: Option<nat>,
    made: nat, shut: set<nat>,  // channels made so far, and those closed
    cancelled: bool,            // the loop's context
    launched: nat, running: nat, done: bool,
    panicked: bool)

  datatype State = State(threads: map<nat, Pc>, w: Watcher)

  datatype Step = Start(t: nat) | Close(t: nat) | Run(t: nat, snapshotOk: bool) | CancelParent | ExitLoop

  predicate Initial(s: State)
  {
    && s.threads == map[]
    && s.w == Watcher(false, false, false, s.w.cancelReady, s.w.made, {}, false, 0, 0, false, false)
    && (s.w.cancelReady == None || (s.w.cancelReady == Some(0) && s.w.made > 0))
  }

  function CloseChannel(w: Watcher, ch: Option<nat>): Watcher
  {
    if ch.None? || ch.value in w.shut then w.(panicked := true) else w.(shut := w.shut + {ch.value})
  }

  /** The next instruction of a call. */
  function Instruction(w: Watcher, pc: Pc, ok: bool): (Watcher, Pc)
  {
    match pc
    case StartEntry =>
      if w.closed || w.started then (w, Returned)
      else if w.cancelReady.None? then (w.(started := true, cancelReady := Some(w.made), made := w.made + 1), Snapshot)
      else (w.(started := true), Snapshot)
    case Snapshot => (w, if ok then Assign else Failed)
    case Failed => (w.(started := false, cancelReady := Some(w.made), made := w.made + 1), Unblock(w.cancelReady))
    case Unblock(stale) => (CloseChannel(w, stale), Returned)
    case Assign => (w.(cancelSet := true), Signal)
    case Signal => (CloseChannel(w, w.cancelReady), Launch)
    case Launch => (w.(launched := w.launched + 1, running := w.running + 1), Returned)
    case CloseEntry =>
      if w.closed then (w, Returned)
      else (w.(closed := true), if w.started then AwaitReady(w.cancelReady) else CloseValues)
    case AwaitReady(_) => (w, ReadCancel)
    case ReadCancel => if w.cancelSet then (w.(cancelled := true), AwaitDone) else (w, CloseValues)
    case AwaitDone => (w, CloseValues)
    case CloseValues => (w, Reaped)
    case Returned => (w, Returned)
    case Reaped => (w, Reaped)
  }

  predicate Finished(pc: Pc) { pc.Returned? || pc.Reaped? }

  /** Waiting on a channel that is not closed yet. */
  predicate Blocked(w: Watcher, pc: Pc)
  {
    match pc
    case AwaitReady(ready) => ready.Some? && ready.value !in w.shut
    case AwaitDone => !w.done
    case _ => false
  }

  predicate Ready(s: State, t: nat) { t in s.threads && !Finished(s.threads[t]) && !Blocked(s.w, s.threads[t]) }

  predicate Enabled(s: State, step: Step)
  {
    match step
    case Start(t) => t !in s.threads
    case Close(t) => t !in s.threads
    case Run(t, _) => Ready(s, t)
    case CancelParent => true
    case ExitLoop => s.w.running > 0 && s.w.cancelled
  }

  function Advance(s: State, t: nat, ok: bool): State
    requires t in s.threads
  {
    var (w, pc) := Instruction(s.w, s.threads[t], ok);
    State(s.threads[t := pc], w)
  }

  function Apply(s: State, step: Step): State
    requires Enabled(s, step)
  {
    match step
    case Start(t) => s.(threads := s.threads[t := StartEntry])
    case Close(t) => s.(threads := s.threads[t := CloseEntry])
    case Run(t, ok) => Advance(s, t, ok)
    case CancelParent => s.(w := s.w.(cancelled := true))
    case ExitLoop => s.(w := s.w.(running := s.w.running - 1, done := true, panicked := s.w.panicked || s.w.done))
  }

  /** A run as the sequence of its states. */
  predicate Execution(states: seq<State>, steps: seq<Step>)
  {
    && |states| == |steps| + 1
    && Initial(states[0])
    && forall i :: 0 <= i < |steps| ==> Enabled(states[i], steps[i]) && states[i + 1] == Apply(states[i], steps[i])
  }

  // ---------------------------------------------------------------- invariant

  /** A Start that still has to close the current ready channel. */
  predicate Signalling(pc: Pc) { pc.Snapshot? || pc.Failed? || pc.Assign? || pc.Signal? }

  predicate Holds(pc: Pc) { Signalling(pc) || pc.Launch? }

  predicate InFlight(s: State, t: nat) { t in s.threads && Holds(s.threads[t]) }

  /** A call at `pc` is obliged to close channel `ch`. */
  predicate OwesAt(w: Watcher, pc: Pc, ch: nat)
  {
    pc == Unblock(Some(ch)) || (Signalling(pc) && w.cancelReady == Some(ch))
  }

  predicate Owes(s: State, t: nat, ch: nat) { t in s.threads && OwesAt(s.w, s.threads[t], ch) }

  ghost predicate Settled(s: State, ch: nat) { ch in s.w.shut || exists t :: Owes(s, t, ch) }

  predicate Open(w: Watcher, ch: Option<nat>) { ch.Some? && ch.value < w.made && ch.value !in w.shut }

  predicate PcInv(w: Watcher, pc: Pc)
  {
    match pc
    case Snapshot => w.started && !w.cancelSet && Open(w, w.cancelReady)
    case Failed => w.started && !w.cancelSet && Open(w, w.cancelReady)
    case Assign => w.started && !w.cancelSet && Open(w, w.cancelReady)
    case Signal => w.started && w.cancelSet && w.launched == 0 && Open(w, w.cancelReady)
    case Launch => w.started && w.cancelSet && w.launched == 0 && w.cancelReady.Some? && w.cancelReady.value in w.shut
    case Unblock(stale) => Open(w, stale) && w.cancelReady != stale
    case AwaitReady(ready) => w.closed && ready.Some? && (w.started ==> w.cancelReady == ready)
    case ReadCancel => w.closed && (w.started ==> w.cancelSet)
    case AwaitDone => w.closed && w.cancelSet && w.cancelled
    case CloseValues => w.closed && (w.started ==> w.done)
    case Reaped => w.closed && (w.started ==> w.done)
    case _ => true
  }

  ghost predicate ThreadInv(s: State, t: nat)
    requires t in s.threads
  {
    PcInv(s.w, s.threads[t]) && (s.threads[t].AwaitReady? ==> Settled(s, s.threads[t].ready.value))
  }

  /** Two different calls never both hold `started`, and never owe the same stale channel. */
  predicate Apart(pc: Pc, other: Pc) { !(Holds(pc) && Holds(other)) && (pc.Unblock? ==> pc != other) }

  ghost predicate Alone(s: State)
  {
    forall t, u :: t in s.threads && u in s.threads && t != u ==> Apart(s.threads[t], s.threads[u])
  }

  ghost predicate Counters(w: Watcher)
  {
    && !w.panicked
    && (forall ch :: ch in w.shut ==> ch < w.made)
    && (w.cancelReady.Some? ==> w.cancelReady.value < w.made)
    && (if w.started then w.cancelReady.Some? && (w.cancelReady.value in w.shut ==> w.cancelSet)
        else w.cancelReady.None? || Open(w, w.cancelReady))
    && w.running <= w.launched <= 1 && (w.done <==> w.launched == 1 && w.running == 0)
    && (w.cancelSet ==> w.started) && (w.launched == 1 ==> w.cancelSet && w.cancelReady.value in w.shut)
  }

  ghost predicate Inv(s: State)
  {
    && Counters(s.w) && Alone(s)
    && (s.w.started ==> s.w.launched == 1 || exists t :: InFlight(s, t))
    && forall t :: t in s.threads ==> ThreadInv(s, t)
  }

  lemma InitialInv(s: State)
    requires Initial(s)
    ensures Inv(s)
  {}

  lemma StepKeepsInv(s: State, step: Step)
    requires Inv(s) && Enabled(s, step)
    ensures Inv(Apply(s, step))
  {
    match step
    case Start(t) => Arrive(s, t, StartEntry);
    case Close(t) => Arrive(s, t, CloseEntry);
    case Run(t, ok) => AdvanceKeepsInv(s, t, ok);
    case CancelParent => Elsewhere(s, Apply(s, step));
    case ExitLoop => Elsewhere(s, Apply(s, step));
  }

  /** A change that touches no call and no ready channel keeps every debt. */
  lemma Elsewhere(s: State, s': State)
    requires Inv(s) && Counters(s'.w) && s'.threads == s.threads
    requires s'.w == s.w.(cancelled := true) || s'.w == s.w.(running := s'.w.running, done := true)
    ensures Inv(s')
  {
    assert forall t, ch :: Owes(s, t, ch) <==> Owes(s', t, ch);
    assert forall t :: InFlight(s, t) <==> InFlight(s', t);
    forall t | t in s'.threads ensures ThreadInv(s', t) { assert ThreadInv(s, t); }
  }

  lemma Arrive(s: State, t: nat, pc: Pc)
    requires Inv(s) && t !in s.threads && (pc.StartEntry? || pc.CloseEntry?)
    ensures Inv(s.(threads := s.threads[t := pc]))
  {
    var s' := s.(threads := s.threads[t := pc]);
    assert forall u, ch :: Owes(s, u, ch) <==> Owes(s', u, ch);
    assert forall u :: InFlight(s, u) <==> InFlight(s', u);
    forall u | u in s'.threads ensures ThreadInv(s', u) { if u != t { assert ThreadInv(s, u); } }
  }

  /** What one instruction does to the watcher, to its own call and to any other call. */
  lemma InstructionKeeps(w: Watcher, pc: Pc, ok: bool)
    requires Counters(w) && PcInv(w, pc) && !Blocked(w, pc)
    ensures var (w', pc') := Instruction(w, pc, ok);
            && Counters(w') && PcInv(w', pc')
            && (w'.started && !w.started ==> Holds(pc'))
            && (Holds(pc) && w'.started && w'.launched == 0 ==> Holds(pc'))
            && (w.started && !w'.started ==> Holds(pc))
            && (w.launched == 1 ==> w'.launched == 1)
  {}

  lemma InstructionKeepsOther(w: Watcher, pc: Pc, ok: bool, other: Pc)
    requires Counters(w) && PcInv(w, pc) && PcInv(w, other) && Apart(pc, other) && Apart(other, pc)
    ensures var (w', pc') := Instruction(w, pc, ok); PcInv(w', other) && Apart(pc', other) && Apart(other, pc')
  {}

  /** A debt is paid by its debtor or kept. */
  lemma InstructionKeepsDebt(w: Watcher, pc: Pc, ok: bool, debtor: Pc, ch: nat)
    requires Counters(w) && PcInv(w, pc) && PcInv(w, debtor) && OwesAt(w, debtor, ch)
    ensures var (w', pc') := Instruction(w, pc, ok);
            && (debtor == pc ==> ch in w'.shut || OwesAt(w', pc', ch))
            && (Apart(debtor, pc) ==> OwesAt(w', debtor, ch))
            && w.shut <= w'.shut
  {}

  lemma AdvanceKeepsInv(s: State, t: nat, ok: bool)
    requires Inv(s) && Ready(s, t)
    ensures Inv(Advance(s, t, ok))
  {
    var s', pc := Advance(s, t, ok), s.threads[t];
    assert ThreadInv(s, t);
    InstructionKeeps(s.w, pc, ok);
    forall u | u in s.threads && u != t
      ensures PcInv(s'.w, s.threads[u]) && Apart(s'.threads[t], s.threads[u]) && Apart(s.threads[u], s'.threads[t])
    {
      assert ThreadInv(s, u) && Apart(s.threads[u], pc);
      InstructionKeepsOther(s.w, pc, ok, s.threads[u]);
    }
    AdvanceKeepsHolder(s, t, ok);
    forall u | u in s'.threads && s'.threads[u].AwaitReady? ensures Settled(s', s'.threads[u].ready.value) {
      assert ThreadInv(s, u);
      if u == t { CaptureIsSettled(s, t, ok); } else { AdvanceKeepsSettled(s, t, ok, s.threads[u].ready.value); }
    }
  }

  lemma AdvanceKeepsHolder(s: State, t: nat, ok: bool)
    requires Inv(s) && Ready(s, t)
    ensures var s' := Advance(s, t, ok); s'.w.started ==> s'.w.launched == 1 || exists u :: InFlight(s', u)
  {
    var s' := Advance(s, t, ok);
    assert ThreadInv(s, t);
    InstructionKeeps(s.w, s.threads[t], ok);
    if s'.w.started && s'.w.launched != 1 {
      if s.w.started {
        var u :| InFlight(s, u);
        assert InFlight(s', u);
      } else {
        assert InFlight(s', t);
      }
    }
  }

  lemma AdvanceKeepsSettled(s: State, t: nat, ok: bool, ch: nat)
    requires Inv(s) && Ready(s, t) && Settled(s, ch)
    ensures Settled(Advance(s, t, ok), ch)
  {
    var s' := Advance(s, t, ok);
    assert ThreadInv(s, t);
    if ch in s.w.shut {
      ShutGrows(s.w, s.threads[t], ok);
    } else {
      var u :| Owes(s, u, ch);
      assert ThreadInv(s, u) && (u != t ==> Apart(s.threads[u], s.threads[t]));
      InstructionKeepsDebt(s.w, s.threads[t], ok, s.threads[u], ch);
      assert ch in s'.w.shut || Owes(s', u, ch);
    }
  }

  lemma ShutGrows(w: Watcher, pc: Pc, ok: bool)
    ensures w.shut <= Instruction(w, pc, ok).0.shut
  {}

  /** The channel a Close captures together with `started` is closed or owed. */
  lemma CaptureIsSettled(s: State, t: nat, ok: bool)
    requires Inv(s) && Ready(s, t) && Advance(s, t, ok).threads[t].AwaitReady?
    ensures s.w.cancelReady.Some? && Advance(s, t, ok).threads[t] == AwaitReady(s.w.cancelReady)
    ensures Settled(Advance(s, t, ok), s.w.cancelReady.value)
  {
    if s.w.launched != 1 {
      var s', ch := Advance(s, t, ok), s.w.cancelReady.value;
      var u :| InFlight(s, u);
      assert ThreadInv(s, u);
      assert ch in s'.w.shut || Owes(s', u, ch);
    }
  }

  lemma {:induction false} RunKeepsInv(states: seq<State>, steps: seq<Step>, i: nat)
    requires Execution(states, steps) && i < |states|
    ensures Inv(states[i])
  {
    if i == 0 {
      InitialInv(states[0]);
    } else {
      RunKeepsInv(states, steps, i - 1);
      StepKeepsInv(states[i - 1], steps[i - 1]);
    }
  }

  // ---------------------------------------------------------------- theorems

  /** In every run: no channel is closed twice, and at most one loop is ever launched. */
  lemma NothingClosedTwice(states: seq<State>, steps: seq<Step>, i: nat)
    requires Execution(states, steps) && i < |states|
    ensures !states[i].w.panicked && states[i].w.launched <= 1
  {
    RunKeepsInv(states, steps, i);
  }

  /** In every run: whatever a Close waits for has happened or is still owed. */
  lemma WaitsAreOwed(states: seq<State>, steps: seq<Step>, i: nat, t: nat)
    requires Execution(states, steps) && i < |states| && t in states[i].threads
    ensures var s := states[i];
            && (s.threads[t].AwaitReady? ==>
                  s.threads[t].ready.Some?
                      && (s.threads[t].ready.value in s.w.shut || exists u :: Owes(s, u, s.threads[t].ready.value)))
            && (s.threads[t].AwaitDone? ==>
                  || s.w.done || s.w.running == 1
                  || exists u :: u in s.threads && (s.threads[u].Signal? || s.threads[u].Launch?))
  {
    RunKeepsInv(states, steps, i);
    var s := states[i];
    assert ThreadInv(s, t);
    if s.threads[t].AwaitDone? && s.w.launched == 0 {
      var u :| InFlight(s, u);
      assert ThreadInv(s, u);
    }
  }

  /** In every run: once the closing Close has got past its waits, no loop runs and none will ever be launched. */
  lemma CloseReapsTheLoop(states: seq<State>, steps: seq<Step>, i: nat, j: nat, t: nat)
    requires Execution(states, steps) && i <= j < |states| && t in states[i].threads
    requires states[i].threads[t].CloseValues? || states[i].threads[t].Reaped?
    ensures states[j].w.running == 0 && states[j].w.launched == states[i].w.launched
    ensures forall u :: u in states[j].threads ==> !Holds(states[j].threads[u])
  {
    RunKeepsInv(states, steps, j);
    StaysClosing(states, steps, i, j, t);
    assert ThreadInv(states[j], t);
    forall u | u in states[j].threads ensures !Holds(states[j].threads[u]) { assert ThreadInv(states[j], u); }
  }

  lemma {:induction false} StaysClosing(states: seq<State>, steps: seq<Step>, i: nat, j: nat, t: nat)
    requires Execution(states, steps) && i <= j < |states| && t in states[i].threads
    requires states[i].threads[t].CloseValues? || states[i].threads[t].Reaped?
    ensures t in states[j].threads && (states[j].threads[t].CloseValues? || states[j].threads[t].Reaped?)
    ensures states[j].w.launched == states[i].w.launched
    decreases j
  {
    if i < j {
      StaysClosing(states, steps, i, j - 1, t);
      var s, step := states[j - 1], steps[j - 1];
      RunKeepsInv(states, steps, j - 1);
      assert ThreadInv(s, t);
      if step.Run? { assert ThreadInv(s, step.t); }
    }
  }

  /** Instructions left until the call returns. */
  function Remaining(pc: Pc): nat
  {
    match pc
    case StartEntry => 5 case Snapshot => 4 case Failed => 2 case Unblock(_) => 1
    case Assign => 3 case Signal => 2 case Launch => 1
    case CloseEntry => 5 case AwaitReady(_) => 4 case ReadCancel => 3 case AwaitDone => 2 case CloseValues => 1
    case Returned => 0 case Reaped => 0
  }

  lemma InstructionDescends(w: Watcher, pc: Pc, ok: bool)
    requires !Finished(pc)
    ensures Remaining(Instruction(w, pc, ok).1) < Remaining(pc)
  {}

  /** In every run: an unfinished call, or one it waits for, can take a step, and each step leaves fewer to take. */
  lemma NoDeadlock(states: seq<State>, steps: seq<Step>, i: nat, t: nat) returns (step: Step)
    requires Execution(states, steps) && i < |states| && t in states[i].threads && !Finished(states[i].threads[t])
    ensures Enabled(states[i], step) && (step.Run? || step.ExitLoop?)
    ensures var s, s' := states[i], Apply(states[i], step);
            && (step.Run? ==> Remaining(s'.threads[step.t]) < Remaining(s.threads[step.t])
                              && forall u :: u in s.threads && u != step.t ==> s'.threads[u] == s.threads[u])
            && (step.ExitLoop? ==> s'.w.done && s'.threads == s.threads)
  {
    RunKeepsInv(states, steps, i);
    var s := states[i];
    assert ThreadInv(s, t);
    step := Run(t, true);
    if Blocked(s.w, s.threads[t]) {
      if s.threads[t].AwaitReady? {
        var u :| Owes(s, u, s.threads[t].ready.value);
        step := Run(u, true);
      } else if s.w.running == 1 {
        step := ExitLoop;
      } else {
        var u :| InFlight(s, u);
        step := Run(u, true);
      }
    }
    if step.Run? { InstructionDescends(s.w, s.threads[step.t], true); }
  }
}
