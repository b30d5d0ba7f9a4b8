/**
 The write path of one tenant as a state machine: any number of writers, each a sequence of steps that interleave
 freely. The four write RPCs share one transaction shape, and the client's read-modify-write sits on top of SetField.
 The database contributes two effects: a transaction sees committed rows plus its own, and the unique constraint on
 (tenant, version) makes a second insert of a version wait for the first and then fail.
 */
module WriteProtocol {
  import opened ConfigHistory
  import opened DependentRequired
  import opened Overlay
  import opened Wrappers

  datatype Update = Update(path: string, value: Option<string>, expected: Option<string>, description: Option<string>)

  datatype Request =
    | SetFields(updates: seq<Update>)
    | RollbackToVersion(target: int)
    | ImportConfig(values: seq<ImportValue>, mode: ImportMode)
    | ClientUpdate(path: string, fn: string -> string)

  /** A field and the checksum its stored value must have. */
  datatype Check = Check(path: string, expected: string)

  /**
   What the transaction will write and verify, fixed before it begins. `locked` is the row a client update read, and
   `started` the latest version when the plan was made.
   */
  datatype Plan = Plan(delta: Delta, checks: seq<Check>, distinct: bool, locked: Option<Row>, started: int)

  datatype Error = NotFound | AlreadyExists | ChecksumMismatch | VersionConflict | RuleViolation | Failed

  datatype Phase =
    | Arrived
    | Locking(version: int)
    | Ready
    | Checking(base: int, passed: nat)
    | Staged(base: int)
    | Validated(base: int)
    | Committed(version: int)
    | Rejected(error: Error)

  /** `conflicts` counts lost claims, `tries` client cycles. */
  datatype Writer = Writer(request: Request, phase: Phase, plan: Plan, conflicts: nat, tries: nat)

  /** A committed version row with its values; a version seeded at tenant creation has no request. */
  datatype Version = Version(number: int, plan: Plan, request: Option<Request>)

  datatype State = State(log: seq<Version>, writers: map<nat, Writer>)

  datatype Env = Env(rules: seq<Rule>, checksum: string -> string)

  const CONFLICT_RETRIES := 3
  const UPDATE_ATTEMPTS := 3

  // ---------------------------------------------------------------- queries

  /** `MAX(version)`, or 0. */
  function LatestVersion(log: seq<Version>): int
  {
    if log == [] then 0
    else
      var rest := LatestVersion(log[..|log| - 1]);
      if log[|log| - 1].number > rest then log[|log| - 1].number else rest
  }

  /** The version row with the greatest number at or below `v` that writes `p`. */
  function Pick(log: seq<Version>, v: int, p: string): (r: Option<Version>)
    ensures r.Some? ==> p in r.value.plan.delta
  {
    if log == [] then None
    else
      var x, rest := log[|log| - 1], Pick(log[..|log| - 1], v, p);
      if x.number <= v && p in x.plan.delta && (rest.None? || x.number > rest.value.number) then Some(x) else rest
  }

  function RowAt(log: seq<Version>, v: int, p: string): Option<Row>
  {
    var r := Pick(log, v, p);
    if r.Some? then Some(r.value.plan.delta[p]) else None
  }

  function WrittenPaths(log: seq<Version>): set<string> { set i, p | 0 <= i < |log| && p in log[i].plan.delta :: p }

  /** The full snapshot query. */
  function View(log: seq<Version>, v: int): Delta
  {
    map p | p in WrittenPaths(log) && RowAt(log, v, p).Some? :: RowAt(log, v, p).value
  }

  predicate Exists(log: seq<Version>, number: int) { exists i :: 0 <= i < |log| && log[i].number == number }

  function Deltas(log: seq<Version>): seq<Delta> { seq(|log|, i requires 0 <= i < |log| => log[i].plan.delta) }

  // ---------------------------------------------------------------- plans

  function NewRow(env: Env, value: Option<string>, description: Option<string>): Row
  {
    Row(value, if value.Some? then Some(env.checksum(value.value)) else None, description)
  }

  function UpdateRows(env: Env, us: seq<Update>): Delta
  {
    if us == [] then map[]
    else
      var u := us[|us| - 1];
      UpdateRows(env, us[..|us| - 1])[u.path := NewRow(env, u.value, u.description)]
  }

  function ChecksOf(us: seq<Update>): seq<Check>
  {
    if us == [] then []
    else
      var u := us[|us| - 1];
      ChecksOf(us[..|us| - 1]) + (if u.expected.Some? then [Check(u.path, u.expected.value)] else [])
  }

  predicate DistinctUpdates(us: seq<Update>) { forall i, j :: 0 <= i < j < |us| ==> us[i].path != us[j].path }

  /** The write of a client update: the function applied to the value read, guarded by the checksum read. */
  function LockedPlan(env: Env, path: string, fn: string -> string, row: Row, started: int): Plan
  {
    Plan(map[path := NewRow(env, Some(fn(Deref(row.value))), None)], [Check(path, Deref(row.checksum))], true,
        Some(row), started)
  }

  // ---------------------------------------------------------------- steps

  datatype Step =
    | Arrive(w: nat, request: Request)
    | Prepare(w: nat)
    | Lock(w: nat)
    | ReadLatest(w: nat)
    | CheckNext(w: nat)
    | Claim(w: nat)
    | Validate(w: nat)
    | Commit(w: nat)
    | Abort(w: nat)

  /** The version row is inserted but not yet committed. */
  predicate Holds(x: Writer) { x.phase.Staged? || x.phase.Validated? }

  predicate Finished(x: Writer) { x.phase.Committed? || x.phase.Rejected? }

  ghost predicate Enabled(s: State, step: Step)
  {
    if step.Arrive? then step.w !in s.writers
    else
      step.w in s.writers &&
      var x := s.writers[step.w];
      match step
      case Prepare(_) => x.phase.Arrived?
      case Lock(_) => x.phase.Locking? && x.request.ClientUpdate?
      case ReadLatest(_) => x.phase.Ready?
      case CheckNext(_) => x.phase.Checking? && x.phase.passed < |x.plan.checks|
      case Claim(_) =>
        && x.phase.Checking? && x.phase.passed == |x.plan.checks|
        && forall v :: v in s.writers && Holds(s.writers[v]) ==> s.writers[v].phase.base != x.phase.base
      case Validate(_) => x.phase.Staged?
      case Commit(_) => x.phase.Validated?
      case Abort(_) => !Finished(x)
  }

  function Reject(x: Writer, e: Error): Writer { x.(phase := Rejected(e)) }

  /** Both aborts reach the client as a checksum mismatch, on which a client update starts its cycle again. */
  function RejectAborted(x: Writer, e: Error): Writer
  {
    if x.request.ClientUpdate? && x.tries + 1 < UPDATE_ATTEMPTS
    then x.(phase := Arrived, tries := x.tries + 1, conflicts := 0)
    else Reject(x, e)
  }

  function Planned(x: Writer, plan: Plan): Writer { x.(phase := Ready, plan := plan, conflicts := 0) }

  /** The reads before the transaction. */
  function Prepared(env: Env, log: seq<Version>, x: Writer): Writer
  {
    var latest := LatestVersion(log);
    match x.request
    case SetFields(us) =>
      if us == [] then Reject(x, Failed)
      else Planned(x, Plan(UpdateRows(env, us), ChecksOf(us), DistinctUpdates(us), None, latest))
    case RollbackToVersion(target) =>
      var rows := View(log, target);
      if rows == map[] then Reject(x, NotFound) else Planned(x, Plan(rows, [], true, None, latest))
    case ImportConfig(values, mode) =>
      var d := ImportDelta(Deltas(log), values, mode, env.checksum);
      if d.None? then Reject(x, AlreadyExists) else Planned(x, Plan(d.value, [], true, None, latest))
    case ClientUpdate(path, fn) => x.(phase := Locking(latest))
  }

  function Locked(env: Env, log: seq<Version>, x: Writer): Writer
    requires x.phase.Locking? && x.request.ClientUpdate?
  {
    var row := RowAt(log, x.phase.version, x.request.path);
    if row.None? then Reject(x, NotFound)
    else Planned(x, LockedPlan(env, x.request.path, x.request.fn, row.value, LatestVersion(log)))
  }

  predicate CheckPasses(log: seq<Version>, base: int, c: Check)
  {
    base == 0 || RowAt(log, base, c.path).None? || Deref(RowAt(log, base, c.path).value.checksum) == c.expected
  }

  function Checked(log: seq<Version>, x: Writer): Writer
    requires x.phase.Checking? && x.phase.passed < |x.plan.checks|
  {
    if CheckPasses(log, x.phase.base, x.plan.checks[x.phase.passed])
    then x.(phase := Checking(x.phase.base, x.phase.passed + 1))
    else RejectAborted(x, ChecksumMismatch)
  }

  /** Insert the version row: a unique violation is retried, and repeated paths fail the insert of the values. */
  function Claimed(log: seq<Version>, x: Writer): Writer
    requires x.phase.Checking?
  {
    if Exists(log, x.phase.base + 1) then
      if x.conflicts < CONFLICT_RETRIES then x.(phase := Ready, conflicts := x.conflicts + 1)
      else RejectAborted(x.(conflicts := x.conflicts + 1), VersionConflict)
    else if !x.plan.distinct then Reject(x, Failed)
    else x.(phase := Staged(x.phase.base))
  }

  function StagedVersion(x: Writer): Version
    requires Holds(x)
  {
    Version(x.phase.base + 1, x.plan, Some(x.request))
  }

  /** The rules are evaluated on what the transaction sees at its own version. */
  ghost function Ruled(env: Env, log: seq<Version>, x: Writer): Writer
    requires x.phase.Staged?
  {
    if Satisfied(env.rules, Present(View(log + [StagedVersion(x)], x.phase.base + 1)))
    then x.(phase := Validated(x.phase.base)) else Reject(x, RuleViolation)
  }

  ghost function Apply(env: Env, s: State, step: Step): State
    requires Enabled(s, step)
  {
    if step.Arrive? then
      s.(writers := s.writers[step.w := Writer(step.request, Arrived, Plan(map[], [], true, None, 0), 0, 0)])
    else
      var x := s.writers[step.w];
      var log := if step.Commit? then s.log + [StagedVersion(x)] else s.log;
      var y := match step
        case Prepare(_) => Prepared(env, s.log, x)
        case Lock(_) => Locked(env, s.log, x)
        case ReadLatest(_) => x.(phase := Checking(LatestVersion(s.log), 0))
        case CheckNext(_) => Checked(s.log, x)
        case Claim(_) => Claimed(s.log, x)
        case Validate(_) => Ruled(env, s.log, x)
        case Commit(_) => x.(phase := Committed(x.phase.base + 1))
        case Abort(_) => Reject(x, Failed);
      State(log, s.writers[step.w := y])
  }

  /** No writers, and at most the version seeded from schema defaults. */
  predicate Init(env: Env, s: State)
  {
    && s.writers == map[] && |s.log| <= 1
    && forall i :: 0 <= i < |s.log| ==>
         s.log[i].number == 1 && s.log[i].request.None? && WellFormed(env, s.log[i].plan.delta)
  }

  predicate RowWellFormed(env: Env, r: Row)
  {
    r.checksum == if r.value.Some? then Some(env.checksum(r.value.value)) else None
  }

  /** Stored checksums are the checksums of the stored values. */
  predicate WellFormed(env: Env, d: Delta)
  {
    forall p :: p in d ==> RowWellFormed(env, d[p])
  }

  /** `steps` leads from `s` to `t`. */
  ghost predicate Run(env: Env, s: State, steps: seq<Step>, t: State)
    decreases |steps|
  {
    if steps == [] then s == t
    else Enabled(s, steps[0]) && Run(env, Apply(env, s, steps[0]), steps[1..], t)
  }
}
