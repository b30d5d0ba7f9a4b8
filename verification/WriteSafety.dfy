/** What every interleaving of the write path keeps. */
module WriteSafety {
  import opened ConfigHistory
  import opened DependentRequired
  import opened Overlay
  import opened Wrappers
  import opened WriteProtocol

  // ---------------------------------------------------------------- the log as a history

  /** Version numbers are 1, 2, ... in commit order. */
  ghost predicate Contiguous(log: seq<Version>) { forall i :: 0 <= i < |log| ==> log[i].number == i + 1 }

  lemma {:induction false} LatestIsLength(log: seq<Version>)
    requires Contiguous(log)
    ensures LatestVersion(log) == |log|
  {
    if log != [] { LatestIsLength(log[..|log| - 1]); }
  }

  lemma DeltasOfPrefix(log: seq<Version>, n: nat)
    requires n <= |log|
    ensures Deltas(log[..n]) == Deltas(log)[..n]
  {}

  lemma DeltasOfAppend(log: seq<Version>, x: Version)
    ensures Deltas(log + [x]) == Deltas(log) + [x.plan.delta]
  {}

  lemma {:induction false} PickIsLastWriter(log: seq<Version>, v: int, p: string)
    requires Contiguous(log)
    ensures var n := LastWriter(Deltas(log), Clamp(v, |log|), p);
            Pick(log, v, p) == if n == 0 then None else Some(log[n - 1])
  {
    if log != [] {
      var m := |log| - 1;
      var shorter := log[..m];
      PickIsLastWriter(shorter, v, p);
      DeltasOfPrefix(log, m);
      LastWriterOfPrefix(Deltas(log), m, Clamp(v, m), p);
      assert log[m].number == m + 1 && Deltas(log)[m] == log[m].plan.delta;
      if v <= m {
        assert Pick(log, v, p) == Pick(shorter, v, p);
      } else {
        assert Clamp(v, |log|) == m + 1;
      }
    }
  }

  lemma {:induction false} LastWriterOfPrefix(h: seq<Delta>, m: nat, v: nat, p: string)
    requires v <= m <= |h|
    ensures LastWriter(h[..m], v, p) == LastWriter(h, v, p)
  {
    if v > 0 { LastWriterOfPrefix(h, m, v - 1, p); }
  }

  /** Reading rows by version number is reading the overlay of the committed deltas. */
  lemma RowAtIsSnapshot(log: seq<Version>, v: int, p: string)
    requires Contiguous(log)
    ensures RowAt(log, v, p) == Lookup(Resolve(Deltas(log), v), p)
  {
    PickIsLastWriter(log, v, p);
    SnapshotIsLastWrite(Deltas(log), Clamp(v, |log|), p);
  }

  lemma ViewIsSnapshot(log: seq<Version>, v: int)
    requires Contiguous(log)
    ensures View(log, v) == Resolve(Deltas(log), v)
  {
    var d := Resolve(Deltas(log), v);
    forall p ensures p in View(log, v) <==> p in d {
      RowAtIsSnapshot(log, v, p);
      PickIsLastWriter(log, v, p);
      if p in d { var n := LastWriter(Deltas(log), Clamp(v, |log|), p); assert p in log[n - 1].plan.delta; }
    }
    forall p | p in d ensures View(log, v)[p] == d[p] { RowAtIsSnapshot(log, v, p); }
  }

  // ---------------------------------------------------------------- the invariant

  /** A check against the snapshot at `base`. */
  predicate Passes(h: seq<Delta>, base: nat, c: Check)
    requires base <= |h|
  {
    base == 0 || c.path !in Snapshot(h, base) || Deref(Snapshot(h, base)[c.path].checksum) == c.expected
  }

  predicate FirstPass(h: seq<Delta>, base: nat, cs: seq<Check>, n: nat)
    requires base <= |h| && n <= |cs|
  {
    forall i :: 0 <= i < n ==> Passes(h, base, cs[i])
  }

  /** The plan writes what the request asks for, read off the history as it was when the plan was made. */
  predicate AsRequested(env: Env, h: seq<Delta>, r: Request, plan: Plan)
  {
    && 0 <= plan.started <= |h|
    && match r
       case SetFields(us) => plan.delta == UpdateRows(env, us) && plan.checks == ChecksOf(us)
           && plan.distinct == DistinctUpdates(us)
       case RollbackToVersion(target) => plan.delta == Resolve(h[..plan.started], target)
       case ImportConfig(values, mode) => Some(plan.delta) == ImportDelta(h[..plan.started], values, mode, env.checksum)
       case ClientUpdate(path, _) => true
  }

  /** The plan writes well-formed rows; a client update's plan is computed from a row that existed at version `base`. */
  predicate PlanOk(env: Env, h: seq<Delta>, base: nat, r: Request, plan: Plan)
    requires base <= |h|
  {
    && WellFormed(env, plan.delta) && AsRequested(env, h, r, plan) && plan.started <= base
    && (r.ClientUpdate? ==>
          && plan.locked.Some? && RowWellFormed(env, plan.locked.value)
          && plan == LockedPlan(env, r.path, r.fn, plan.locked.value, plan.started)
          && base > 0 && r.path in Snapshot(h, base))
  }

  ghost predicate RulesHold(env: Env, h: seq<Delta>, v: nat)
    requires v <= |h|
  {
    Satisfied(env.rules, Present(Snapshot(h, v)))
  }

  ghost predicate WriterOk(env: Env, h: seq<Delta>, x: Writer)
  {
    match x.phase
    case Arrived => true
    case Locking(v) => 0 <= v <= |h|
    case Ready => x.plan.started + x.conflicts <= |h| && PlanOk(env, h, |h|, x.request, x.plan)
    case Checking(b, n) =>
      && 0 <= b <= |h| && x.plan.started + x.conflicts <= b && PlanOk(env, h, b, x.request, x.plan)
      && n <= |x.plan.checks| && FirstPass(h, b, x.plan.checks, n)
    case Staged(b) =>
      && b == |h| && PlanOk(env, h, b, x.request, x.plan) && FirstPass(h, b, x.plan.checks, |x.plan.checks|)
      && x.plan.distinct
    case Validated(b) =>
      && b == |h| && PlanOk(env, h, b, x.request, x.plan) && FirstPass(h, b, x.plan.checks, |x.plan.checks|)
      && x.plan.distinct && RulesHold(env, h + [x.plan.delta], b + 1)
    case Committed(v) => 1 <= v <= |h|
    case Rejected(e) => e == VersionConflict ==> x.plan.started + CONFLICT_RETRIES + 1 <= |h|
  }

  ghost predicate VersionOk(env: Env, h: seq<Delta>, i: nat, c: Version)
    requires i < |h|
  {
    && c.number == i + 1 && c.plan.delta == h[i] && WellFormed(env, c.plan.delta)
    && (c.request.Some? ==>
          && PlanOk(env, h, i, c.request.value, c.plan) && c.plan.distinct
          && FirstPass(h, i, c.plan.checks, |c.plan.checks|)
          && RulesHold(env, h, i + 1))
  }

  ghost predicate LogOk(env: Env, log: seq<Version>)
  {
    forall i :: 0 <= i < |log| ==> VersionOk(env, Deltas(log), i, log[i])
  }

  ghost predicate WritersOk(env: Env, h: seq<Delta>, ws: map<nat, Writer>)
  {
    forall w :: w in ws ==> WriterOk(env, h, ws[w])
  }

  /** At most one writer has an uncommitted version row. */
  ghost predicate OneHolder(ws: map<nat, Writer>)
  {
    forall v, w :: v in ws && w in ws && Holds(ws[v]) && Holds(ws[w]) ==> v == w
  }

  ghost predicate Inv(env: Env, s: State)
  {
    LogOk(env, s.log) && WritersOk(env, Deltas(s.log), s.writers) && OneHolder(s.writers)
  }

  lemma LogIsContiguous(env: Env, log: seq<Version>)
    requires LogOk(env, log)
    ensures Contiguous(log)
  {
    forall i | 0 <= i < |log| ensures log[i].number == i + 1 { assert VersionOk(env, Deltas(log), i, log[i]); }
  }

  // ---------------------------------------------------------------- stability under a commit

  lemma PlanOkStable(env: Env, h: seq<Delta>, d: Delta, base: nat, top: nat, r: Request, plan: Plan)
    requires base <= |h| && base <= top <= |h| + 1 && PlanOk(env, h, base, r, plan)
    ensures PlanOk(env, h + [d], top, r, plan)
  {
    SnapshotStable(h, [d], base);
    DomainGrows(h + [d], base, top);
    assert (h + [d])[..plan.started] == h[..plan.started];
  }

  lemma FirstPassStable(h: seq<Delta>, d: Delta, base: nat, cs: seq<Check>, n: nat)
    requires base <= |h| && n <= |cs| && FirstPass(h, base, cs, n)
    ensures FirstPass(h + [d], base, cs, n)
  {
    SnapshotStable(h, [d], base);
  }

  lemma WriterOkStable(env: Env, h: seq<Delta>, d: Delta, x: Writer)
    requires WriterOk(env, h, x) && !Holds(x)
    ensures WriterOk(env, h + [d], x)
  {
    match x.phase {
      case Ready => PlanOkStable(env, h, d, |h|, |h| + 1, x.request, x.plan);
      case Checking(b, n) =>
        PlanOkStable(env, h, d, b, b, x.request, x.plan);
        FirstPassStable(h, d, b, x.plan.checks, n);
      case _ =>
    }
  }

  lemma VersionOkStable(env: Env, h: seq<Delta>, d: Delta, i: nat, c: Version)
    requires i < |h| && VersionOk(env, h, i, c)
    ensures VersionOk(env, h + [d], i, c)
  {
    if c.request.Some? {
      PlanOkStable(env, h, d, i, i, c.request.value, c.plan);
      FirstPassStable(h, d, i, c.plan.checks, |c.plan.checks|);
      SnapshotStable(h, [d], i + 1);
    }
  }

  // ---------------------------------------------------------------- well-formed rows

  lemma {:induction false} SnapshotWellFormed(env: Env, log: seq<Version>, v: nat)
    requires LogOk(env, log) && v <= |log|
    ensures WellFormed(env, Snapshot(Deltas(log), v))
  {
    if v > 0 {
      SnapshotWellFormed(env, log, v - 1);
      assert VersionOk(env, Deltas(log), v - 1, log[v - 1]);
    }
  }

  lemma {:induction false} UpdateRowsWellFormed(env: Env, us: seq<Update>)
    ensures WellFormed(env, UpdateRows(env, us))
  {
    if us != [] { UpdateRowsWellFormed(env, us[..|us| - 1]); }
  }

  lemma {:induction false} ImportRowsWellFormed(env: Env, values: seq<ImportValue>)
    ensures WellFormed(env, RowsFor(values, env.checksum))
  {
    if values != [] { ImportRowsWellFormed(env, values[..|values| - 1]); }
  }

  // ---------------------------------------------------------------- each step keeps the invariant

  lemma PreparedOk(env: Env, log: seq<Version>, x: Writer)
    requires LogOk(env, log) && WriterOk(env, Deltas(log), x)
    ensures WriterOk(env, Deltas(log), Prepared(env, log, x)) && !Holds(Prepared(env, log, x))
  {
    LogIsContiguous(env, log);
    LatestIsLength(log);
    assert Deltas(log)[..|log|] == Deltas(log);
    match x.request {
      case SetFields(us) => UpdateRowsWellFormed(env, us);
      case RollbackToVersion(target) =>
        ViewIsSnapshot(log, target);
        SnapshotWellFormed(env, log, Clamp(target, |log|));
      case ImportConfig(values, mode) => ImportRowsWellFormed(env, Filtered(Deltas(log), values, mode));
      case ClientUpdate(_, _) =>
    }
  }

  lemma LockedOk(env: Env, log: seq<Version>, x: Writer)
    requires LogOk(env, log) && WriterOk(env, Deltas(log), x) && x.phase.Locking? && x.request.ClientUpdate?
    ensures WriterOk(env, Deltas(log), Locked(env, log, x)) && !Holds(Locked(env, log, x))
  {
    var v, p, h := x.phase.version, x.request.path, Deltas(log);
    LogIsContiguous(env, log);
    LatestIsLength(log);
    RowAtIsSnapshot(log, v, p);
    SnapshotWellFormed(env, log, v);
    DomainGrows(h, v, |h|);
    if p in Snapshot(h, v) { assert v > 0 && RowWellFormed(env, Snapshot(h, v)[p]); }
  }

  lemma CheckedOk(env: Env, log: seq<Version>, x: Writer)
    requires LogOk(env, log) && WriterOk(env, Deltas(log), x)
    requires x.phase.Checking? && x.phase.passed < |x.plan.checks|
    ensures WriterOk(env, Deltas(log), Checked(log, x)) && !Holds(Checked(log, x))
  {
    LogIsContiguous(env, log);
    RowAtIsSnapshot(log, x.phase.base, x.plan.checks[x.phase.passed].path);
  }

  /** A claim that meets a committed version lost to it; one that meets none extends the log. */
  lemma ClaimedOk(env: Env, log: seq<Version>, x: Writer)
    requires LogOk(env, log) && WriterOk(env, Deltas(log), x)
    requires x.phase.Checking? && x.phase.passed == |x.plan.checks|
    ensures WriterOk(env, Deltas(log), Claimed(log, x))
    ensures Holds(Claimed(log, x)) ==> Claimed(log, x).phase == Staged(|log|) && x.phase.base == |log|
  {
    LogIsContiguous(env, log);
    var b, h := x.phase.base, Deltas(log);
    assert Exists(log, b + 1) <==> b < |log| by { if b < |log| { assert log[b].number == b + 1; } }
    if b < |log| { DomainGrows(h, b, |h|); }
  }

  lemma RuledOk(env: Env, log: seq<Version>, x: Writer)
    requires LogOk(env, log) && WriterOk(env, Deltas(log), x) && x.phase.Staged?
    ensures WriterOk(env, Deltas(log), Ruled(env, log, x))
  {
    LogIsContiguous(env, log);
    var c := StagedVersion(x);
    assert Contiguous(log + [c]);
    ViewIsSnapshot(log + [c], |log| + 1);
    DeltasOfAppend(log, c);
  }

  /** Only writer `w` changed, and it did not become a second holder. */
  lemma WriterStep(env: Env, s: State, w: nat, y: Writer)
    requires Inv(env, s) && WriterOk(env, Deltas(s.log), y)
    requires Holds(y) ==> forall v :: v in s.writers && Holds(s.writers[v]) ==> v == w
    ensures Inv(env, s.(writers := s.writers[w := y]))
  {}

  lemma CommitStep(env: Env, s: State, w: nat)
    requires Inv(env, s) && Enabled(s, Commit(w))
    ensures Inv(env, Apply(env, s, Commit(w)))
  {
    var x := s.writers[w];
    var c := StagedVersion(x);
    var h, d := Deltas(s.log), x.plan.delta;
    var t := Apply(env, s, Commit(w));
    DeltasOfAppend(s.log, c);
    assert WriterOk(env, h, x);
    forall i | 0 <= i < |t.log| ensures VersionOk(env, Deltas(t.log), i, t.log[i]) {
      if i < |s.log| {
        VersionOkStable(env, h, d, i, s.log[i]);
      } else {
        PlanOkStable(env, h, d, |h|, |h|, x.request, x.plan);
        FirstPassStable(h, d, |h|, x.plan.checks, |x.plan.checks|);
      }
    }
    forall v | v in t.writers ensures WriterOk(env, Deltas(t.log), t.writers[v]) {
      if v != w { WriterOkStable(env, h, d, s.writers[v]); }
    }
  }

  lemma StepKeepsInv(env: Env, s: State, step: Step)
    requires Inv(env, s) && Enabled(s, step)
    ensures Inv(env, Apply(env, s, step))
  {
    if step.Arrive? {
      WriterStep(env, s, step.w, Writer(step.request, Arrived, Plan(map[], [], true, None, 0), 0, 0));
    } else if step.Commit? {
      CommitStep(env, s, step.w);
    } else {
      var w, x := step.w, s.writers[step.w];
      assert WriterOk(env, Deltas(s.log), x);
      LogIsContiguous(env, s.log);
      LatestIsLength(s.log);
      match step {
        case Prepare(_) => PreparedOk(env, s.log, x); WriterStep(env, s, w, Prepared(env, s.log, x));
        case Lock(_) => LockedOk(env, s.log, x); WriterStep(env, s, w, Locked(env, s.log, x));
        case ReadLatest(_) => WriterStep(env, s, w, x.(phase := Checking(|s.log|, 0)));
        case CheckNext(_) => CheckedOk(env, s.log, x); WriterStep(env, s, w, Checked(s.log, x));
        case Claim(_) =>
          ClaimedOk(env, s.log, x);
          forall v | v in s.writers && Holds(s.writers[v]) ensures s.writers[v].phase.base == |s.log| {
            assert WriterOk(env, Deltas(s.log), s.writers[v]);
          }
          WriterStep(env, s, w, Claimed(s.log, x));
        case Validate(_) => RuledOk(env, s.log, x); WriterStep(env, s, w, Ruled(env, s.log, x));
        case Abort(_) => WriterStep(env, s, w, Reject(x, Failed));
      }
    }
  }

  lemma InitOk(env: Env, s: State)
    requires Init(env, s)
    ensures Inv(env, s)
  {}

  lemma {:induction false} RunKeepsInv(env: Env, s: State, steps: seq<Step>, t: State)
    requires Inv(env, s) && Run(env, s, steps, t)
    ensures Inv(env, t)
    decreases |steps|
  {
    if steps != [] {
      StepKeepsInv(env, s, steps[0]);
      RunKeepsInv(env, Apply(env, s, steps[0]), steps[1..], t);
    }
  }

  // ---------------------------------------------------------------- theorems about every run

  /** However the writers interleave, the committed versions are 1, 2, ..., n: no gap and no duplicate. */
  lemma VersionsAreContiguous(env: Env, s: State, steps: seq<Step>, t: State)
    requires Init(env, s) && Run(env, s, steps, t)
    ensures forall i :: 0 <= i < |t.log| ==> t.log[i].number == i + 1
    ensures LatestVersion(t.log) == |t.log|
  {
    InitOk(env, s);
    RunKeepsInv(env, s, steps, t);
    LogIsContiguous(env, t.log);
    LatestIsLength(t.log);
  }

  /** A version written with expected checksums was committed directly on top of a state that matched all of them. */
  lemma ChecksumsHeldAtCommit(env: Env, s: State, steps: seq<Step>, t: State, i: nat, c: Check)
    requires Init(env, s) && Run(env, s, steps, t)
    requires i < |t.log| && t.log[i].request.Some? && c in t.log[i].plan.checks
    ensures var row := RowAt(t.log, t.log[i].number - 1, c.path);
            row.None? || Deref(row.value.checksum) == c.expected
  {
    InitOk(env, s);
    RunKeepsInv(env, s, steps, t);
    LogIsContiguous(env, t.log);
    assert VersionOk(env, Deltas(t.log), i, t.log[i]);
    RowAtIsSnapshot(t.log, i, c.path);
    var k :| 0 <= k < |t.log[i].plan.checks| && t.log[i].plan.checks[k] == c;
    assert Passes(Deltas(t.log), i, t.log[i].plan.checks[k]);
  }

  ghost predicate SoundChecksum(checksum: string -> string)
  {
    && (forall a, b {:trigger checksum(a), checksum(b)} :: checksum(a) == checksum(b) ==> a == b)
    && (forall a :: checksum(a) != "")
  }

  lemma ChecksumFixesValue(env: Env, r: Row, q: Row)
    requires SoundChecksum(env.checksum) && RowWellFormed(env, r) && RowWellFormed(env, q)
    requires Deref(r.checksum) == Deref(q.checksum)
    ensures Deref(r.value) == Deref(q.value)
  {}

  /** No lost update: each committed client update applied its function to the value of the version just before it. */
  lemma UpdatesAreAtomic(env: Env, s: State, steps: seq<Step>, t: State, i: nat)
    requires SoundChecksum(env.checksum) && Init(env, s) && Run(env, s, steps, t)
    requires i < |t.log| && t.log[i].request.Some? && t.log[i].request.value.ClientUpdate?
    ensures var r, n := t.log[i].request.value, t.log[i].number;
            && RowAt(t.log, n - 1, r.path).Some?
            && RowAt(t.log, n, r.path).Some?
            && RowAt(t.log, n, r.path).value.value == Some(r.fn(Deref(RowAt(t.log, n - 1, r.path).value.value)))
  {
    InitOk(env, s);
    RunKeepsInv(env, s, steps, t);
    LogIsContiguous(env, t.log);
    var h, c := Deltas(t.log), t.log[i];
    assert VersionOk(env, h, i, c);
    var r, path := c.request.value, c.request.value.path;
    RowAtIsSnapshot(t.log, i, path);
    RowAtIsSnapshot(t.log, i + 1, path);
    SnapshotWellFormed(env, t.log, i);
    var before := Snapshot(h, i)[path];
    assert Passes(h, i, c.plan.checks[0]);
    ChecksumFixesValue(env, before, c.plan.locked.value);
  }

  /** Every version written by an RPC reads back as a configuration that satisfies all rules. */
  lemma RulesHoldInEveryVersion(env: Env, s: State, steps: seq<Step>, t: State, i: nat)
    requires Init(env, s) && Run(env, s, steps, t)
    requires i < |t.log| && t.log[i].request.Some?
    ensures Satisfied(env.rules, Present(View(t.log, t.log[i].number)))
  {
    InitOk(env, s);
    RunKeepsInv(env, s, steps, t);
    LogIsContiguous(env, t.log);
    assert VersionOk(env, Deltas(t.log), i, t.log[i]);
    ViewIsSnapshot(t.log, i + 1);
  }

  /** Losing is progress: a writer gives up on conflicts only after four other versions were committed under it. */
  lemma ConflictsMeanProgress(env: Env, s: State, steps: seq<Step>, t: State, w: nat)
    requires Init(env, s) && Run(env, s, steps, t)
    requires w in t.writers && t.writers[w].phase == Rejected(VersionConflict)
    ensures |t.log| >= t.writers[w].plan.started + 4
  {
    InitOk(env, s);
    RunKeepsInv(env, s, steps, t);
    assert WriterOk(env, Deltas(t.log), t.writers[w]);
  }

  /** Committed versions are never altered: a longer run only appends. */
  lemma {:induction false} LogOnlyGrows(env: Env, s: State, steps: seq<Step>, t: State)
    requires Run(env, s, steps, t)
    ensures |s.log| <= |t.log| && t.log[..|s.log|] == s.log
    decreases |steps|
  {
    if steps != [] {
      var m := Apply(env, s, steps[0]);
      LogOnlyGrows(env, m, steps[1..], t);
      assert m.log[..|s.log|] == s.log;
      assert t.log[..|m.log|][..|s.log|] == t.log[..|s.log|];
    }
  }

  // ---------------------------------------------------------------- what a committed version did

  /** A version's rows are its own where it wrote, and otherwise those of the version before it. */
  lemma RowsOfVersion(env: Env, s: State, steps: seq<Step>, t: State, i: nat, p: string)
    requires Init(env, s) && Run(env, s, steps, t) && i < |t.log|
    ensures t.log[i].number == i + 1
    ensures RowAt(t.log, i + 1, p)
            == if p in t.log[i].plan.delta then Some(t.log[i].plan.delta[p]) else RowAt(t.log, i, p)
    ensures t.log[i].request.Some? ==> VersionOk(env, Deltas(t.log), i, t.log[i])
  {
    InitOk(env, s);
    RunKeepsInv(env, s, steps, t);
    LogIsContiguous(env, t.log);
    assert VersionOk(env, Deltas(t.log), i, t.log[i]);
    RowAtIsSnapshot(t.log, i, p);
    RowAtIsSnapshot(t.log, i + 1, p);
  }

  lemma {:induction false} UpdateRowsAt(env: Env, us: seq<Update>, k: nat)
    requires DistinctUpdates(us) && k < |us|
    ensures Lookup(UpdateRows(env, us), us[k].path) == Some(NewRow(env, us[k].value, us[k].description))
  {
    var n := |us| - 1;
    if k < n { UpdateRowsAt(env, us[..n], k); }
  }

  lemma {:induction false} UpdateRowsElsewhere(env: Env, us: seq<Update>, p: string)
    requires forall k :: 0 <= k < |us| ==> us[k].path != p
    ensures p !in UpdateRows(env, us)
  {
    if us != [] { UpdateRowsElsewhere(env, us[..|us| - 1], p); }
  }

  lemma {:induction false} ChecksListed(us: seq<Update>, k: nat)
    requires k < |us| && us[k].expected.Some?
    ensures Check(us[k].path, us[k].expected.value) in ChecksOf(us)
  {
    var n := |us| - 1;
    if k < n { ChecksListed(us[..n], k); }
  }

  /** Every checksum a committed SetField or SetFields expected was the stored one in the version before it. */
  lemma ExpectedChecksumsHeld(env: Env, s: State, steps: seq<Step>, t: State, i: nat, k: nat)
    requires Init(env, s) && Run(env, s, steps, t)
    requires i < |t.log| && t.log[i].request.Some? && t.log[i].request.value.SetFields?
    requires k < |t.log[i].request.value.updates| && t.log[i].request.value.updates[k].expected.Some?
    ensures var u := t.log[i].request.value.updates[k];
            RowAt(t.log, i, u.path).None? || Deref(RowAt(t.log, i, u.path).value.checksum) == u.expected.value
  {
    var u := t.log[i].request.value.updates[k];
    RowsOfVersion(env, s, steps, t, i, u.path);
    ChecksListed(t.log[i].request.value.updates, k);
    ChecksumsHeldAtCommit(env, s, steps, t, i, Check(u.path, u.expected.value));
  }

  /** A committed SetField or SetFields set exactly the fields it names. */
  lemma CommittedUpdate(env: Env, s: State, steps: seq<Step>, t: State, i: nat)
    requires Init(env, s) && Run(env, s, steps, t)
    requires i < |t.log| && t.log[i].request.Some? && t.log[i].request.value.SetFields?
    ensures var us := t.log[i].request.value.updates;
            && DistinctUpdates(us)
            && (forall k :: 0 <= k < |us| ==>
                  RowAt(t.log, i + 1, us[k].path) == Some(NewRow(env, us[k].value, us[k].description)))
            && (forall p :: (forall k :: 0 <= k < |us| ==> us[k].path != p) ==>
                  RowAt(t.log, i + 1, p) == RowAt(t.log, i, p))
  {
    var us := t.log[i].request.value.updates;
    RowsOfVersion(env, s, steps, t, i, "");
    forall k | 0 <= k < |us|
      ensures RowAt(t.log, i + 1, us[k].path) == Some(NewRow(env, us[k].value, us[k].description))
    {
      RowsOfVersion(env, s, steps, t, i, us[k].path);
      UpdateRowsAt(env, us, k);
    }
    forall p | forall k :: 0 <= k < |us| ==> us[k].path != p ensures RowAt(t.log, i + 1, p) == RowAt(t.log, i, p) {
      RowsOfVersion(env, s, steps, t, i, p);
      UpdateRowsElsewhere(env, us, p);
    }
  }

  /** A committed rollback restored the target's rows and kept every other field of the version before it. */
  lemma CommittedRollback(env: Env, s: State, steps: seq<Step>, t: State, i: nat, p: string)
    requires Init(env, s) && Run(env, s, steps, t)
    requires i < |t.log| && t.log[i].request.Some? && t.log[i].request.value.RollbackToVersion?
    ensures var target, started := t.log[i].request.value.target, t.log[i].plan.started;
            var row := RowAt(t.log, if target <= started then target else started, p);
            started <= i && RowAt(t.log, i + 1, p) == if row.Some? then row else RowAt(t.log, i, p)
  {
    var target, started, h := t.log[i].request.value.target, t.log[i].plan.started, Deltas(t.log);
    var v := if target <= started then target else started;
    RowsOfVersion(env, s, steps, t, i, p);
    InitOk(env, s);
    RunKeepsInv(env, s, steps, t);
    LogIsContiguous(env, t.log);
    RowAtIsSnapshot(t.log, v, p);
    SnapshotStable(h[..started], h[started..], Clamp(target, started));
    assert h[..started] + h[started..] == h;
  }

  /** A committed import wrote rows of its document only, and kept every other field of the version before it. */
  lemma CommittedImport(env: Env, s: State, steps: seq<Step>, t: State, i: nat, p: string)
    requires Init(env, s) && Run(env, s, steps, t)
    requires i < |t.log| && t.log[i].request.Some? && t.log[i].request.value.ImportConfig?
    requires DistinctPaths(t.log[i].request.value.values)
    ensures var r, started := t.log[i].request.value, t.log[i].plan.started;
            var doc := Document(r.values, p);
            && 0 <= started <= i
            && RowAt(t.log, i + 1, p) ==
                 if doc.Some? && Keeps(Deltas(t.log)[..started], doc.value, r.mode)
                 then Some(RowOf(doc.value, env.checksum)) else RowAt(t.log, i, p)
  {
    var r, started := t.log[i].request.value, t.log[i].plan.started;
    RowsOfVersion(env, s, steps, t, i, p);
    WrittenRows(Deltas(t.log)[..started], r.values, r.mode, env.checksum, p);
  }

  // ---------------------------------------------------------------- writes do get through

  /** What a ready writer is about to commit. */
  function Intended(s: State, w: nat): Version
    requires w in s.writers
  {
    Version(|s.log| + 1, s.writers[w].plan, Some(s.writers[w].request))
  }

  /** The request can succeed as things stand: its checks and the rules hold on the latest version. */
  ghost predicate Acceptable(env: Env, s: State, w: nat)
    requires w in s.writers
  {
    && s.writers[w].plan.distinct
    && (forall i :: 0 <= i < |s.writers[w].plan.checks| ==> CheckPasses(s.log, |s.log|, s.writers[w].plan.checks[i]))
    && Satisfied(env.rules, Present(View(s.log + [Intended(s, w)], |s.log| + 1)))
  }

  ghost predicate NobodyHolds(s: State) { forall v :: v in s.writers ==> !Holds(s.writers[v]) }

  function Moved(s: State, w: nat, phase: Phase): State
    requires w in s.writers
  {
    s.(writers := s.writers[w := s.writers[w].(phase := phase)])
  }

  lemma FinishClaimed(env: Env, s: State, w: nat) returns (steps: seq<Step>, t: State)
    requires w in s.writers && Contiguous(s.log) && Acceptable(env, s, w) && NobodyHolds(s)
    requires s.writers[w].phase == Checking(|s.log|, |s.writers[w].plan.checks|)
    ensures Run(env, s, steps, t) && t.log == s.log + [Intended(s, w)] && w in t.writers
            && t.writers[w].phase == Committed(|s.log| + 1)
  {
    var staged, valid := Moved(s, w, Staged(|s.log|)), Moved(s, w, Validated(|s.log|));
    assert Apply(env, s, Claim(w)) == staged;
    assert Apply(env, staged, Validate(w)) == valid;
    t := Apply(env, valid, Commit(w));
    steps := [Claim(w), Validate(w), Commit(w)];
    assert steps[1..] == [Validate(w), Commit(w)] && steps[1..][1..] == [Commit(w)] && steps[1..][1..][1..] == [];
    assert Run(env, t, [], t);
    assert Run(env, valid, [Commit(w)], t);
    assert Run(env, staged, steps[1..], t);
  }

  lemma {:induction false} FinishChecking(env: Env, s: State, w: nat, passed: nat) returns (steps: seq<Step>, t: State)
    requires w in s.writers && Contiguous(s.log) && Acceptable(env, s, w) && NobodyHolds(s)
    requires passed <= |s.writers[w].plan.checks| && s.writers[w].phase == Checking(|s.log|, passed)
    ensures Run(env, s, steps, t) && t.log == s.log + [Intended(s, w)] && w in t.writers
            && t.writers[w].phase == Committed(|s.log| + 1)
    decreases |s.writers[w].plan.checks| - passed
  {
    if passed == |s.writers[w].plan.checks| {
      steps, t := FinishClaimed(env, s, w);
    } else {
      var m := Moved(s, w, Checking(|s.log|, passed + 1));
      assert Apply(env, s, CheckNext(w)) == m;
      var rest;
      rest, t := FinishChecking(env, m, w, passed + 1);
      steps := [CheckNext(w)] + rest;
      assert steps[1..] == rest;
    }
  }

  /** While nobody else holds the next version, an acceptable write commits it, with exactly its planned rows. */
  lemma UncontestedWriteCommits(env: Env, s: State, w: nat) returns (steps: seq<Step>, t: State)
    requires w in s.writers && Contiguous(s.log) && Acceptable(env, s, w) && NobodyHolds(s)
            && s.writers[w].phase == Ready
    ensures Run(env, s, steps, t) && t.log == s.log + [Intended(s, w)] && w in t.writers
            && t.writers[w].phase == Committed(|s.log| + 1)
  {
    LatestIsLength(s.log);
    var m := Moved(s, w, Checking(|s.log|, 0));
    assert Apply(env, s, ReadLatest(w)) == m;
    var rest;
    rest, t := FinishChecking(env, m, w, 0);
    steps := [ReadLatest(w)] + rest;
    assert steps[1..] == rest;
  }
}
