/** What rollback and import do to a tenant's history when they run one at a time. */
module Overlay {
  import opened ConfigHistory
  import opened Wrappers

  datatype ImportValue = ImportValue(path: string, value: string, description: Option<string>)

  datatype ImportMode = Merge | Replace | Defaults

  /** A parsed document is a map from field path to value. */
  predicate DistinctPaths(values: seq<ImportValue>)
  {
    forall i, j :: 0 <= i < j < |values| ==> values[i].path != values[j].path
  }

  function Current(h: seq<Delta>): Delta { Snapshot(h, |h|) }

  /** A field's value with null and absent both read as the empty string. */
  function Read(d: Delta, p: string): string { if p in d then Deref(d[p].value) else "" }

  function Commit(h: seq<Delta>, d: Option<Delta>): seq<Delta> { if d.Some? then h + [d.value] else h }

  // ---------------------------------------------------------------- rollback

  /** The delta a rollback writes; an empty target is refused. */
  function RollbackDelta(h: seq<Delta>, target: int): Option<Delta>
  {
    var rows := Resolve(h, target);
    if rows == map[] then None else Some(rows)
  }

  /** No field got its first row after version `target`. */
  ghost predicate NoFieldFirstWrittenAfter(h: seq<Delta>, target: nat)
    requires target <= |h|
  {
    forall n, p :: target <= n < |h| && p in h[n] ==> p in Snapshot(h, target)
  }

  /** A rollback overlays the target on the current configuration; fields added since then survive it. */
  lemma RollbackOverlays(h: seq<Delta>, target: int)
    requires RollbackDelta(h, target).Some?
    ensures Current(Commit(h, RollbackDelta(h, target))) == Current(h) + Resolve(h, target)
  {
    SnapshotOfAppend(h, Resolve(h, target));
  }

  /** It restores the target exactly when no field was first written after it. */
  lemma RollbackRestoresIff(h: seq<Delta>, target: nat)
    requires target <= |h| && RollbackDelta(h, target).Some?
    ensures Current(Commit(h, RollbackDelta(h, target))) == Snapshot(h, target) <==> NoFieldFirstWrittenAfter(h, target)
  {
    RollbackOverlays(h, target);
    DomainGrows(h, target, |h|);
    if NoFieldFirstWrittenAfter(h, target) {
      DomainStays(h, target, |h|);
    } else {
      var n, p :| target <= n < |h| && p in h[n] && p !in Snapshot(h, target);
      DomainGrows(h, n + 1, |h|);
      assert p in Snapshot(h, n + 1);
      assert p in Current(h) + Snapshot(h, target);
    }
  }

  lemma {:induction false} DomainStays(h: seq<Delta>, target: nat, v: nat)
    requires target <= v <= |h| && NoFieldFirstWrittenAfter(h, target)
    ensures Snapshot(h, v).Keys <= Snapshot(h, target).Keys
  {
    if target < v { DomainStays(h, target, v - 1); }
  }

  /** A field added after the target is still there after the rollback. */
  lemma RollbackKeepsLaterField(a: Row, b: Row)
    ensures var h := [map["x" := a], map["y" := b]];
            RollbackDelta(h, 1).Some? && Current(Commit(h, RollbackDelta(h, 1))) == map["x" := a, "y" := b]
  {
    var h := [map["x" := a], map["y" := b]];
    assert Snapshot(h, 0) == map[] && Snapshot(h, 1) == map["x" := a];
    assert "x" in Resolve(h, 1);
    assert Snapshot(h, 2) == map["x" := a, "y" := b];
    RollbackOverlays(h, 1);
  }

  // ---------------------------------------------------------------- import

  predicate Keeps(h: seq<Delta>, v: ImportValue, mode: ImportMode)
  {
    match mode
    case Replace => true
    case Defaults => |h| == 0 || v.path !in Current(h)
    case Merge => |h| == 0 || Read(Current(h), v.path) != v.value
  }

  function Filtered(h: seq<Delta>, values: seq<ImportValue>, mode: ImportMode): seq<ImportValue>
  {
    if values == [] then []
    else
      var n := |values| - 1;
      Filtered(h, values[..n], mode) + (if Keeps(h, values[n], mode) then [values[n]] else [])
  }

  /** The branches of the import filter, each with its own loop. */
  method FilterByImportMode(h: seq<Delta>, values: seq<ImportValue>, mode: ImportMode) returns (kept: seq<ImportValue>)
    ensures kept == Filtered(h, values, mode)
  {
    if mode == Replace || |h| == 0 {
      KeepsAll(h, values, mode);
      return values;
    }
    kept := [];
    if mode == Defaults {
      var existing := Current(h).Keys;
      for i := 0 to |values|
        invariant kept == Filtered(h, values[..i], mode)
      {
        assert values[..i + 1][..i] == values[..i];
        if values[i].path !in existing { kept := kept + [values[i]]; }
      }
    } else {
      for i := 0 to |values|
        invariant kept == Filtered(h, values[..i], mode)
      {
        assert values[..i + 1][..i] == values[..i];
        var current := Read(Current(h), values[i].path);
        if current != values[i].value { kept := kept + [values[i]]; }
      }
    }
    assert values[..|values|] == values;
  }

  lemma {:induction false} KeepsAll(h: seq<Delta>, values: seq<ImportValue>, mode: ImportMode)
    requires mode == Replace || |h| == 0
    ensures Filtered(h, values, mode) == values
  {
    if values != [] {
      KeepsAll(h, values[..|values| - 1], mode);
      assert values == values[..|values| - 1] + [values[|values| - 1]];
    }
  }

  function RowOf(v: ImportValue, checksum: string -> string): Row
  {
    Row(Some(v.value), Some(checksum(v.value)), v.description)
  }

  /** The rows an import writes. */
  function RowsFor(values: seq<ImportValue>, checksum: string -> string): Delta
  {
    if values == [] then map[]
    else
      var v := values[|values| - 1];
      RowsFor(values[..|values| - 1], checksum)[v.path := RowOf(v, checksum)]
  }

  /** Nothing left after filtering is answered with "no changes to apply". */
  function ImportDelta(
    h: seq<Delta>, values: seq<ImportValue>, mode: ImportMode, checksum: string -> string): Option<Delta>
  {
    var kept := Filtered(h, values, mode);
    if kept == [] then None else Some(RowsFor(kept, checksum))
  }

  function Import(h: seq<Delta>, values: seq<ImportValue>, mode: ImportMode, checksum: string -> string): seq<Delta>
  {
    Commit(h, ImportDelta(h, values, mode, checksum))
  }

  function Document(values: seq<ImportValue>, p: string): Option<ImportValue>
  {
    if values == [] then None
    else if values[|values| - 1].path == p then Some(values[|values| - 1])
    else Document(values[..|values| - 1], p)
  }

  /** The rows written, path by path: the document's entry when the filter keeps it. */
  lemma {:induction false} WrittenRows(
    h: seq<Delta>, values: seq<ImportValue>, mode: ImportMode, checksum: string -> string, p: string)
    requires DistinctPaths(values)
    ensures var doc := Document(values, p);
            Lookup(RowsFor(Filtered(h, values, mode), checksum), p) ==
              if doc.Some? && Keeps(h, doc.value, mode) then Some(RowOf(doc.value, checksum)) else None
  {
    if values != [] {
      var n := |values| - 1;
      var kept, v := Filtered(h, values[..n], mode), values[n];
      WrittenRows(h, values[..n], mode, checksum, p);
      if v.path == p { AbsentFromRest(values, n, p); }
      assert (kept + [v])[..|kept|] == kept && kept + [] == kept;
    }
  }

  lemma {:induction false} AbsentFromRest(values: seq<ImportValue>, n: nat, p: string)
    requires n <= |values| && forall i :: 0 <= i < n ==> values[i].path != p
    ensures Document(values[..n], p).None?
  {
    if n > 0 {
      assert values[..n][..n - 1] == values[..n - 1];
      AbsentFromRest(values, n - 1, p);
    }
  }

  /** The configuration after an import, path by path. */
  lemma AfterImport(h: seq<Delta>, values: seq<ImportValue>, mode: ImportMode, checksum: string -> string, p: string)
    requires DistinctPaths(values)
    ensures var doc := Document(values, p);
            Lookup(Current(Import(h, values, mode, checksum)), p) ==
              if doc.Some? && Keeps(h, doc.value, mode) then Some(RowOf(doc.value, checksum)) else Lookup(Current(h), p)
  {
    WrittenRows(h, values, mode, checksum, p);
    var d := ImportDelta(h, values, mode, checksum);
    if d.Some? { SnapshotOfAppend(h, d.value); }
  }

  /** MERGE and REPLACE resolve to the same values; they differ only in which rows they rewrite. */
  lemma MergeReadsLikeReplace(h: seq<Delta>, values: seq<ImportValue>, checksum: string -> string, p: string)
    requires DistinctPaths(values)
    ensures Read(Current(Import(h, values, Merge, checksum)), p)
            == Read(Current(Import(h, values, Replace, checksum)), p)
    ensures Document(values, p).Some? ==>
            Read(Current(Import(h, values, Merge, checksum)), p) == Document(values, p).value.value
  {
    AfterImport(h, values, Merge, checksum, p);
    AfterImport(h, values, Replace, checksum, p);
    DocumentPath(values, p);
  }

  lemma {:induction false} DocumentPath(values: seq<ImportValue>, p: string)
    ensures Document(values, p).Some? ==> Document(values, p).value.path == p && Document(values, p).value in values
  {
    if values != [] { DocumentPath(values[..|values| - 1], p); }
  }

  /** DEFAULTS leaves every existing row as it is and adds the document's rows for the other fields. */
  lemma DefaultsKeepsRows(h: seq<Delta>, values: seq<ImportValue>, checksum: string -> string, p: string)
    requires DistinctPaths(values)
    ensures p in Current(h) ==> Lookup(Current(Import(h, values, Defaults, checksum)), p) == Some(Current(h)[p])
    ensures p !in Current(h) && Document(values, p).Some? ==>
              Lookup(Current(Import(h, values, Defaults, checksum)), p)
                  == Some(RowOf(Document(values, p).value, checksum))
  {
    AfterImport(h, values, Defaults, checksum, p);
    DocumentPath(values, p);
  }

  lemma {:induction false} NothingKept(h: seq<Delta>, values: seq<ImportValue>, mode: ImportMode)
    requires forall i :: 0 <= i < |values| ==> !Keeps(h, values[i], mode)
    ensures Filtered(h, values, mode) == []
  {
    if values != [] { NothingKept(h, values[..|values| - 1], mode); }
  }

  lemma {:induction false} DocumentAt(values: seq<ImportValue>, i: nat)
    requires DistinctPaths(values) && i < |values|
    ensures Document(values, values[i].path) == Some(values[i])
  {
    var n := |values| - 1;
    if i < n { DocumentAt(values[..n], i); }
  }

  /** Importing the same document again with MERGE or DEFAULTS changes nothing and creates no version. */
  lemma RepeatedImportIsNoop(h: seq<Delta>, values: seq<ImportValue>, mode: ImportMode, checksum: string -> string)
    requires DistinctPaths(values) && mode != Replace
    ensures var after := Import(h, values, mode, checksum);
            ImportDelta(after, values, mode, checksum).None? && Import(after, values, mode, checksum) == after
  {
    var after := Import(h, values, mode, checksum);
    if after == [] {
      KeepsAll(h, values, mode);
    } else {
      forall i | 0 <= i < |values| ensures !Keeps(after, values[i], mode) {
        AfterImport(h, values, mode, checksum, values[i].path);
        DocumentAt(values, i);
      }
      NothingKept(after, values, mode);
    }
  }
}
