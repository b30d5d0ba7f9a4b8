/** The field-level difference of two configurations, as a patch. */
module ConfigDiff {
  import opened ConfigHistory
  import opened Sorting
  import opened Text
  import opened Wrappers

  datatype ChangeType = Added | Removed | Modified

  datatype FieldDiff = FieldDiff(path: string, change: ChangeType, oldValue: string, newValue: string)

  type Config = map<string, string>

  /** The change of one field, if it changed; absent sides show as the empty string. */
  function ChangeOf(before: Config, after: Config, p: string): Option<FieldDiff>
  {
    if p in before && p !in after then Some(FieldDiff(p, Removed, before[p], ""))
    else if p !in before && p in after then Some(FieldDiff(p, Added, "", after[p]))
    else if p in before && p in after && before[p] != after[p] then Some(FieldDiff(p, Modified, before[p], after[p]))
    else None
  }

  function Paths(ds: seq<FieldDiff>): seq<string> { seq(|ds|, i requires 0 <= i < |ds| => ds[i].path) }

  /** Sorted by path, and listing exactly the changes. */
  ghost predicate IsDiff(before: Config, after: Config, ds: seq<FieldDiff>)
  {
    && StrictlySorted(Paths(ds))
    && (forall i :: 0 <= i < |ds| ==> ChangeOf(before, after, ds[i].path) == Some(ds[i]))
    && (forall p :: ChangeOf(before, after, p).Some? ==> ChangeOf(before, after, p).value in ds)
  }

  /** The changes of the given paths, in their order. */
  function Changes(before: Config, after: Config, ps: seq<string>): seq<FieldDiff>
  {
    if ps == [] then []
    else
      var n := |ps| - 1;
      var c := ChangeOf(before, after, ps[n]);
      Changes(before, after, ps[..n]) + (if c.Some? then [c.value] else [])
  }

  method DiffConfigMaps(before: Config, after: Config) returns (diffs: seq<FieldDiff>)
    ensures IsDiff(before, after, diffs)
  {
    var sorted := SortedKeys(before.Keys + after.Keys);
    diffs := [];
    for i := 0 to |sorted|
      invariant diffs == Changes(before, after, sorted[..i])
    {
      var p := sorted[i];
      assert p in sorted && sorted[..i + 1][..i] == sorted[..i];
      if p in before && p !in after {
        diffs := diffs + [FieldDiff(p, Removed, before[p], "")];
      } else if p !in before && p in after {
        diffs := diffs + [FieldDiff(p, Added, "", after[p])];
      } else if before[p] != after[p] {
        diffs := diffs + [FieldDiff(p, Modified, before[p], after[p])];
      }
    }
    assert sorted[..|sorted|] == sorted;
    ChangesListed(before, after, sorted);
    forall p | ChangeOf(before, after, p).Some? ensures ChangeOf(before, after, p).value in diffs {
      assert p in sorted;
    }
  }

  lemma {:induction false} ChangesListed(before: Config, after: Config, ps: seq<string>)
    requires StrictlySorted(ps)
    ensures var ds := Changes(before, after, ps);
            && StrictlySorted(Paths(ds))
            && (forall i :: 0 <= i < |ds| ==> ds[i].path in ps && ChangeOf(before, after, ds[i].path) == Some(ds[i]))
            && (forall p :: p in ps && ChangeOf(before, after, p).Some? ==> ChangeOf(before, after, p).value in ds)
  {
    if ps != [] {
      var n := |ps| - 1;
      var shorter, ds := Changes(before, after, ps[..n]), Changes(before, after, ps);
      ChangesListed(before, after, ps[..n]);
      assert forall i :: 0 <= i < |shorter| ==> Less(shorter[i].path, ps[n]);
      assert forall i :: 0 <= i < |shorter| ==> Paths(ds)[i] == Paths(shorter)[i];
      forall p | p in ps && ChangeOf(before, after, p).Some? ensures ChangeOf(before, after, p).value in ds {
        if p == ps[n] { assert ds[|shorter|] == ChangeOf(before, after, p).value; } else { assert p in ps[..n]; }
      }
    }
  }

  // ---------------------------------------------------------------- patches

  function ApplyOne(m: Config, d: FieldDiff): Config
  {
    if d.change.Removed? then m - {d.path} else m[d.path := d.newValue]
  }

  function Apply(m: Config, ds: seq<FieldDiff>): Config
    decreases |ds|
  {
    if ds == [] then m else Apply(ApplyOne(m, ds[0]), ds[1..])
  }

  /** The value of `p` after the patch is set by its last mention, and is unchanged without one. */
  lemma {:induction false} UntouchedStays(m: Config, ds: seq<FieldDiff>, p: string)
    requires p !in Paths(ds)
    ensures Lookup(Apply(m, ds), p) == Lookup(m, p)
    decreases |ds|
  {
    if ds != [] {
      assert Paths(ds)[0] == ds[0].path;
      assert Paths(ds)[1..] == Paths(ds[1..]);
      UntouchedStays(ApplyOne(m, ds[0]), ds[1..], p);
    }
  }

  lemma {:induction false} PatchSets(m: Config, ds: seq<FieldDiff>, i: nat)
    requires StrictlySorted(Paths(ds)) && i < |ds|
    ensures Lookup(Apply(m, ds), ds[i].path) == Lookup(ApplyOne(m, ds[i]), ds[i].path)
    decreases |ds|
  {
    assert Paths(ds)[1..] == Paths(ds[1..]);
    if i == 0 {
      forall k | 0 <= k < |ds[1..]| ensures Paths(ds[1..])[k] != ds[0].path {
        assert Less(Paths(ds)[0], Paths(ds)[k + 1]);
        LessIrreflexive(ds[0].path);
      }
      UntouchedStays(ApplyOne(m, ds[0]), ds[1..], ds[0].path);
    } else {
      assert Less(Paths(ds)[0], Paths(ds)[i]);
      LessIrreflexive(ds[0].path);
      PatchSets(ApplyOne(m, ds[0]), ds[1..], i - 1);
      assert Lookup(ApplyOne(m, ds[0]), ds[i].path) == Lookup(m, ds[i].path);
    }
  }

  /** Applying the diff to the old configuration gives the new one. */
  lemma DiffTransforms(before: Config, after: Config, ds: seq<FieldDiff>)
    requires IsDiff(before, after, ds)
    ensures Apply(before, ds) == after
  {
    var got := Apply(before, ds);
    forall p ensures Lookup(got, p) == Lookup(after, p) {
      if ChangeOf(before, after, p).Some? {
        var d := ChangeOf(before, after, p).value;
        var i :| 0 <= i < |ds| && ds[i] == d;
        PatchSets(before, ds, i);
      } else {
        assert forall i :: 0 <= i < |ds| ==> Paths(ds)[i] == ds[i].path;
        UntouchedStays(before, ds, p);
      }
    }
    SameLookups(got, after);
  }

  function Invert(d: FieldDiff): FieldDiff
  {
    FieldDiff(d.path,
      match d.change case Added => Removed case Removed => Added case Modified => Modified,
      d.newValue, d.oldValue)
  }

  function InvertAll(ds: seq<FieldDiff>): seq<FieldDiff> { seq(|ds|, i requires 0 <= i < |ds| => Invert(ds[i])) }

  /** Swapping the arguments inverts the patch, so it undoes it. */
  lemma SwappedDiffIsInverse(before: Config, after: Config, ds: seq<FieldDiff>)
    requires IsDiff(before, after, ds)
    ensures IsDiff(after, before, InvertAll(ds)) && Apply(after, InvertAll(ds)) == before
  {
    var es := InvertAll(ds);
    assert Paths(es) == Paths(ds);
    forall p | ChangeOf(after, before, p).Some? ensures ChangeOf(after, before, p).value in es {
      assert ChangeOf(before, after, p).Some?;
      var i :| 0 <= i < |ds| && ds[i] == ChangeOf(before, after, p).value;
      assert es[i] == ChangeOf(after, before, p).value;
    }
    DiffTransforms(after, before, es);
  }

  /** Every patch between the two configurations, sorted or not, mentions every path of the diff. */
  lemma DiffIsMinimal(before: Config, after: Config, ds: seq<FieldDiff>, patch: seq<FieldDiff>)
    requires IsDiff(before, after, ds) && Apply(before, patch) == after
    ensures forall i :: 0 <= i < |ds| ==> ds[i].path in Paths(patch)
  {
    forall i | 0 <= i < |ds| ensures ds[i].path in Paths(patch) {
      assert ChangeOf(before, after, ds[i].path) == Some(ds[i]);
      if ds[i].path !in Paths(patch) { UntouchedStays(before, patch, ds[i].path); }
    }
  }

  /** Between an older and a newer version nothing is ever removed. */
  lemma NothingRemovedForward(h: seq<Delta>, v: int, w: int, ds: seq<FieldDiff>)
    requires v <= w && IsDiff(Display(Resolve(h, v)), Display(Resolve(h, w)), ds)
    ensures forall i :: 0 <= i < |ds| ==> !ds[i].change.Removed?
  {
    DomainGrows(h, Clamp(v, |h|), Clamp(w, |h|));
  }
}
