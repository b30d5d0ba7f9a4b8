/**
 The in-memory configuration store: rows kept per version, and the reads that resolve "latest row at or below v"
 by scanning the versions in arbitrary map order.
 */
module ConfigStore {
  import opened ConfigHistory
  import opened Sorting
  import opened Wrappers

  datatype ConfigVersion = ConfigVersion(id: string, tenantId: string, version: int)

  datatype ConfigValue = ConfigValue(path: string, row: Row)

  /** The two tables: version id to version, and version id to the values written under it. */
  datatype Tables = Tables(versions: map<string, ConfigVersion>, values: map<string, seq<ConfigValue>>)

  // ---------------------------------------------------------------- what a read must return

  function RowsOf(t: Tables, id: string): seq<ConfigValue> { if id in t.values then t.values[id] else [] }

  /** The first of a version's values for `p`. */
  function FirstRow(rows: seq<ConfigValue>, p: string): (r: Option<Row>)
    ensures r.None? <==> forall i :: 0 <= i < |rows| ==> rows[i].path != p
  {
    if rows == [] then None else if rows[0].path == p then Some(rows[0].row) else FirstRow(rows[1..], p)
  }

  /** Version `id` belongs to the tenant, is not above `v`, and writes `p`. */
  predicate Visible(t: Tables, tenant: string, p: string, v: int, id: string)
  {
    && id in t.versions && t.versions[id].tenantId == tenant && 0 < t.versions[id].version <= v
    && FirstRow(RowsOf(t, id), p).Some?
  }

  /** The best candidate so far: version 0 when there is none. */
  datatype Best = Best(version: int, row: Option<Row>)

  /** `b` holds the row of `p` in the greatest visible version among `ids`, and nothing if there is none. */
  ghost predicate BestAmong(t: Tables, ids: set<string>, tenant: string, p: string, v: int, b: Best)
  {
    && (forall id :: id in ids && Visible(t, tenant, p, v, id) ==> t.versions[id].version <= b.version)
    && (b.row.None? ==> b.version == 0)
    && (b.row.Some? ==> exists id :: id in ids && Visible(t, tenant, p, v, id) && t.versions[id].version == b.version
                          && FirstRow(RowsOf(t, id), p) == b.row)
  }

  /** The answer of a read of `p` at `v`. */
  ghost predicate Resolved(t: Tables, tenant: string, p: string, v: int, r: Option<Row>)
  {
    exists n :: BestAmong(t, t.versions.Keys, tenant, p, v, Best(n, r))
  }

  ghost predicate UniqueVersions(t: Tables, tenant: string)
  {
    forall i, j ::
      (i in t.versions && j in t.versions && t.versions[i].tenantId == tenant && t.versions[j].tenantId == tenant
       && t.versions[i].version == t.versions[j].version)
      ==> i == j
  }

  /** With unique version numbers there is one right answer, so no iteration order can change it. */
  lemma ResolvedIsUnique(t: Tables, tenant: string, p: string, v: int, r: Option<Row>, s: Option<Row>)
    requires UniqueVersions(t, tenant) && Resolved(t, tenant, p, v, r) && Resolved(t, tenant, p, v, s)
    ensures r == s
  {
    var n :| BestAmong(t, t.versions.Keys, tenant, p, v, Best(n, r));
    var m :| BestAmong(t, t.versions.Keys, tenant, p, v, Best(m, s));
  }

  /** What the scan of one version does to the best candidate for `p`. */
  function Improve(t: Tables, tenant: string, p: string, v: int, id: string, b: Best): Best
  {
    if Visible(t, tenant, p, v, id) && t.versions[id].version > b.version
    then Best(t.versions[id].version, FirstRow(RowsOf(t, id), p)) else b
  }

  lemma ImproveIsBest(t: Tables, ids: set<string>, tenant: string, p: string, v: int, id: string, b: Best)
    requires BestAmong(t, ids, tenant, p, v, b)
    ensures BestAmong(t, ids + {id}, tenant, p, v, Improve(t, tenant, p, v, id, b))
  {
    var c := Improve(t, tenant, p, v, id, b);
    if c != b { assert id in ids + {id} && t.versions[id].version == c.version; }
    else if b.row.Some? {
      var k :| k in ids && Visible(t, tenant, p, v, k) && t.versions[k].version == b.version
          && FirstRow(RowsOf(t, k), p) == b.row;
      assert k in ids + {id};
    }
  }

  // ---------------------------------------------------------------- agreement with the history

  /** The tenant's versions are numbered 1 to |h| and version n holds the rows of h[n - 1]. */
  ghost predicate Represents(t: Tables, tenant: string, h: seq<Delta>)
  {
    && UniqueVersions(t, tenant)
    && (forall id :: id in t.versions && t.versions[id].tenantId == tenant ==>
          && 1 <= t.versions[id].version <= |h|
          && forall p :: FirstRow(RowsOf(t, id), p) == Lookup(h[t.versions[id].version - 1], p))
    && (forall n :: 1 <= n <= |h| ==> Holder(t, tenant, n))
  }

  ghost predicate Holder(t: Tables, tenant: string, n: int)
  {
    exists id :: id in t.versions && t.versions[id].tenantId == tenant && t.versions[id].version == n
  }

  /**
   Resolving rows is reading the overlay of the deltas: the answer is the row of the greatest version at or below v.
   */
  lemma ResolvedIsSnapshot(t: Tables, tenant: string, h: seq<Delta>, p: string, v: int)
    requires Represents(t, tenant, h)
    ensures Resolved(t, tenant, p, v, Lookup(Resolve(h, v), p))
  {
    var w := Clamp(v, |h|);
    var n := LastWriter(h, w, p);
    SnapshotIsLastWrite(h, w, p);
    var b := Best(n, Lookup(Resolve(h, v), p));
    if n > 0 {
      assert Holder(t, tenant, n);
      var id :| id in t.versions && t.versions[id].tenantId == tenant && t.versions[id].version == n;
      assert FirstRow(RowsOf(t, id), p) == Lookup(h[n - 1], p);
      assert Visible(t, tenant, p, v, id);
    }
    forall id | id in t.versions && Visible(t, tenant, p, v, id) ensures t.versions[id].version <= n {
      assert FirstRow(RowsOf(t, id), p) == Lookup(h[t.versions[id].version - 1], p);
    }
    assert BestAmong(t, t.versions.Keys, tenant, p, v, b);
  }

  lemma ResolvedMatchesHistory(t: Tables, tenant: string, p: string, v: int, r: Option<Row>)
    requires Resolved(t, tenant, p, v, r)
    ensures forall h :: Represents(t, tenant, h) ==> r == Lookup(Resolve(h, v), p)
  {
    forall h | Represents(t, tenant, h) ensures r == Lookup(Resolve(h, v), p) {
      ResolvedIsSnapshot(t, tenant, h, p, v);
      ResolvedIsUnique(t, tenant, p, v, r, Lookup(Resolve(h, v), p));
    }
  }

  /** The delta that a version's list of values amounts to. */
  function DeltaOf(rows: seq<ConfigValue>): (d: Delta)
    ensures forall p :: Lookup(d, p) == FirstRow(rows, p)
  {
    if rows == [] then map[] else DeltaOf(rows[1..])[rows[0].path := rows[0].row]
  }

  function WithVersion(t: Tables, tenant: string, n: nat, id: string, rows: seq<ConfigValue>): Tables
  {
    Tables(t.versions[id := ConfigVersion(id, tenant, n)], t.values[id := rows])
  }

  /** Writing version |h| + 1 under a fresh id extends the history by its delta and leaves other tenants alone. */
  lemma AppendVersion(
    t: Tables, tenant: string, h: seq<Delta>, id: string, rows: seq<ConfigValue>, other: string, g: seq<Delta>)
    requires Represents(t, tenant, h) && id !in t.versions
    requires Represents(t, other, g) && other != tenant
    ensures Represents(WithVersion(t, tenant, |h| + 1, id, rows), tenant, h + [DeltaOf(rows)])
    ensures Represents(WithVersion(t, tenant, |h| + 1, id, rows), other, g)
  {
    AppendExtends(t, tenant, h, id, rows);
    AppendSpares(t, tenant, |h| + 1, id, rows, other, g);
  }

  lemma AppendExtends(t: Tables, tenant: string, h: seq<Delta>, id: string, rows: seq<ConfigValue>)
    requires Represents(t, tenant, h) && id !in t.versions
    ensures Represents(WithVersion(t, tenant, |h| + 1, id, rows), tenant, h + [DeltaOf(rows)])
  {
    var u := WithVersion(t, tenant, |h| + 1, id, rows);
    assert forall k :: k != id ==> RowsOf(u, k) == RowsOf(t, k);
    forall n | 1 <= n <= |h| + 1 ensures Holder(u, tenant, n) {
      if n <= |h| {
        assert Holder(t, tenant, n);
        var i :| i in t.versions && t.versions[i].tenantId == tenant && t.versions[i].version == n;
        assert u.versions[i].version == n;
      } else {
        assert u.versions[id].version == n;
      }
    }
  }

  lemma AppendSpares(
    t: Tables, tenant: string, n: nat, id: string, rows: seq<ConfigValue>, other: string, g: seq<Delta>)
    requires Represents(t, other, g) && other != tenant && id !in t.versions
    ensures Represents(WithVersion(t, tenant, n, id, rows), other, g)
  {
    var u := WithVersion(t, tenant, n, id, rows);
    assert forall k :: k != id ==> RowsOf(u, k) == RowsOf(t, k);
    forall m | 1 <= m <= |g| ensures Holder(u, other, m) {
      assert Holder(t, other, m);
      var i :| i in t.versions && t.versions[i].tenantId == other && t.versions[i].version == m;
      assert u.versions[i].version == m;
    }
  }

  /** With a repeated version number two different answers are both reachable, so uniqueness is needed. */
  lemma DuplicateVersionsAreAmbiguous(a: Row, b: Row)
    requires a != b
    ensures var t := Tables(map["x" := ConfigVersion("x", "t", 1), "y" := ConfigVersion("y", "t", 1)],
                            map["x" := [ConfigValue("p", a)], "y" := [ConfigValue("p", b)]]);
            Resolved(t, "t", "p", 1, Some(a)) && Resolved(t, "t", "p", 1, Some(b))
  {
    var t := Tables(map["x" := ConfigVersion("x", "t", 1), "y" := ConfigVersion("y", "t", 1)],
                    map["x" := [ConfigValue("p", a)], "y" := [ConfigValue("p", b)]]);
    assert FirstRow(RowsOf(t, "x"), "p") == Some(a) && FirstRow(RowsOf(t, "y"), "p") == Some(b);
    assert Visible(t, "t", "p", 1, "x") && Visible(t, "t", "p", 1, "y");
    assert BestAmong(t, t.versions.Keys, "t", "p", 1, Best(1, Some(a)));
    assert BestAmong(t, t.versions.Keys, "t", "p", 1, Best(1, Some(b)));
  }

  // ---------------------------------------------------------------- the store

  datatype FullRow = FullRow(path: string, row: Row)

  function Paths(rows: seq<FullRow>): seq<string> { seq(|rows|, i requires 0 <= i < |rows| => rows[i].path) }

  function Find(rows: seq<FullRow>, p: string): Option<Row>
  {
    if rows == [] then None else if rows[0].path == p then Some(rows[0].row) else Find(rows[1..], p)
  }

  class MemoryStore {
    var configVersions: map<string, ConfigVersion>
    var configValues: map<string, seq<ConfigValue>>

    ghost function T(): Tables
      reads this
    {
      Tables(configVersions, configValues)
    }

    constructor ()
      ensures configVersions == map[] && configValues == map[]
    {
      configVersions, configValues := map[], map[];
    }

    /** `id` stands for the random identifier; no uniqueness of the version number is checked. */
    method CreateConfigVersion(id: string, tenant: string, version: int) returns (cv: ConfigVersion)
      modifies this
      ensures cv == ConfigVersion(id, tenant, version)
      ensures configVersions == old(configVersions)[id := cv] && configValues == old(configValues)
    {
      cv := ConfigVersion(id, tenant, version);
      configVersions := configVersions[id := cv];
    }

    method SetConfigValue(id: string, path: string, row: Row)
      modifies this
      ensures configVersions == old(configVersions)
      ensures configValues == old(configValues)[id := old(RowsOf(T(), id)) + [ConfigValue(path, row)]]
    {
      var rows := if id in configValues then configValues[id] else [];
      configValues := configValues[id := rows + [ConfigValue(path, row)]];
    }

    /** The scan keeps the greatest version of the tenant, whatever order the map yields. */
    method GetLatestConfigVersion(tenant: string) returns (latest: Option<ConfigVersion>)
      ensures latest.None? <==> forall id :: id in configVersions ==> configVersions[id].tenantId != tenant
      ensures latest.Some? ==>
                && (exists id :: id in configVersions && configVersions[id] == latest.value)
                && latest.value.tenantId == tenant
                && forall id :: id in configVersions && configVersions[id].tenantId == tenant
                     ==> configVersions[id].version <= latest.value.version
      ensures forall h :: Represents(T(), tenant, h) ==> (if latest.None? then 0 else latest.value.version) == |h|
    {
      latest := None;
      var rest := configVersions.Keys;
      while rest != {}
        invariant rest <= configVersions.Keys
        invariant latest.None? ==> forall id :: id in configVersions && id !in rest ==>
                configVersions[id].tenantId != tenant
        invariant latest.Some? ==>
                    && (exists id :: id in configVersions && configVersions[id] == latest.value)
                    && latest.value.tenantId == tenant
                    && forall id :: id in configVersions && id !in rest && configVersions[id].tenantId == tenant
                         ==> configVersions[id].version <= latest.value.version
      {
        var id :| id in rest;
        var v := configVersions[id];
        if v.tenantId == tenant && (latest.None? || v.version > latest.value.version) {
          latest := Some(v);
        }
        rest := rest - {id};
      }
      forall h | Represents(T(), tenant, h) ensures (if latest.None? then 0 else latest.value.version) == |h| {
        if h != [] { assert Holder(T(), tenant, |h|); }
      }
    }

    /** Point lookup. */
    method GetConfigValueAtVersion(tenant: string, path: string, version: int) returns (row: Option<Row>)
      ensures Resolved(T(), tenant, path, version, row)
      ensures forall h :: Represents(T(), tenant, h) ==> row == Lookup(Resolve(h, version), path)
    {
      var best := Best(0, None);
      var rest := configVersions.Keys;
      ghost var done: set<string> := {};
      while rest != {}
        invariant rest + done == configVersions.Keys
        invariant BestAmong(T(), done, tenant, path, version, best)
        decreases rest
      {
        var id :| id in rest;
        var cv := configVersions[id];
        ImproveIsBest(T(), done, tenant, path, version, id, best);
        if cv.tenantId == tenant && cv.version <= version {
          best := ScanRows(if id in configValues then configValues[id] else [], path, cv.version, best);
        }
        rest := rest - {id};
        done := done + {id};
      }
      row := best.row;
      assert BestAmong(T(), T().versions.Keys, tenant, path, version, Best(best.version, row));
      ResolvedMatchesHistory(T(), tenant, path, version, row);
    }

    /** Full snapshot: the same answer as the point lookup, for every path, sorted by path. */
    method GetFullConfigAtVersion(tenant: string, version: int) returns (rows: seq<FullRow>)
      ensures StrictlySorted(Paths(rows))
      ensures forall p :: Resolved(T(), tenant, p, version, Find(rows, p))
      ensures forall h, p :: Represents(T(), tenant, h) ==> Find(rows, p) == Lookup(Resolve(h, version), p)
    {
      var latest: map<string, Row> := map[];
      var latestVer: map<string, int> := map[];
      var rest := configVersions.Keys;
      ghost var done: set<string> := {};
      while rest != {}
        invariant rest + done == configVersions.Keys
        invariant forall p :: BestAmong(T(), done, tenant, p, version, BestOf(latest, latestVer, p))
        decreases rest
      {
        var id :| id in rest;
        var cv := configVersions[id];
        forall p
          ensures BestAmong(T(), done + {id}, tenant, p, version,
                  Improve(T(), tenant, p, version, id, BestOf(latest, latestVer, p)))
        {
          ImproveIsBest(T(), done, tenant, p, version, id, BestOf(latest, latestVer, p));
        }
        if cv.tenantId == tenant && cv.version <= version {
          var rows := if id in configValues then configValues[id] else [];
          latest, latestVer := MergeRows(rows, cv.version, latest, latestVer);
        }
        rest := rest - {id};
        done := done + {id};
      }
      rows := SortedRows(latest);
      forall p ensures Resolved(T(), tenant, p, version, Find(rows, p)) {
        var b := BestOf(latest, latestVer, p);
        assert BestAmong(T(), T().versions.Keys, tenant, p, version, Best(b.version, b.row));
      }
      forall h, p | Represents(T(), tenant, h) ensures Find(rows, p) == Lookup(Resolve(h, version), p) {
        ResolvedMatchesHistory(T(), tenant, p, version, Find(rows, p));
      }
    }
  }

  function Merged(rows: seq<ConfigValue>, version: int, p: string, b: Best): Best
  {
    if FirstRow(rows, p).Some? && version > b.version then Best(version, FirstRow(rows, p)) else b
  }

  /** The inner loop of the point lookup: only the first value for the path can raise the best version. */
  method ScanRows(rows: seq<ConfigValue>, path: string, version: int, start: Best) returns (best: Best)
    ensures best == Merged(rows, version, path, start)
  {
    best := start;
    for i := 0 to |rows|
      invariant best == Merged(rows[..i], version, path, start)
    {
      assert rows[..i + 1] == rows[..i] + [rows[i]];
      FirstRowOfAppend(rows[..i], rows[i], path);
      if rows[i].path == path && version > best.version {
        best := Best(version, Some(rows[i].row));
      }
    }
    assert rows[..|rows|] == rows;
  }

  /** The two maps of the full read, seen as the best candidate for one path. */
  function BestOf(latest: map<string, Row>, latestVer: map<string, int>, p: string): Best
  {
    Best(if p in latestVer then latestVer[p] else 0, Lookup(latest, p))
  }

  /** The inner loop of the full read, over all paths at once. */
  method MergeRows(rows: seq<ConfigValue>, version: int, latest0: map<string, Row>, latestVer0: map<string, int>)
    returns (latest: map<string, Row>, latestVer: map<string, int>)
    ensures forall p :: BestOf(latest, latestVer, p) == Merged(rows, version, p, BestOf(latest0, latestVer0, p))
  {
    latest, latestVer := latest0, latestVer0;
    for i := 0 to |rows|
      invariant forall p ::
                  BestOf(latest, latestVer, p) == Merged(rows[..i], version, p, BestOf(latest0, latestVer0, p))
    {
      var val := rows[i];
      forall p ensures FirstRow(rows[..i + 1], p) == (if FirstRow(rows[..i], p).Some? then FirstRow(rows[..i], p)
                                                      else if val.path == p then Some(val.row) else None)
      {
        assert rows[..i + 1] == rows[..i] + [val];
        FirstRowOfAppend(rows[..i], val, p);
      }
      var have := if val.path in latestVer then latestVer[val.path] else 0;
      if version > have {
        latestVer := latestVer[val.path := version];
        latest := latest[val.path := val.row];
      }
    }
    assert rows[..|rows|] == rows;
  }

  lemma {:induction false} FirstRowOfAppend(rows: seq<ConfigValue>, val: ConfigValue, p: string)
    ensures FirstRow(rows + [val], p) ==
              if FirstRow(rows, p).Some? then FirstRow(rows, p) else if val.path == p then Some(val.row) else None
  {
    if rows == [] {
      assert rows + [val] == [val] && [val][1..] == [];
    } else {
      assert (rows + [val])[1..] == rows[1..] + [val];
      FirstRowOfAppend(rows[1..], val, p);
    }
  }

  /** The resolved rows as a list sorted by path. */
  method SortedRows(latest: map<string, Row>) returns (rows: seq<FullRow>)
    ensures StrictlySorted(Paths(rows))
    ensures forall p :: Find(rows, p) == Lookup(latest, p)
  {
    var keys := SortedKeys(latest.Keys);
    rows := [];
    for i := 0 to |keys|
      invariant |rows| == i
      invariant forall k :: 0 <= k < i ==> rows[k] == FullRow(keys[k], latest[keys[k]])
    {
      rows := rows + [FullRow(keys[i], latest[keys[i]])];
    }
    forall p ensures Find(rows, p) == Lookup(latest, p) { FindInKeys(rows, latest, p); }
  }

  lemma {:induction false} FindInKeys(rows: seq<FullRow>, latest: map<string, Row>, p: string)
    requires forall k :: 0 <= k < |rows| ==> Lookup(latest, rows[k].path) == Some(rows[k].row)
    ensures Find(rows, p) == if exists k :: 0 <= k < |rows| && rows[k].path == p then Lookup(latest, p) else None
  {
    if rows != [] {
      FindInKeys(rows[1..], latest, p);
      if k :| 0 <= k < |rows| && rows[k].path == p { if k > 0 { assert rows[1..][k - 1].path == p; } }
      if j :| 0 <= j < |rows[1..]| && rows[1..][j].path == p { assert rows[j + 1].path == p; }
    }
  }
}
