/** A tenant's configuration as the versioned deltas that were committed, and what a read at a version sees. */
module ConfigHistory {
  import opened Wrappers

  datatype Row = Row(value: Option<string>, checksum: Option<string>, description: Option<string>)

  /** The fields written by one version. Version n is at position n - 1. */
  type Delta = map<string, Row>

  /** The first `v` deltas laid over one another. */
  function Snapshot(h: seq<Delta>, v: nat): Delta
    requires v <= |h|
  {
    if v == 0 then map[] else Snapshot(h, v - 1) + h[v - 1]
  }

  function Clamp(v: int, n: nat): nat { if v < 0 then 0 else if v > n then n else v }

  /** What a read at any requested version number sees: versions that do not exist hold nothing. */
  function Resolve(h: seq<Delta>, v: int): Delta
  {
    Snapshot(h, Clamp(v, |h|))
  }

  function Lookup<V>(m: map<string, V>, p: string): Option<V> { if p in m then Some(m[p]) else None }

  lemma SameLookups<V>(a: map<string, V>, b: map<string, V>)
    requires forall p :: Lookup(a, p) == Lookup(b, p)
    ensures a == b
  {
    forall p ensures p in a <==> p in b { assert Lookup(a, p) == Lookup(b, p); }
    forall p | p in a ensures a[p] == b[p] { assert Lookup(a, p) == Lookup(b, p); }
  }

  /** The greatest version at or below `v` that wrote `p`, or 0. */
  function LastWriter(h: seq<Delta>, v: nat, p: string): (n: nat)
    requires v <= |h|
    ensures n <= v && (n > 0 ==> p in h[n - 1])
    ensures forall k :: n <= k < v ==> p !in h[k]
  {
    if v == 0 then 0 else if p in h[v - 1] then v else LastWriter(h, v - 1, p)
  }

  /** The overlay picks, for every field, the row of the greatest version that wrote it. */
  lemma {:induction false} SnapshotIsLastWrite(h: seq<Delta>, v: nat, p: string)
    requires v <= |h|
    ensures Lookup(Snapshot(h, v), p) == (var n := LastWriter(h, v, p); if n == 0 then None else Some(h[n - 1][p]))
  {
    if v > 0 { SnapshotIsLastWrite(h, v - 1, p); }
  }

  /** Later versions never change what an existing version reads. */
  lemma {:induction false} SnapshotStable(h: seq<Delta>, more: seq<Delta>, v: nat)
    requires v <= |h|
    ensures Snapshot(h + more, v) == Snapshot(h, v)
  {
    if v > 0 { SnapshotStable(h, more, v - 1); }
  }

  lemma SnapshotOfAppend(h: seq<Delta>, d: Delta)
    ensures Snapshot(h + [d], |h| + 1) == Snapshot(h, |h|) + d
  {
    SnapshotStable(h, [d], |h|);
  }

  /** Fields are added and overwritten, never removed. */
  lemma {:induction false} DomainGrows(h: seq<Delta>, v: nat, w: nat)
    requires v <= w <= |h|
    ensures Snapshot(h, v).Keys <= Snapshot(h, w).Keys
  {
    if v < w { DomainGrows(h, v, w - 1); }
  }

  function Deref(o: Option<string>): string { if o.Some? then o.value else "" }

  /** Field path to value with null shown as the empty string. */
  function Display(d: Delta): map<string, string> { map p | p in d :: Deref(d[p].value) }
}
