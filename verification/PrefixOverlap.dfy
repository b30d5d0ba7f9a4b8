/**
 The schema lint that forbids a field path from being a dotted prefix of another. The code sorts the paths and
 looks at neighbours only, which misses a conflict whose two paths are kept apart by a path that continues the
 shorter one with a byte ordered before '.', such as '-'.
 */
module PrefixOverlap {
  import opened Text
  import opened Sorting
  import opened Wrappers

  /** `a` would have to be a leaf and the parent of `b`. */
  predicate Conflict(a: string, b: string) { a + "." <= b }

  ghost predicate Overlap(paths: seq<string>)
  {
    exists a, b :: a in paths && b in paths && Conflict(a, b)
  }

  /** Some path continues `a` with a byte that sorts before the dot. */
  ghost predicate Shadowed(paths: seq<string>, a: string)
  {
    exists c :: c in paths && a < c && c[|a|] < '.'
  }

  ghost predicate UnshadowedOverlap(paths: seq<string>)
  {
    exists a, b :: a in paths && b in paths && Conflict(a, b) && !Shadowed(paths, a)
  }

  ghost predicate NeighbourConflict(s: seq<string>)
  {
    exists i :: 1 <= i < |s| && Conflict(s[i - 1], s[i])
  }

  /** Whatever sorts between `a` and an extension of `a` also extends `a`, by a byte no greater than theirs. */
  lemma {:induction false} BetweenExtends(a: string, c: string, b: string)
    requires a < b && Less(a, c) && AtMost(c, b)
    ensures a < c && c[|a|] <= b[|a|]
  {
    if a != [] {
      assert a[1..] <= b[1..];
      BetweenExtends(a[1..], c[1..], b[1..]);
      assert a == [a[0]] + a[1..] && c == [c[0]] + c[1..] && b == [b[0]] + b[1..];
    }
  }

  /** A path that continues `a` with a smaller byte sorts strictly between `a` and `b`. */
  lemma {:induction false} SmallerByteSortsBetween(a: string, c: string, b: string)
    requires a < c && a < b && c[|a|] < b[|a|]
    ensures Less(a, c) && Less(c, b)
  {
    if a != [] {
      assert a[1..] < c[1..] && a[1..] < b[1..];
      SmallerByteSortsBetween(a[1..], c[1..], b[1..]);
    }
  }

  lemma {:induction false} LastOccurrence(s: seq<string>, a: string) returns (i: nat)
    requires a in s
    ensures i < |s| && s[i] == a && a !in s[i + 1..]
  {
    if a in s[1..] {
      var j := LastOccurrence(s[1..], a);
      i := j + 1;
      assert s[i + 1..] == s[1..][j + 1..];
    } else {
      i := 0;
    }
  }

  lemma NotLess(a: string, b: string)
    requires AtMost(a, b)
    ensures !Less(b, a)
  {
    if Less(b, a) {
      if a != b { LessTransitive(a, b, a); }
      LessIrreflexive(a);
    }
  }

  lemma UnshadowedShowsAtNeighbours(s: seq<string>, a: string, b: string)
    requires SortedBy(s, AtMost) && a in s && b in s && Conflict(a, b) && !Shadowed(s, a)
    ensures NeighbourConflict(s)
  {
    var i := LastOccurrence(s, a);
    var j :| 0 <= j < |s| && s[j] == b;
    assert j > i by {
      assert a != b && Less(a, b) by { PrefixSortsFirst(a, b); }
      if j < i { NotLess(b, a); }
    }
    var c := s[i + 1];
    assert c in s[i + 1..];
    assert AtMost(a, c) && AtMost(c, b);
    BetweenExtends(a, c, b);
    assert c in s && !(c[|a|] < '.');
    assert Conflict(s[i + 1 - 1], s[i + 1]) by { assert c[..|a| + 1] == a + "."; }
  }

  lemma {:induction false} PrefixSortsFirst(a: string, b: string)
    requires a < b
    ensures Less(a, b)
  {
    if a != [] { assert a[1..] < b[1..]; PrefixSortsFirst(a[1..], b[1..]); }
  }

  lemma NeighboursAreUnshadowed(s: seq<string>, i: nat)
    requires SortedBy(s, AtMost) && 1 <= i < |s| && Conflict(s[i - 1], s[i])
    ensures !Shadowed(s, s[i - 1])
  {
    var a, b := s[i - 1], s[i];
    if Shadowed(s, a) {
      var c :| c in s && a < c && c[|a|] < '.';
      SmallerByteSortsBetween(a, c, b);
      var k :| 0 <= k < |s| && s[k] == c;
      if k < i { NotLess(c, a); LessIrreflexive(a); } else { NotLess(b, c); LessIrreflexive(b); }
    }
  }

  lemma ShadowedDependsOnMembers(s: seq<string>, t: seq<string>, a: string)
    requires forall p :: p in s <==> p in t
    ensures Shadowed(s, a) == Shadowed(t, a)
  {
    if Shadowed(s, a) {
      var c :| c in s && a < c && c[|a|] < '.';
      assert c in t;
    }
    if Shadowed(t, a) {
      var c :| c in t && a < c && c[|a|] < '.';
      assert c in s;
    }
  }

  /**
   The neighbour scan: a rejection names a real conflict, and it rejects exactly when some conflict is not shadowed.
   */
  method ValidateNoPrefixOverlap(paths: seq<string>) returns (rejected: Option<(string, string)>)
    ensures rejected.Some? ==> rejected.value.0 in paths && rejected.value.1 in paths
    ensures rejected.Some? ==> Conflict(rejected.value.0, rejected.value.1)
    ensures rejected.Some? <==> UnshadowedOverlap(paths)
  {
    rejected := None;
    if |paths| < 2 {
      assert forall a, b :: a in paths && b in paths ==> a == b;
      return;
    }
    var sorted := SortStrings(paths);
    SameMembers(sorted, paths);
    var i := 1;
    while i < |sorted|
      invariant 1 <= i <= |sorted|
      invariant forall k :: 1 <= k < i ==> !Conflict(sorted[k - 1], sorted[k])
    {
      var prev, cur := sorted[i - 1], sorted[i];
      if prev + "." <= cur {
        NeighboursAreUnshadowed(sorted, i);
        ShadowedDependsOnMembers(sorted, paths, prev);
        return Some((prev, cur));
      }
      i := i + 1;
    }
    if UnshadowedOverlap(paths) {
      var a, b :| a in paths && b in paths && Conflict(a, b) && !Shadowed(paths, a);
      ShadowedDependsOnMembers(sorted, paths, a);
      UnshadowedShowsAtNeighbours(sorted, a, b);
      assert false;
    }
  }

  /** When no path uses a byte that sorts before the dot, nothing is shadowed and the scan finds every overlap. */
  lemma PlainPathsAreDecided(paths: seq<string>)
    requires forall p, i :: p in paths && 0 <= i < |p| ==> p[i] >= '.'
    ensures UnshadowedOverlap(paths) <==> Overlap(paths)
  {
    if Overlap(paths) {
      var a, b :| a in paths && b in paths && Conflict(a, b);
      assert !Shadowed(paths, a);
    }
  }

  /** A schema with a conflict that the scan accepts. */
  lemma HyphenHidesOverlap()
    ensures Overlap(["a", "a-b", "a.c"]) && !UnshadowedOverlap(["a", "a-b", "a.c"])
  {
    var paths := ["a", "a-b", "a.c"];
    assert Conflict("a", "a.c") && "a" in paths && "a.c" in paths;
    assert "a-b" in paths && "a" < "a-b" && "a-b"[1] < '.';
    assert Shadowed(paths, "a");
    forall a, b | a in paths && b in paths && Conflict(a, b) ensures a == "a" {
      assert |a| < |b| <= 3;
    }
  }
}
