/** The bytes of an audit entry have one reading exactly when the entry is legible. */
module AuditReading {
  import opened AuditEncoding
  import opened Text
  import opened Wrappers

  // ---------------------------------------------------------------- one reading

  lemma OptionalInjective(a: Option<string>, b: Option<string>)
    requires Optional(a) == Optional(b)
    ensures a == b
  {
    assert Optional(a)[0] == Optional(b)[0];
    if a.Some? {
      var x, y := Optional(a), Optional(b);
      assert x[1..|x| - 1] == a.value && y[1..|y| - 1] == b.value;
    }
  }

  /** Two texts that end at different NULs: one ends inside the other. */
  lemma CutTwo(a: string, x: string, b: string, y: string) returns (w: string)
    requires a + [NUL] + x == b + [NUL] + y
    ensures (a == b && x == y) || (a == b + [NUL] + w && y == w + [NUL] + x)
            || (b == a + [NUL] + w && x == w + [NUL] + y)
  {
    var l := a + [NUL] + x;
    assert l[|a|] == NUL && l[|b|] == NUL && a == l[..|a|] && b == l[..|b|];
    assert x == l[|a| + 1..] && y == l[|b| + 1..];
    w := [];
    if |b| < |a| {
      w := a[|b| + 1..];
      assert a == b + [NUL] + w;
    } else if |a| < |b| {
      w := b[|a| + 1..];
      assert b == a + [NUL] + w;
    }
  }

  /** A field that holds a NUL and then whole fields up to its end gives itself away. */
  lemma Swallowed(n: Option<string>, w: string, r: string, c: Option<string>)
    requires Optional(n) == w + [NUL] + (r + Optional(c)) && (r == [] || r[|r| - 1] == NUL)
    ensures Marked(n) || EndsInNul(n)
  {
    var l := w + [NUL] + (r + Optional(c));
    assert |l| >= 2 && n.Some?;
    var s := n.value;
    assert forall i :: 0 <= i < |s| ==> s[i] == l[i + 1];
    if c.None? {
      assert l[|l| - 2] == NUL;
      assert |s| >= 1 && s[|s| - 1] == NUL by { assert l[0] == SOH; }
    } else {
      var k := |w| + |r|;
      assert l[k] == NUL && l[k + 1] == SOH;
      assert k >= 1 by { assert l[0] == SOH; }
      assert s[k - 1] == NUL && s[k] == SOH;
    }
  }

  lemma TwoInOne(n: Option<string>, o: Option<string>, c: Option<string>)
    requires Optional(n) == Optional(o) + Optional(c)
    ensures Marked(n) || EndsInNul(n)
  {
    var l := Optional(o) + Optional(c);
    assert |l| >= 2 && n.Some? && l[0] == SOH;
    assert o.Some?;
    assert l == ([SOH] + o.value) + [NUL] + Optional(c);
    SwallowedOne(n, [SOH] + o.value, c);
  }

  /** What stands between two readings of a boundary starts like a field. */
  lemma Reaches(w: string, rest: string, o: Option<string>, n: Option<string>)
    requires Optional(o) + Optional(n) == w + [NUL] + rest && rest != []
    ensures || (w == [] && o.None? && Optional(n) == rest)
            || (w != [] && w[0] == SOH)
            || (|w| >= 2 && w[0] == NUL && w[1] == SOH)
  {
    var l := w + [NUL] + rest;
    assert l[0] == Optional(o)[0];
    if o.None? {
      assert l[1..] == Optional(n);
      if w == [] {
        assert l[1..] == rest;
      } else {
        assert l[1..] == w[1..] + [NUL] + rest;
        assert n.Some? && l[1] == SOH;
      }
    }
  }

  lemma MarkedAt(o: Option<string>, i: nat)
    requires o.Some? && i + 1 < |o.value| && o.value[i] == NUL && o.value[i + 1] == SOH
    ensures Marked(o)
  {}

  /** A text that goes on after where another reading ends it. */
  lemma LongerText(f: Option<string>, g: string, w: string, rest: string, o: Option<string>, n: Option<string>)
    requires f == Some(g + [NUL] + w) && Optional(o) + Optional(n) == w + [NUL] + rest && rest != []
    ensures Marked(f) || (EndsInNul(f) && o.None? && Optional(n) == rest)
  {
    Reaches(w, rest, o, n);
    var s := f.value;
    assert forall i :: 0 <= i < |w| ==> s[|g| + 1 + i] == w[i];
    if w != [] && w[0] == SOH {
      MarkedAt(f, |g|);
    } else if w != [] {
      MarkedAt(f, |g| + 1);
    }
  }

  lemma StripPresence(f: Option<string>, p: string)
    ensures var l := Optional(f) + p;
            |l| >= 1 && (if f.None? then l[0] == NUL && l[1..] == p else l[0] == SOH && l[1..] == f.value + [NUL] + p)
  {
    if f.Some? { assert Optional(f) + p == [SOH] + (f.value + [NUL] + p); }
  }

  /** Two readings of the first field: absent in both, the same text, or one text goes on in what follows the other. */
  lemma FieldCut(f: Option<string>, p: string, g: Option<string>, q: string) returns (w: string)
    requires Optional(f) + p == Optional(g) + q
    ensures || (f == g && p == q)
            || (f.Some? && g.Some? && f.value == g.value + [NUL] + w && q == w + [NUL] + p)
            || (f.Some? && g.Some? && g.value == f.value + [NUL] + w && p == w + [NUL] + q)
  {
    StripPresence(f, p);
    StripPresence(g, q);
    w := [];
    if f.Some? { w := CutTwo(f.value, p, g.value, q); }
  }

  lemma TwoFieldsRead(o: Option<string>, n: Option<string>, o': Option<string>, n': Option<string>)
    requires Optional(o) + Optional(n) == Optional(o') + Optional(n')
    ensures (o == o' && n == n') || Marked(o) || (o.Some? && (Marked(n) || EndsInNul(n)))
  {
    var w := FieldCut(o, Optional(n), o', Optional(n'));
    if o == o' && Optional(n) == Optional(n') {
      OptionalInjective(n, n');
    } else if o.value == o'.value + [NUL] + w && Optional(n') == w + [NUL] + Optional(n) {
      LongerOld(o, o'.value, w, n, n');
    } else {
      SwallowedOne(n, w, n');
    }
  }

  lemma SwallowedOne(n: Option<string>, w: string, c: Option<string>)
    requires Optional(n) == w + [NUL] + Optional(c)
    ensures Marked(n) || EndsInNul(n)
  {
    assert [] + Optional(c) == Optional(c);
    Swallowed(n, w, [], c);
  }

  lemma LongerOld(o: Option<string>, g: string, w: string, n: Option<string>, n': Option<string>)
    requires o == Some(g + [NUL] + w) && Optional(n') == w + [NUL] + Optional(n)
    ensures Marked(o)
  {
    var l := w + [NUL] + Optional(n);
    assert |l| >= 2 && n'.Some? && l[0] == SOH;
    assert w != [] && w[0] == SOH;
    MarkedAt(o, |g|);
  }

  lemma FirstStripped(w: string, rest: string)
    ensures var l := w + [NUL] + rest;
            if w == [] then l[0] == NUL && l[1..] == rest else l[0] == w[0] && l[1..] == w[1..] + [NUL] + rest
  {
    assert w == [] ==> w + [NUL] + rest == [NUL] + rest;
  }

  /** Another reading of the payload that takes the field path to go on. */
  lemma PathGoesOn(
    f: Option<string>, o: Option<string>, n: Option<string>, w: string, o': Option<string>, n': Option<string>)
    requires f.Some? && Optional(o) + Optional(n) == w + [NUL] + (Optional(o') + Optional(n'))
    ensures Shiftable(f, o, n)
  {
    StripPresence(o, Optional(n));
    FirstStripped(w, Optional(o') + Optional(n'));
    if w == [] {
      TwoInOne(n, o', n');
    } else {
      if o.None? { Swallowed(n, w[1..], Optional(o'), n'); } else { OldGoesOn(f, o, n, w[1..], o', n'); }
    }
  }

  lemma OldGoesOn(
    f: Option<string>, o: Option<string>, n: Option<string>, w: string, o': Option<string>, n': Option<string>)
    requires f.Some? && o.Some? && o.value + [NUL] + Optional(n) == w + [NUL] + (Optional(o') + Optional(n'))
    ensures Shiftable(f, o, n)
  {
    var rest := Optional(o') + Optional(n');
    var z := CutTwo(o.value, Optional(n), w, rest);
    if o.value == w && Optional(n) == rest {
      TwoInOne(n, o', n');
    } else if o.value == w + [NUL] + z && rest == z + [NUL] + Optional(n) {
      LongerText(o, w, z, Optional(n), o', n');
    } else {
      Swallowed(n, z, Optional(o'), n');
    }
  }

  /** Three payload fields are determined by their bytes unless their boundaries can be shifted. */
  lemma PayloadReads(
    f: Option<string>, o: Option<string>, n: Option<string>, f': Option<string>, o': Option<string>, n': Option<string>)
    requires Payload(f, o, n) == Payload(f', o', n')
    ensures (f == f' && o == o' && n == n') || Shiftable(f, o, n)
  {
    var p, q := Optional(o) + Optional(n), Optional(o') + Optional(n');
    var w := FieldCut(f, p, f', q);
    if f == f' && p == q {
      TwoFieldsRead(o, n, o', n');
    } else if f.value == f'.value + [NUL] + w && q == w + [NUL] + p {
      LongerText(f, f'.value, w, p, o', n');
      StripPresence(o, Optional(n));
    } else {
      PathGoesOn(f, o, n, w, o', n');
    }
  }

  lemma PayloadEndsInNul(f: Option<string>, o: Option<string>, n: Option<string>) returns (p: string)
    ensures Payload(f, o, n) == p + [NUL]
  {
    var l := Payload(f, o, n);
    p := l[..|l| - 1];
    assert l == p + [l[|l| - 1]];
  }

  lemma DecimalIsNulFree(d: int)
    ensures NulFree(Decimal(d)) && Decimal(d) != [] && Decimal(d)[0] != SOH
  {}

  lemma NulMarksPayload(x: ChainInput)
    ensures NUL in Tail(x) <==> x.epoch != 0
  {
    DecimalIsNulFree(x.createdAt);
    if x.epoch != 0 { assert Tail(x)[|Decimal(x.createdAt)|] == NUL; }
  }

  /** The same structural fields and the same bytes after them. */
  lemma SameTailReads(x: ChainInput, y: ChainInput)
    requires Header(x) == Header(y) && Tail(x) == Tail(y)
    requires x.epoch != 0 ==> !Shiftable(x.fieldPath, x.oldValue, x.newValue)
    ensures SameHashedFields(x, y)
  {
    NulMarksPayload(x);
    NulMarksPayload(y);
    DecimalIsNulFree(x.createdAt);
    DecimalIsNulFree(y.createdAt);
    if x.epoch != 0 {
      CutAtSeparator(NUL, Decimal(x.createdAt), PayloadOf(x) + Trailer(x), Decimal(y.createdAt),
          PayloadOf(y) + Trailer(y));
      var p := PayloadEndsInNul(x.fieldPath, x.oldValue, x.newValue);
      var q := PayloadEndsInNul(y.fieldPath, y.oldValue, y.newValue);
      TrailerReads(p, x, q, y);
      PayloadReads(x.fieldPath, x.oldValue, x.newValue, y.fieldPath, y.oldValue, y.newValue);
    }
    DecimalInjective(x.createdAt, y.createdAt);
  }

  /** Bytes that end in a payload and its trailer do not end like an entry of epoch 0. */
  lemma NotATimestamp(p: string, x: ChainInput, u: string, d: int)
    ensures p + [NUL] + Trailer(x) != u + [NUL] + Decimal(d)
  {
    DecimalIsNulFree(d);
    var m := BeforeMetadata(p, x);
    LastOfMetadata(x.metadata);
    HexIsNulFree(x.metadata);
    var l, r := m + [NUL] + Metadata(x.metadata), u + [NUL] + Decimal(d);
    assert l[|l| - 1] == Metadata(x.metadata)[|Metadata(x.metadata)| - 1];
    assert r[|r| - 1] == Decimal(d)[|Decimal(d)| - 1] && r[|r| - 1] in Decimal(d);
    if l == r { CutAtLastSeparator(NUL, m, Metadata(x.metadata), u, Decimal(d)); }
  }

  lemma PayloadThenTrailer(u: string, d: string, q: string, t: string)
    ensures u + [NUL] + (d + [NUL] + (q + [NUL] + t)) == (u + [NUL] + d + [NUL] + q) + [NUL] + t
    ensures (u + [NUL] + d + [NUL] + q) + [NUL] == u + [NUL] + (d + [NUL] + (q + [NUL]))
  {}

  lemma EmbeddedAfter(x: ChainInput, u: string, y: ChainInput)
    requires PayloadOf(x) + Trailer(x) == u + [NUL] + Tail(y)
    ensures Embeds(PayloadOf(x))
  {
    var p := PayloadEndsInNul(x.fieldPath, x.oldValue, x.newValue);
    if y.epoch == 0 {
      NotATimestamp(p, x, u, y.createdAt);
    } else {
      var d := Decimal(y.createdAt);
      var q := PayloadEndsInNul(y.fieldPath, y.oldValue, y.newValue);
      PayloadThenTrailer(u, d, q, Trailer(y));
      TrailerReads(p, x, u + [NUL] + d + [NUL] + q, y);
      assert Splits(PayloadOf(x), u, y.createdAt, y.fieldPath, y.oldValue, y.newValue);
    }
  }

  /** Structural fields that reach into the payload find a timestamp and a payload there. */
  lemma ReachingHeaderEmbeds(x: ChainInput, y: ChainInput, v: string)
    requires Tail(x) == v + [NUL] + Tail(y)
    ensures x.epoch != 0 && Embeds(PayloadOf(x))
  {
    NulMarksPayload(x);
    assert Tail(x)[|v|] == NUL;
    DecimalIsNulFree(x.createdAt);
    CutComesFirst(NUL, Decimal(x.createdAt), PayloadOf(x) + Trailer(x), v, Tail(y));
    FirstBytesDiffer(x, y);
    EmbeddedAfter(x, v[|Decimal(x.createdAt)| + 1..], y);
  }

  lemma FirstBytesDiffer(x: ChainInput, y: ChainInput)
    ensures PayloadOf(x) + Trailer(x) != Tail(y)
  {
    DecimalIsNulFree(y.createdAt);
    var l := PayloadOf(x) + Trailer(x);
    assert l[0] == Optional(x.fieldPath)[0];
    assert Tail(y)[0] == Decimal(y.createdAt)[0] && Decimal(y.createdAt)[0] in Decimal(y.createdAt);
  }

  /**
   The bytes of a legible entry determine every hashed field and which of the two layouts was used. Nothing is asked
   of the other entry.
   */
  lemma PreimageInjective(x: ChainInput, y: ChainInput)
    requires Legible(x) && Preimage(x) == Preimage(y)
    ensures SameHashedFields(x, y)
  {
    var v := HeaderReads(Header(x), Tail(x), Header(y), Tail(y));
    if Header(x) == Header(y) && Tail(x) == Tail(y) {
      SameTailReads(x, y);
    } else {
      ReachingHeaderEmbeds(x, y, v);
    }
  }

  /** An optional field without its final NUL. */
  function Cell(o: Option<string>): string { if o.None? then [] else [SOH] + o.value }

  lemma Ending(o: Option<string>)
    ensures Optional(o) == Cell(o) + [NUL]
  {}

  lemma JoinedThree(a: string, b: string, c: string)
    ensures Joined([a, b, c], []) == a + [NUL] + (b + [NUL] + (c + [NUL]))
  {
    assert [a, b, c][1..] == [b, c] && [b, c][1..] == [c] && [c][1..] == [];
    assert Joined([c], []) == c + [NUL] + Joined([], []);
    assert Joined([b, c], []) == b + [NUL] + Joined([c], []);
  }

  lemma PayloadJoined(f: Option<string>, o: Option<string>, n: Option<string>)
    ensures Payload(f, o, n) == Joined([Cell(f), Cell(o), Cell(n)], [])
  {
    JoinedThree(Cell(f), Cell(o), Cell(n));
    Ending(f);
    Ending(o);
    Ending(n);
  }

  /** Text without NULs is legible. */
  lemma NulFreeIsLegible(x: ChainInput)
    requires NulFreeAll(Header(x)) && NulFreeOption(x.fieldPath) && NulFreeOption(x.oldValue)
            && NulFreeOption(x.newValue)
    ensures Legible(x)
  {
    if Embeds(PayloadOf(x)) {
      var u, d: Nanos, f, o, n :| Splits(PayloadOf(x), u, d, f, o, n);
      PayloadJoined(x.fieldPath, x.oldValue, x.newValue);
      PayloadJoined(f, o, n);
      var three, five := [Cell(x.fieldPath), Cell(x.oldValue), Cell(x.newValue)],
          [u, Decimal(d), Cell(f), Cell(o), Cell(n)];
      assert five[1..] == [Decimal(d), Cell(f), Cell(o), Cell(n)] && five[1..][1..] == [Cell(f), Cell(o), Cell(n)];
      assert Joined(five, []) == u + [NUL] + (Decimal(d) + [NUL] + Payload(f, o, n));
      var v := MoreFieldsReachBeyond(three, [], five, []);
    }
  }

  /** A payload without digits and signs holds no timestamp. */
  lemma NoTimestampInside(payload: string)
    requires forall i :: 0 <= i < |payload| ==> !IsDigit(payload[i]) && payload[i] != '-'
    ensures !Embeds(payload)
  {
    if Embeds(payload) {
      var u, d: Nanos, f, o, n :| Splits(payload, u, d, f, o, n);
      TimestampShows(payload, u, d, f, o, n);
    }
  }

  lemma TimestampShows(payload: string, u: string, d: Nanos, f: Option<string>, o: Option<string>, n: Option<string>)
    requires Splits(payload, u, d, f, o, n)
    ensures |u| + 1 < |payload| && (IsDigit(payload[|u| + 1]) || payload[|u| + 1] == '-')
  {
    assert payload[|u| + 1] == Decimal(d)[0];
  }

  /** Not every NUL harms: one at the end of the field path is legible when the old value is null. */
  lemma HarmlessNul(x: ChainInput)
    requires NulFreeAll(Header(x)) && x.fieldPath == Some("a\0") && x.oldValue == None && x.newValue == Some("b")
    ensures Legible(x)
  {
    assert PayloadOf(x) == [SOH, 'a', NUL, NUL, NUL, SOH, 'b', NUL];
    NoTimestampInside(PayloadOf(x));
  }

  // ---------------------------------------------------------------- another reading

  /** Two fields, the first of them present, read as one. */
  lemma Merges(a: string, o: Option<string>)
    ensures Optional(Some(a)) + Optional(o) == Optional(Some(a + [NUL] + Cell(o)))
  {
    Ending(o);
    OneText(a, Cell(o));
  }

  lemma OneText(a: string, c: string)
    ensures ([SOH] + (a + [NUL])) + (c + [NUL]) == [SOH] + ((a + [NUL] + c) + [NUL])
  {}

  lemma Regroup(a: string, b: string, c: string)
    ensures a + (b + c) == a + b + c
  {}

  /** A field that reads as two. */
  ghost predicate Halves(o: Option<string>, p: string, q: Option<string>)
  {
    Optional(o) == Optional(Some(p)) + Optional(q) && o != Some(p) && o != q
  }

  lemma HalvesOf(o: Option<string>) returns (p: string, q: Option<string>)
    requires Marked(o) || EndsInNul(o)
    ensures Halves(o, p, q) && (Marked(o) ==> q.Some?)
  {
    var s := o.value;
    if Marked(o) {
      var i :| 0 <= i < |s| - 1 && s[i] == NUL && s[i + 1] == SOH;
      p, q := s[..i], Some(s[i + 2..]);
    } else {
      p, q := s[..|s| - 1], None;
    }
    assert s == p + [NUL] + Cell(q);
    Merges(p, q);
  }

  /** The first field is read as two, and the second of them takes in the old value. */
  lemma PathShifts(f: Option<string>, o: Option<string>, n: Option<string>)
    returns (f': Option<string>, o': Option<string>, n': Option<string>)
    requires Marked(f) || (EndsInNul(f) && o.Some?)
    ensures Payload(f', o', n') == Payload(f, o, n) && f' != f
  {
    var p, q := HalvesOf(f);
    f' := Some(p);
    Regroup(Optional(f), Optional(o), Optional(n));
    if q.Some? {
      o', n' := Some(q.value + [NUL] + Cell(o)), n;
      Merges(q.value, o);
      Regroup(Optional(f'), Optional(q), Optional(o));
      Regroup(Optional(f'), Optional(o'), Optional(n'));
    } else {
      o', n' := None, Some(o.value + [NUL] + Cell(n));
      Merges(o.value, n);
      Regroup(Optional(f'), Optional(o'), Optional(n'));
    }
  }

  /** The old value is read as two, and one of them goes to a neighbour. */
  lemma OldShifts(f: Option<string>, o: Option<string>, n: Option<string>)
    returns (f': Option<string>, o': Option<string>, n': Option<string>)
    requires Marked(o) || (EndsInNul(o) && f.Some?)
    ensures Payload(f', o', n') == Payload(f, o, n) && o' != o
  {
    var p, q := HalvesOf(o);
    Regroup(Optional(Some(p)), Optional(q), Optional(n));
    if q.Some? {
      f', o', n' := f, Some(p), Some(q.value + [NUL] + Cell(n));
      Merges(q.value, n);
    } else {
      f', o', n' := Some(f.value + [NUL] + Cell(Some(p))), None, n;
      Merges(f.value, Some(p));
      Regroup(Optional(f), Optional(Some(p)), Optional(q) + Optional(n));
    }
  }

  /** The new value is read as two, and the field in front of it takes in the first. */
  lemma NewShifts(f: Option<string>, o: Option<string>, n: Option<string>)
    returns (f': Option<string>, o': Option<string>, n': Option<string>)
    requires (Marked(n) || EndsInNul(n)) && (f.Some? || o.Some?)
    ensures Payload(f', o', n') == Payload(f, o, n) && n' != n
  {
    var p, q := HalvesOf(n);
    n' := q;
    Regroup(Optional(o), Optional(Some(p)), Optional(q));
    if o.Some? {
      f', o' := f, Some(o.value + [NUL] + Cell(Some(p)));
      Merges(o.value, Some(p));
    } else {
      f', o' := Some(f.value + [NUL] + Cell(o)), Some(p);
      Merges(f.value, o);
      Regroup(Optional(f), Optional(o), Optional(Some(p)) + Optional(q));
    }
  }

  /** Every shiftable payload has a second reading. */
  lemma PayloadCollides(f: Option<string>, o: Option<string>, n: Option<string>)
    returns (f': Option<string>, o': Option<string>, n': Option<string>)
    requires Shiftable(f, o, n)
    ensures Payload(f', o', n') == Payload(f, o, n) && !(f' == f && o' == o && n' == n)
  {
    if Marked(f) || (EndsInNul(f) && o.Some?) {
      f', o', n' := PathShifts(f, o, n);
    } else if Marked(o) || (EndsInNul(o) && f.Some?) {
      f', o', n' := OldShifts(f, o, n);
    } else {
      f', o', n' := NewShifts(f, o, n);
    }
  }

  // ---------------------------------------------------------------- structural fields

  /** Field `k` is cut to `a`, and `b` is given to the field after it. */
  function Moved(fs: seq<string>, k: nat, a: string, b: string): seq<string>
    requires k + 1 < |fs|
  {
    fs[k := a][k + 1 := b + [NUL] + fs[k + 1]]
  }

  lemma {:induction false} BoundaryCanMove(fs: seq<string>, k: nat, a: string, b: string, rest: string)
    requires k + 1 < |fs| && fs[k] == a + [NUL] + b
    ensures Joined(Moved(fs, k, a, b), rest) == Joined(fs, rest)
  {
    var gs := Moved(fs, k, a, b);
    if k == 0 {
      assert fs[1..][1..] == gs[1..][1..];
      JoinedTwo(fs, rest);
      JoinedTwo(gs, rest);
      CutMoves(a, b, fs[1], Joined(fs[1..][1..], rest));
    } else {
      BoundaryCanMove(fs[1..], k - 1, a, b, rest);
      assert gs[1..] == Moved(fs[1..], k - 1, a, b);
    }
  }

  lemma JoinedTwo(fs: seq<string>, rest: string)
    requires |fs| >= 2
    ensures Joined(fs, rest) == fs[0] + [NUL] + (fs[1] + [NUL] + Joined(fs[1..][1..], rest))
  {}

  lemma CutMoves(a: string, b: string, c: string, more: string)
    ensures a + [NUL] + b + [NUL] + (c + [NUL] + more) == a + [NUL] + (b + [NUL] + c + [NUL] + more)
  {}

  function WithHeader(x: ChainInput, hs: seq<string>): (y: ChainInput)
    requires |hs| == 6
    ensures Header(y) == hs && Tail(y) == Tail(x)
  {
    x.(previousHash := hs[0], id := hs[1], tenantId := hs[2], actor := hs[3], action := hs[4], objectKind := hs[5])
  }

  /** A NUL inside a structural field can be read as its end. The preceding hash need not change for that. */
  lemma NulInHeaderCollides(x: ChainInput, k: nat) returns (y: ChainInput)
    requires k < 6 && !NulFree(Header(x)[k])
    ensures Preimage(y) == Preimage(x) && Header(y) != Header(x) && (k > 0 ==> y.previousHash == x.previousHash)
    ensures y.metadata == x.metadata
  {
    var s := Header(x)[k];
    var i :| 0 <= i < |s| && s[i] == NUL;
    var a, b := s[..i], s[i + 1..];
    assert s == a + [NUL] + b;
    if k < 5 {
      y := WithHeader(x, Moved(Header(x), k, a, b));
      BoundaryCanMove(Header(x), k, a, b, Tail(x));
      assert |a| < |s| && Header(y)[k] == a;
    } else {
      var gs := Header(x)[4 := x.action + [NUL] + a][5 := b];
      y := WithHeader(x, gs);
      BoundaryCanMove(gs, 4, x.action, a, Tail(x));
      assert Moved(gs, 4, x.action, a) == Header(x);
      assert |b| < |s| && Header(y)[5] == b;
    }
  }

  /** A payload that holds a timestamp and another payload lets the structural fields reach up to them. */
  lemma EmbeddedCollides(x: ChainInput) returns (y: ChainInput)
    requires x.epoch != 0 && Embeds(PayloadOf(x))
    ensures Preimage(y) == Preimage(x) && Header(y) != Header(x) && y.previousHash == x.previousHash
    ensures y.metadata == x.metadata
  {
    var u, d: Nanos, f, o, n :| Splits(PayloadOf(x), u, d, f, o, n);
    var kind := x.objectKind + [NUL] + Decimal(x.createdAt) + [NUL] + u;
    y := x.(objectKind := kind, createdAt := d, fieldPath := f, oldValue := o, newValue := n);
    assert Trailer(y) == Trailer(x);
    KindAbsorbs(x.objectKind, Decimal(x.createdAt), u, Decimal(d), Payload(f, o, n), Trailer(x));
    LastField(Header(x), Header(y), Tail(x), Tail(y));
    assert |kind| > |x.objectKind| && Header(y)[5] == kind;
  }

  lemma KindAbsorbs(kind: string, d: string, u: string, e: string, payload: string, trailer: string)
    ensures (kind + [NUL] + d + [NUL] + u) + [NUL] + (e + [NUL] + (payload + trailer))
            == kind + [NUL] + (d + [NUL] + ((u + [NUL] + (e + [NUL] + payload)) + trailer))
  {
    var all := kind + [NUL] + d + [NUL] + u + [NUL] + e + [NUL] + payload + trailer;
    assert (kind + [NUL] + d + [NUL] + u) + [NUL] + (e + [NUL] + (payload + trailer)) == all;
    assert kind + [NUL] + (d + [NUL] + ((u + [NUL] + (e + [NUL] + payload)) + trailer)) == all;
  }

  lemma {:induction false} LastField(fs: seq<string>, gs: seq<string>, p: string, q: string)
    requires |fs| == |gs| && fs != [] && fs[..|fs| - 1] == gs[..|fs| - 1]
    requires fs[|fs| - 1] + [NUL] + p == gs[|fs| - 1] + [NUL] + q
    ensures Joined(fs, p) == Joined(gs, q)
  {
    if |fs| == 1 {
      assert fs[1..] == [] && gs[1..] == [];
    } else {
      assert fs[0] == fs[..|fs| - 1][0] == gs[..|fs| - 1][0] == gs[0];
      assert fs[1..][..|fs| - 2] == fs[..|fs| - 1][1..] == gs[..|fs| - 1][1..] == gs[1..][..|fs| - 2];
      LastField(fs[1..], gs[1..], p, q);
    }
  }

  /**
   The restriction is exact: whatever is not legible shares its bytes with an entry that differs in a hashed field.
   */
  lemma IllegibleCollides(x: ChainInput) returns (y: ChainInput)
    requires !Legible(x)
    ensures Preimage(y) == Preimage(x) && !SameHashedFields(x, y)
    ensures y.metadata == x.metadata && (NulFree(x.previousHash) ==> y.previousHash == x.previousHash)
  {
    if !NulFreeAll(Header(x)) {
      var k: nat :| k < 6 && !NulFree(Header(x)[k]);
      y := NulInHeaderCollides(x, k);
    } else if Embeds(PayloadOf(x)) {
      y := EmbeddedCollides(x);
    } else {
      var f, o, n := PayloadCollides(x.fieldPath, x.oldValue, x.newValue);
      y := x.(fieldPath := f, oldValue := o, newValue := n);
      assert Tail(y) == Tail(x) && Header(y) == Header(x);
    }
  }
}
