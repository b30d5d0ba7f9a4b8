/**
 The byte string that is hashed for one audit entry: NUL-terminated structural fields, then, from epoch 1 on,
 payload fields with a presence byte in front. Says exactly which inputs the bytes determine.
 */
module AuditEncoding {
  import opened Text
  import opened Wrappers

  const NUL: char := '\0'
  const SOH: char := (1 as char)

  type Bytes = s: string | IsBytes(s)

  datatype ChainInput = ChainInput(
    previousHash: string,
    id: string,
    tenantId: string,
    actor: string,
    action: string,
    objectKind: string,
    createdAt: Nanos,
    epoch: int,
    fieldPath: Option<string>,
    oldValue: Option<string>,
    newValue: Option<string>,
    configVersion: Option<int>,
    metadata: Bytes)

  // ---------------------------------------------------------------- encoding

  function HexDigit(d: nat): char
    requires d < 16
  {
    if d < 10 then '0' + d as char else 'a' + (d - 10) as char
  }

  /** `hex.EncodeToString`. */
  function Hex(s: Bytes): string
  {
    if s == [] then [] else [HexDigit(s[0] as int / 16), HexDigit(s[0] as int % 16)] + Hex(s[1..])
  }

  /** Each field as `%s\x00`, and then the rest. */
  function Joined(fs: seq<string>, rest: string): string
  {
    if fs == [] then rest else fs[0] + [NUL] + Joined(fs[1..], rest)
  }

  /** A presence byte followed, when present, by `%s\x00`. */
  function Optional(o: Option<string>): string
  {
    if o.None? then [NUL] else [SOH] + (o.value + [NUL])
  }

  function Header(x: ChainInput): seq<string>
  {
    [x.previousHash, x.id, x.tenantId, x.actor, x.action, x.objectKind]
  }

  function Payload(fieldPath: Option<string>, oldValue: Option<string>, newValue: Option<string>): string
  {
    Optional(fieldPath) + (Optional(oldValue) + Optional(newValue))
  }

  function PayloadOf(x: ChainInput): string { Payload(x.fieldPath, x.oldValue, x.newValue) }

  function Number(o: Option<int>): Option<string> { if o.None? then None else Some(Decimal(o.value)) }

  function Metadata(meta: Bytes): string
  {
    if meta == [] then [NUL] else [SOH] + Hex(meta)
  }

  /** What follows the payload. */
  function Trailer(x: ChainInput): string { Optional(Number(x.configVersion)) + Metadata(x.metadata) }

  function Tail(x: ChainInput): string
  {
    if x.epoch == 0 then Decimal(x.createdAt)
    else Decimal(x.createdAt) + [NUL] + (PayloadOf(x) + Trailer(x))
  }

  /** The bytes fed to SHA-256. `metadata` is the document after JSON normalisation. */
  function Preimage(x: ChainInput): string { Joined(Header(x), Tail(x)) }

  // ---------------------------------------------------------------- what the bytes determine

  predicate NulFree(s: string) { NUL !in s }

  predicate NulFreeOption(o: Option<string>) { o.Some? ==> NulFree(o.value) }

  predicate NulFreeAll(fs: seq<string>) { forall i :: 0 <= i < |fs| ==> NulFree(fs[i]) }

  /** Agreement on everything the hash covers: epoch 0 covers the structural fields only. */
  predicate SameHashedFields(x: ChainInput, y: ChainInput)
  {
    && Header(x) == Header(y)
    && x.createdAt == y.createdAt
    && (x.epoch == 0 <==> y.epoch == 0)
    && (x.epoch != 0 ==>
          && x.fieldPath == y.fieldPath && x.oldValue == y.oldValue && x.newValue == y.newValue
          && x.configVersion == y.configVersion && x.metadata == y.metadata)
  }

  /** A NUL that is followed by what looks like the presence byte of the next field. */
  predicate Marked(o: Option<string>)
  {
    o.Some? && exists i :: 0 <= i < |o.value| - 1 && o.value[i] == NUL && o.value[i + 1] == SOH
  }

  predicate EndsInNul(o: Option<string>) { o.Some? && o.value != [] && o.value[|o.value| - 1] == NUL }

  /** The boundaries between the three payload fields can be put elsewhere. */
  predicate Shiftable(fieldPath: Option<string>, oldValue: Option<string>, newValue: Option<string>)
  {
    || Marked(fieldPath) || Marked(oldValue)
    || ((Marked(newValue) || EndsInNul(newValue)) && (fieldPath.Some? || oldValue.Some?))
    || (EndsInNul(fieldPath) && oldValue.Some?)
    || (EndsInNul(oldValue) && fieldPath.Some?)
  }

  /** `payload` ends in a NUL, a timestamp and a whole other payload. */
  predicate Splits(payload: string, u: string, d: Nanos, f: Option<string>, o: Option<string>, n: Option<string>)
  {
    payload == u + [NUL] + (Decimal(d) + [NUL] + Payload(f, o, n))
  }

  ghost predicate Embeds(payload: string)
  {
    exists u, d: Nanos, f, o, n :: Splits(payload, u, d, f, o, n)
  }

  /** The payload can be read in one way only. */
  ghost predicate LegiblePayload(f: Option<string>, o: Option<string>, n: Option<string>)
  {
    !Shiftable(f, o, n) && !Embeds(Payload(f, o, n))
  }

  /** The bytes can be read in one way only. */
  ghost predicate Legible(x: ChainInput)
  {
    NulFreeAll(Header(x)) && (x.epoch != 0 ==> LegiblePayload(x.fieldPath, x.oldValue, x.newValue))
  }

  // ---------------------------------------------------------------- structural fields

  lemma {:induction false} JoinedEndsInNul(fs: seq<string>, rest: string) returns (v: string)
    requires fs != []
    ensures Joined(fs, rest) == v + [NUL] + rest
  {
    if |fs| == 1 {
      v := fs[0];
      assert Joined(fs[1..], rest) == rest;
    } else {
      var w := JoinedEndsInNul(fs[1..], rest);
      v := fs[0] + [NUL] + w;
      assert fs[0] + [NUL] + (w + [NUL] + rest) == v + [NUL] + rest;
    }
  }

  /** More fields than a NUL-free list has reach beyond it. */
  lemma {:induction false} MoreFieldsReachBeyond(
    fs: seq<string>, p: string, gs: seq<string>, q: string)
    returns (v: string)
    requires NulFreeAll(fs) && |fs| < |gs| && Joined(fs, p) == Joined(gs, q)
    ensures p == v + [NUL] + q
    decreases |fs|
  {
    if fs == [] {
      v := JoinedEndsInNul(gs, q);
    } else {
      var f, g := fs[0], gs[0];
      CutComesFirst(NUL, f, Joined(fs[1..], p), g, Joined(gs[1..], q));
      if f == g {
        v := MoreFieldsReachBeyond(fs[1..], p, gs[1..], q);
      } else {
        var hs := [g[|f| + 1..]] + gs[1..];
        assert hs[1..] == gs[1..];
        v := MoreFieldsReachBeyond(fs[1..], p, hs, q);
      }
    }
  }

  /**
   Against a NUL-free list, a list of the same length is the same list, or its fields hold NULs and reach into what
   follows the first.
   */
  lemma {:induction false} HeaderReads(fs: seq<string>, p: string, gs: seq<string>, q: string) returns (v: string)
    requires NulFreeAll(fs) && |fs| == |gs| && Joined(fs, p) == Joined(gs, q)
    ensures (fs == gs && p == q) || p == v + [NUL] + q
    decreases |fs|
  {
    v := [];
    if fs != [] {
      var f, g := fs[0], gs[0];
      CutComesFirst(NUL, f, Joined(fs[1..], p), g, Joined(gs[1..], q));
      if f == g {
        v := HeaderReads(fs[1..], p, gs[1..], q);
        assert fs == [f] + fs[1..] && gs == [g] + gs[1..];
      } else {
        var hs := [g[|f| + 1..]] + gs[1..];
        assert hs[1..] == gs[1..];
        v := MoreFieldsReachBeyond(fs[1..], p, hs, q);
      }
    }
  }

  // ---------------------------------------------------------------- the trailer

  lemma {:induction false} HexInjective(s: Bytes, t: Bytes)
    requires Hex(s) == Hex(t)
    ensures s == t
  {
    if s != [] && t != [] {
      assert Hex(s)[2..] == Hex(s[1..]) && Hex(t)[2..] == Hex(t[1..]);
      HexInjective(s[1..], t[1..]);
      assert Hex(s)[0] == Hex(t)[0] && Hex(s)[1] == Hex(t)[1];
      assert s == [s[0]] + s[1..] && t == [t[0]] + t[1..];
    }
  }

  lemma {:induction false} HexIsNulFree(s: Bytes)
    ensures NulFree(Hex(s))
  {
    if s != [] { HexIsNulFree(s[1..]); }
  }

  /** Bytes that end in a NUL before the metadata: the metadata can be cut off. */
  lemma MetadataReads(a: string, x: Bytes, b: string, y: Bytes)
    requires a + [NUL] + Metadata(x) == b + [NUL] + Metadata(y)
    ensures a == b && x == y
  {
    HexIsNulFree(x);
    HexIsNulFree(y);
    var l, r := a + [NUL] + Metadata(x), b + [NUL] + Metadata(y);
    assert l[|l| - 1] == r[|r| - 1];
    LastOfMetadata(x);
    LastOfMetadata(y);
    assert l[|l| - 1] == Metadata(x)[|Metadata(x)| - 1] && r[|r| - 1] == Metadata(y)[|Metadata(y)| - 1];
    if x == [] {
      assert l[..|l| - 1] == a + [NUL] && r[..|r| - 1] == b + [NUL];
      assert a == (a + [NUL])[..|a|] && b == (b + [NUL])[..|b|];
    } else {
      CutAtLastSeparator(NUL, a, Metadata(x), b, Metadata(y));
      assert Metadata(x)[1..] == Hex(x) && Metadata(y)[1..] == Hex(y);
      HexInjective(x, y);
    }
  }

  lemma LastOfMetadata(x: Bytes)
    ensures Metadata(x) != [] && (Metadata(x)[|Metadata(x)| - 1] == NUL <==> x == [])
  {
    if x != [] {
      HexIsNulFree(x);
      assert Hex(x)[|Hex(x)| - 1] in Hex(x);
    }
  }

  /** The optional number without the NUL that ends it. */
  function NumberText(m: Option<int>): string { if m.None? then [] else [SOH] + Decimal(m.value) }

  lemma NumberEndsInNul(a: string, m: Option<int>)
    ensures NulFree(NumberText(m)) && a + [NUL] + Optional(Number(m)) == (a + [NUL] + NumberText(m)) + [NUL]
  {
    if m.Some? { assert Optional(Number(m)) == [SOH] + Decimal(m.value) + [NUL]; }
  }

  lemma SameFront(a: string, b: string)
    requires a + [NUL] == b + [NUL]
    ensures a == b
  {
    assert (a + [NUL])[..|a|] == a && (b + [NUL])[..|b|] == b && |a + [NUL]| == |b + [NUL]|;
  }

  /** The same for the optional number, which holds no NUL. */
  lemma NumberReads(a: string, m: Option<int>, b: string, n: Option<int>)
    requires a + [NUL] + Optional(Number(m)) == b + [NUL] + Optional(Number(n))
    ensures a == b && m == n
  {
    NumberEndsInNul(a, m);
    NumberEndsInNul(b, n);
    SameFront(a + [NUL] + NumberText(m), b + [NUL] + NumberText(n));
    CutAtLastSeparator(NUL, a, NumberText(m), b, NumberText(n));
    if m.Some? {
      assert NumberText(m)[1..] == Decimal(m.value) && NumberText(n)[1..] == Decimal(n.value);
      DecimalInjective(m.value, n.value);
    }
  }

  /** What follows a NUL at the end of the bytes: the trailer can be cut off, and its parts are determined. */
  lemma TrailerReads(a: string, x: ChainInput, b: string, y: ChainInput)
    requires a + [NUL] + Trailer(x) == b + [NUL] + Trailer(y)
    ensures a == b && x.configVersion == y.configVersion && x.metadata == y.metadata
  {
    var p := BeforeMetadata(a, x);
    var q := BeforeMetadata(b, y);
    MetadataReads(p, x.metadata, q, y.metadata);
    NumberReads(a, x.configVersion, b, y.configVersion);
  }

  lemma BeforeMetadata(a: string, x: ChainInput) returns (p: string)
    ensures a + [NUL] + Trailer(x) == p + [NUL] + Metadata(x.metadata)
    ensures a + [NUL] + Optional(Number(x.configVersion)) == p + [NUL]
  {
    var m := Optional(Number(x.configVersion));
    p := a + [NUL] + m[..|m| - 1];
    assert m == m[..|m| - 1] + [NUL];
  }
}
