/**
 The per-tenant audit hash chain: entry hashes, verification, and what a log that verifies proves about its contents.
 */
module AuditChain {
  import opened AuditEncoding
  import opened AuditReading
  import opened Text
  import opened Wrappers

  /** What an audit row records, apart from the chain hashes. */
  datatype Content = Content(
    id: string,
    tenantId: string,
    actor: string,
    action: string,
    objectKind: string,
    fieldPath: Option<string>,
    oldValue: Option<string>,
    newValue: Option<string>,
    configVersion: Option<int>,
    metadata: string,
    chainEpoch: int,
    createdAt: Nanos)

  datatype Entry = Entry(content: Content, previousHash: string, entryHash: string)

  /** After a preceding hash without NULs, the bytes of the entry can be read in one way only. */
  ghost predicate Readable(e: Content)
  {
    && NulFree(e.id) && NulFree(e.tenantId) && NulFree(e.actor) && NulFree(e.action) && NulFree(e.objectKind)
    && (e.chainEpoch != 0 ==> LegiblePayload(e.fieldPath, e.oldValue, e.newValue))
  }

  /** Text without NULs is readable. */
  lemma NulFreeIsReadable(e: Content)
    requires NulFree(e.id) && NulFree(e.tenantId) && NulFree(e.actor) && NulFree(e.action) && NulFree(e.objectKind)
    requires NulFreeOption(e.fieldPath) && NulFreeOption(e.oldValue) && NulFreeOption(e.newValue)
    ensures Readable(e)
  {
    NulFreeIsLegible(Input(_ => [], [], e));
  }

  /** Agreement on everything the hash covers besides the preceding hash. */
  predicate SameContent(normalize: string -> Bytes, e: Content, f: Content)
  {
    && e.id == f.id && e.tenantId == f.tenantId && e.actor == f.actor && e.action == f.action
    && e.objectKind == f.objectKind && e.createdAt == f.createdAt
    && (e.chainEpoch == 0 <==> f.chainEpoch == 0)
    && (e.chainEpoch != 0 ==>
          && e.fieldPath == f.fieldPath && e.oldValue == f.oldValue && e.newValue == f.newValue
          && e.configVersion == f.configVersion && normalize(e.metadata) == normalize(f.metadata))
  }

  /** The entry hash as a function of the preceding hash and the entry, and the JSON normaliser applied to metadata. */
  datatype Hasher = Hasher(hash: (string, Content) -> string, normalize: string -> Bytes)
  {
    /**
     Hashes are never empty. Whatever the text of the entry, its hash fixes the preceding hash; that of a readable
     entry fixes the content too.
     */
    ghost predicate Binding()
    {
      && (forall p, e {:trigger hash(p, e)} :: hash(p, e) != [] && NulFree(hash(p, e)))
      && (forall p, e, q, f {:trigger hash(p, e), hash(q, f)} ::
            NulFree(p) && NulFree(q) && hash(p, e) == hash(q, f) ==> p == q)
      && (forall p, e, q, f {:trigger hash(p, e), hash(q, f)} ::
            Readable(e) && NulFree(p) && hash(p, e) == hash(q, f)
            ==> p == q && SameContent(normalize, e, f))
    }
  }

  function Input(normalize: string -> Bytes, prev: string, e: Content): ChainInput
  {
    ChainInput(prev, e.id, e.tenantId, e.actor, e.action, e.objectKind, e.createdAt, e.chainEpoch,
               e.fieldPath, e.oldValue, e.newValue, e.configVersion, normalize(e.metadata))
  }

  function Encoder(normalize: string -> Bytes): (string, Content) -> string
  {
    (prev: string, e: Content) => Preimage(Input(normalize, prev, e))
  }

  function DigestOf(digest: string -> string, encode: (string, Content) -> string, normalize: string -> Bytes): Hasher
  {
    Hasher((prev: string, e: Content) => digest(encode(prev, e)), normalize)
  }

  /** The hasher of the code: the digest of the delimited encoding. */
  function ChainHasher(digest: string -> string, normalize: string -> Bytes): Hasher
  {
    DigestOf(digest, Encoder(normalize), normalize)
  }

  ghost predicate SoundDigest(digest: string -> string)
  {
    && (forall x, y {:trigger digest(x), digest(y)} :: digest(x) == digest(y) ==> x == y)
    && (forall x :: digest(x) != [] && NulFree(digest(x)))
  }

  ghost predicate Determines(encode: (string, Content) -> string, normalize: string -> Bytes)
  {
    && (forall p, e, q, f {:trigger encode(p, e), encode(q, f)} ::
          NulFree(p) && NulFree(q) && encode(p, e) == encode(q, f) ==> p == q)
    && (forall p, e, q, f {:trigger encode(p, e), encode(q, f)} ::
          Readable(e) && NulFree(p) && encode(p, e) == encode(q, f)
          ==> p == q && SameContent(normalize, e, f))
  }

  lemma DigestIsBinding(digest: string -> string, encode: (string, Content) -> string, normalize: string -> Bytes)
    requires SoundDigest(digest) && Determines(encode, normalize)
    ensures DigestOf(digest, encode, normalize).Binding()
  {
    var h := DigestOf(digest, encode, normalize);
    assert forall p, e :: h.hash(p, e) == digest(encode(p, e));
  }

  lemma EncoderDetermines(normalize: string -> Bytes)
    ensures Determines(Encoder(normalize), normalize)
  {
    var encode := Encoder(normalize);
    forall p, e, q, f {:trigger encode(p, e), encode(q, f)} | Readable(e) && NulFree(p) && encode(p, e) == encode(q, f)
      ensures p == q && SameContent(normalize, e, f)
    {
      InputsAgree(normalize, p, e, q, f);
    }
    forall p, e, q, f {:trigger encode(p, e), encode(q, f)} | NulFree(p) && NulFree(q) && encode(p, e) == encode(q, f)
      ensures p == q
    {
      FirstFieldReads(Input(normalize, p, e), Input(normalize, q, f));
    }
  }

  /** The first NUL ends the preceding hash. */
  lemma FirstFieldReads(x: ChainInput, y: ChainInput)
    requires NulFree(x.previousHash) && NulFree(y.previousHash) && Preimage(x) == Preimage(y)
    ensures x.previousHash == y.previousHash
  {
    CutAtSeparator(NUL, x.previousHash, Joined(Header(x)[1..], Tail(x)),
                   y.previousHash, Joined(Header(y)[1..], Tail(y)));
  }

  lemma InputsAgree(normalize: string -> Bytes, p: string, e: Content, q: string, f: Content)
    requires Readable(e) && NulFree(p)
    requires Preimage(Input(normalize, p, e)) == Preimage(Input(normalize, q, f))
    ensures p == q && SameContent(normalize, e, f)
  {
    var x, y := Input(normalize, p, e), Input(normalize, q, f);
    PreimageInjective(x, y);
    assert forall i :: 0 <= i < 6 ==> Header(x)[i] == Header(y)[i];
    assert Header(x)[0] == p && Header(y)[0] == q;
  }

  /** An injective digest with non-empty, NUL-free output makes the entry hash binding. */
  lemma ChainHasherIsBinding(digest: string -> string, normalize: string -> Bytes)
    requires SoundDigest(digest)
    ensures ChainHasher(digest, normalize).Binding()
  {
    EncoderDetermines(normalize);
    DigestIsBinding(digest, Encoder(normalize), normalize);
  }

  ghost predicate AllReadable(es: seq<Entry>) { forall i :: 0 <= i < |es| ==> Readable(es[i].content) }

  /** The stored hash in front of position `i`: empty at the root. */
  function PrevHash(es: seq<Entry>, i: nat): string
    requires i <= |es|
  {
    if i == 0 then [] else es[i - 1].entryHash
  }

  ghost predicate Matches(h: Hasher, es: seq<Entry>, i: nat)
    requires i < |es|
  {
    es[i].entryHash == h.hash(PrevHash(es, i), es[i].content)
  }

  /** Every stored hash is the hash recomputed over the entry and the stored hash before it. */
  ghost predicate Verified(h: Hasher, es: seq<Entry>)
  {
    forall i :: 0 <= i < |es| ==> Matches(h, es, i)
  }

  /** Every entry names the one before it. */
  predicate Linked(es: seq<Entry>)
  {
    forall i {:trigger PrevHash(es, i)} :: 0 <= i < |es| ==> es[i].previousHash == PrevHash(es, i)
  }

  // ---------------------------------------------------------------- verification

  datatype Break = Break(entryId: string, position: nat, got: string, want: string)

  function BreakAt(h: Hasher, es: seq<Entry>, i: nat): Break
    requires i < |es|
  {
    Break(es[i].content.id, i, es[i].entryHash, h.hash(PrevHash(es, i), es[i].content))
  }

  /** The breaks among the first `n` positions. */
  function Breaks(h: Hasher, es: seq<Entry>, n: nat): seq<Break>
    requires n <= |es|
  {
    if n == 0 then []
    else
      var b := BreakAt(h, es, n - 1);
      Breaks(h, es, n - 1) + (if b.got != b.want then [b] else [])
  }

  /** One left-to-right pass collects the breaks; the log is accepted exactly when every hash is as recomputed. */
  method VerifyChain(h: Hasher, entries: seq<Entry>) returns (total: nat, breaks: seq<Break>, ok: bool)
    ensures total == |entries| && breaks == Breaks(h, entries, |entries|)
    ensures ok <==> Verified(h, entries)
  {
    total := |entries|;
    breaks := [];
    var prev := "";
    for i := 0 to |entries|
      invariant prev == PrevHash(entries, i)
      invariant breaks == Breaks(h, entries, i)
    {
      var e := entries[i];
      var want := h.hash(prev, e.content);
      if e.entryHash != want {
        breaks := breaks + [Break(e.content.id, i, e.entryHash, want)];
      }
      prev := e.entryHash;
    }
    ok := |breaks| == 0;
    BreaksAreExact(h, entries, |entries|);
    assert breaks != [] ==> !Matches(h, entries, breaks[0].position);
  }

  /** Positions that differ, each once, in order, with the stored and the expected hash. */
  ghost predicate Real(h: Hasher, es: seq<Entry>, n: nat, bs: seq<Break>)
    requires n <= |es|
  {
    && (forall k :: 0 <= k < |bs| ==>
          bs[k].position < n && bs[k] == BreakAt(h, es, bs[k].position) && !Matches(h, es, bs[k].position))
    && (forall k, l :: 0 <= k < l < |bs| ==> bs[k].position < bs[l].position)
  }

  /** Exactly the positions that differ. */
  ghost predicate ExactReport(h: Hasher, es: seq<Entry>, n: nat, bs: seq<Break>)
    requires n <= |es|
  {
    Real(h, es, n, bs) && forall i :: 0 <= i < n && !Matches(h, es, i) ==> Reported(bs, i)
  }

  ghost predicate Reported(bs: seq<Break>, i: nat) { exists k :: 0 <= k < |bs| && bs[k].position == i }

  lemma BreaksAreExact(h: Hasher, es: seq<Entry>, n: nat)
    requires n <= |es|
    ensures ExactReport(h, es, n, Breaks(h, es, n))
  {
    BreaksAreReal(h, es, n);
    forall i | 0 <= i < n && !Matches(h, es, i) ensures Reported(Breaks(h, es, n), i) {
      BreaksAreComplete(h, es, n, i);
    }
  }

  lemma {:induction false} BreaksAreReal(h: Hasher, es: seq<Entry>, n: nat)
    requires n <= |es|
    ensures Real(h, es, n, Breaks(h, es, n))
  {
    if n > 0 {
      BreaksAreReal(h, es, n - 1);
      RealExtends(h, es, n, Breaks(h, es, n - 1));
    }
  }

  lemma RealExtends(h: Hasher, es: seq<Entry>, n: nat, bs: seq<Break>)
    requires 0 < n <= |es| && Real(h, es, n - 1, bs)
    ensures Real(h, es, n, bs) && (!Matches(h, es, n - 1) ==> Real(h, es, n, bs + [BreakAt(h, es, n - 1)]))
  {}

  lemma {:induction false} BreaksAreComplete(h: Hasher, es: seq<Entry>, n: nat, i: nat)
    requires i < n <= |es| && !Matches(h, es, i)
    ensures Reported(Breaks(h, es, n), i)
  {
    var shorter, bs := Breaks(h, es, n - 1), Breaks(h, es, n);
    if i < n - 1 {
      BreaksAreComplete(h, es, n - 1, i);
      StillReported(shorter, bs, i);
    } else {
      assert bs[|shorter|].position == i;
    }
  }

  lemma StillReported(bs: seq<Break>, more: seq<Break>, i: nat)
    requires Reported(bs, i) && bs <= more
    ensures Reported(more, i)
  {
    var k :| 0 <= k < |bs| && bs[k].position == i;
    assert more[k].position == i;
  }

  // ---------------------------------------------------------------- tamper evidence

  lemma PrevHashShape(h: Hasher, es: seq<Entry>, i: nat)
    requires h.Binding() && Verified(h, es) && i <= |es|
    ensures NulFree(PrevHash(es, i)) && (PrevHash(es, i) == [] <==> i == 0)
  {
    if i > 0 { assert Matches(h, es, i - 1); }
  }

  /** Behind equal hashes lie equal preceding hashes, and the same content if one of the entries is readable. */
  lemma StepBack(h: Hasher, a: seq<Entry>, n: nat, b: seq<Entry>, m: nat)
    requires h.Binding() && Verified(h, a) && Verified(h, b)
    requires 0 < n <= |a| && 0 < m <= |b| && PrevHash(a, n) == PrevHash(b, m)
    ensures PrevHash(a, n - 1) == PrevHash(b, m - 1)
    ensures Readable(a[n - 1].content) ==> SameContent(h.normalize, a[n - 1].content, b[m - 1].content)
  {
    PrevHashShape(h, a, n - 1);
    PrevHashShape(h, b, m - 1);
    assert Matches(h, a, n - 1) && Matches(h, b, m - 1);
  }

  lemma {:induction false} PrefixesAgree(h: Hasher, a: seq<Entry>, n: nat, b: seq<Entry>, m: nat)
    requires h.Binding() && AllReadable(a) && Verified(h, a) && Verified(h, b)
    requires n <= |a| && m <= |b| && PrevHash(a, n) == PrevHash(b, m)
    ensures n == m && forall i :: 0 <= i < n ==> SameContent(h.normalize, a[i].content, b[i].content)
  {
    PrevHashShape(h, a, n);
    PrevHashShape(h, b, m);
    if n > 0 {
      StepBack(h, a, n, b, m);
      PrefixesAgree(h, a, n - 1, b, m - 1);
    }
  }

  /**
   A log that verifies and ends in the same hash as a readable one has the same length and agrees with it on every
   hashed field, whatever text it holds.
   */
  lemma TamperEvidence(h: Hasher, a: seq<Entry>, b: seq<Entry>)
    requires h.Binding() && AllReadable(a) && Verified(h, a) && Verified(h, b)
    requires PrevHash(a, |a|) == PrevHash(b, |b|)
    ensures |a| == |b|
    ensures forall i :: 0 <= i < |a| ==> SameContent(h.normalize, a[i].content, b[i].content)
  {
    PrefixesAgree(h, a, |a|, b, |b|);
  }

  /** The condition is exact: an entry that is not readable can be replaced without changing any hash. */
  lemma UnreadableGoesUnseen(digest: string -> string, normalize: string -> Bytes, a: seq<Entry>, i: nat)
    returns (b: seq<Entry>)
    requires forall x :: NulFree(digest(x))
    requires Verified(ChainHasher(digest, normalize), a) && i < |a| && !Readable(a[i].content)
    ensures |b| == |a| && Verified(ChainHasher(digest, normalize), b) && PrevHash(b, |b|) == PrevHash(a, |a|)
    ensures !SameContent(normalize, a[i].content, b[i].content)
    ensures forall j :: 0 <= j < |a| && j != i ==> b[j] == a[j]
  {
    var h, e, prev := ChainHasher(digest, normalize), a[i].content, PrevHash(a, i);
    assert NulFree(prev) by { if i > 0 { assert Matches(h, a, i - 1); } }
    var f := Imposter(normalize, prev, e);
    b := a[i := a[i].(content := f)];
    ReplacedVerifies(h, a, i, f);
  }

  /** An entry may be exchanged for one with the same hash after the same predecessor. */
  lemma ReplacedVerifies(h: Hasher, a: seq<Entry>, i: nat, f: Content)
    requires Verified(h, a) && i < |a| && h.hash(PrevHash(a, i), f) == h.hash(PrevHash(a, i), a[i].content)
    ensures var b := a[i := a[i].(content := f)]; Verified(h, b) && PrevHash(b, |b|) == PrevHash(a, |a|)
  {
    var b := a[i := a[i].(content := f)];
    forall j | 0 <= j < |b| ensures Matches(h, b, j) {
      assert Matches(h, a, j) && PrevHash(b, j) == PrevHash(a, j);
    }
  }

  lemma LegibleIsReadable(normalize: string -> Bytes, prev: string, e: Content)
    requires Legible(Input(normalize, prev, e))
    ensures Readable(e)
  {
    var hs := Header(Input(normalize, prev, e));
    assert NulFree(hs[1]) && NulFree(hs[2]) && NulFree(hs[3]) && NulFree(hs[4]) && NulFree(hs[5]);
  }

  lemma Imposter(normalize: string -> Bytes, prev: string, e: Content) returns (f: Content)
    requires NulFree(prev) && !Readable(e)
    ensures Preimage(Input(normalize, prev, f)) == Preimage(Input(normalize, prev, e)) && !SameContent(normalize, e, f)
  {
    var x := Input(normalize, prev, e);
    assert !Legible(x) by { if Legible(x) { LegibleIsReadable(normalize, prev, e); } }
    var y := IllegibleCollides(x);
    f := Content(y.id, y.tenantId, y.actor, y.action, y.objectKind, y.fieldPath, y.oldValue, y.newValue,
                 y.configVersion, e.metadata, y.epoch, y.createdAt);
    assert Input(normalize, prev, f) == y;
  }

  /** Logs that verify and end in the same hash are equally long, whatever text they hold. */
  lemma {:induction false} SameEndSameLength(h: Hasher, a: seq<Entry>, n: nat, b: seq<Entry>, m: nat)
    requires h.Binding() && Verified(h, a) && Verified(h, b)
    requires n <= |a| && m <= |b| && PrevHash(a, n) == PrevHash(b, m)
    ensures n == m
  {
    PrevHashShape(h, a, n);
    PrevHashShape(h, b, m);
    if n > 0 {
      StepBack(h, a, n, b, m);
      SameEndSameLength(h, a, n - 1, b, m - 1);
    }
  }

  /** In a log that verifies no hash repeats: a repeat would give two prefixes of different length the same end. */
  lemma HashesDistinct(h: Hasher, es: seq<Entry>, i: nat, j: nat)
    requires h.Binding() && Verified(h, es) && i < j <= |es|
    ensures PrevHash(es, i) != PrevHash(es, j)
  {
    if PrevHash(es, i) == PrevHash(es, j) { SameEndSameLength(h, es, i, es, j); }
  }
}
