/** Opaque page tokens: "v1:<offset>" and "v2:<unix nanoseconds>:<id>" in base64. */
module PageTokens {
  import opened Base64
  import opened Text
  import opened Wrappers

  const INT32: int := 0x8000_0000

  datatype Cursor = Cursor(time: int, id: string)

  datatype Token = First | Offset(offset: int) | Keyset(cursor: Cursor) | Invalid

  /** The position of the first `sep`, or the length of the string. */
  function Find(s: string, sep: char): (k: nat)
    ensures k <= |s| && (k < |s| ==> s[k] == sep) && sep !in s[..k]
  {
    if s == [] || s[0] == sep then 0
    else
      var k := Find(s[1..], sep);
      assert s[..k + 1] == [s[0]] + s[1..][..k];
      k + 1
  }

  function DecodeTokenKind(token: string): Token
  {
    if token == "" then First
    else
      var raw := Decode(token);
      if raw.None? then Invalid
      else if "v1:" <= raw.value then DecodeOffset(raw.value[3..])
      else if "v2:" <= raw.value then DecodeCursor(raw.value[3..])
      else Invalid
  }

  function DecodeOffset(payload: string): Token
  {
    var n := ParseInt(payload, INT32);
    if n.None? || n.value < 0 then Invalid else Offset(n.value)
  }

  /** What follows "v2:" is cut at the first colon; the id must not be empty. */
  function DecodeCursor(payload: string): Token
  {
    var k := Find(payload, ':');
    if k == |payload| || k + 1 == |payload| then Invalid
    else
      var ns := ParseInt(payload[..k], INT64);
      if ns.None? then Invalid else Keyset(Cursor(ns.value, payload[k + 1..]))
  }

  function EncodeCursorToken(c: Cursor): string
    requires IsBytes(c.id)
  {
    CursorBytes(c);
    Encode("v2:" + Decimal(c.time) + ":" + c.id)
  }

  function EncodePageToken(offset: int): string
  {
    Encode("v1:" + Decimal(offset))
  }

  /** The older decoder, which knows offsets only. */
  function DecodePageToken(token: string): Option<int>
  {
    if token == "" then Some(0)
    else
      var raw := Decode(token);
      if raw.None? || !("v1:" <= raw.value) then None
      else
        var n := ParseInt(raw.value[3..], INT32);
        if n.None? || n.value < 0 then None else n
  }

  function Wrap32(n: int): int { (n + INT32) % (2 * INT32) - INT32 }

  function NextPageToken(pageSize: int, resultCount: int, currentOffset: int): string
  {
    if resultCount <= pageSize then "" else EncodePageToken(Wrap32(currentOffset + pageSize))
  }

  // ---------------------------------------------------------------- round trips

  lemma CursorBytes(c: Cursor)
    requires IsBytes(c.id)
    ensures IsBytes("v2:" + Decimal(c.time) + ":" + c.id)
  {}

  lemma FindIs(head: string, tail: string)
    requires ':' !in head
    ensures Find(head + ":" + tail, ':') == |head|
  {
    var s := head + ":" + tail;
    assert forall i :: 0 <= i < |head| ==> s[i] == head[i] && s[i] in head;
    assert s[|head|] == ':' && ':' in s[..|head| + 1];
  }

  lemma PayloadRoundTrip(c: Cursor)
    requires -INT64 <= c.time < INT64
    ensures DecodeCursor(Decimal(c.time) + ":" + c.id) == if c.id == "" then Invalid else Keyset(c)
  {
    var payload := Decimal(c.time) + ":" + c.id;
    FindIs(Decimal(c.time), c.id);
    assert payload[..|Decimal(c.time)|] == Decimal(c.time) && payload[|Decimal(c.time)| + 1..] == c.id;
    ParseOfDecimal(c.time, INT64);
  }

  /**
   A cursor token decodes to the cursor it was made from exactly when the id is not empty; otherwise it is rejected.
   */
  lemma CursorRoundTrip(c: Cursor)
    requires IsBytes(c.id) && -INT64 <= c.time < INT64
    ensures EncodeCursorToken(c) != ""
    ensures DecodeTokenKind(EncodeCursorToken(c)) == if c.id == "" then Invalid else Keyset(c)
    ensures DecodePageToken(EncodeCursorToken(c)) == None
  {
    CursorBytes(c);
    var payload := Decimal(c.time) + ":" + c.id;
    var raw := "v2:" + Decimal(c.time) + ":" + c.id;
    DecodeOfEncode(raw);
    assert raw[3..] == payload && raw[..3] == "v2:" && "v2:" <= raw && raw[1] == '2';
    PayloadRoundTrip(c);
  }

  /** Offset tokens round-trip for every offset a page can start at, and are never taken for cursors. */
  lemma OffsetRoundTrip(offset: int)
    requires -INT32 <= offset < INT32
    ensures EncodePageToken(offset) != ""
    ensures DecodeTokenKind(EncodePageToken(offset)) == if offset < 0 then Invalid else Offset(offset)
    ensures DecodePageToken(EncodePageToken(offset)) == if offset < 0 then None else Some(offset)
  {
    var raw := "v1:" + Decimal(offset);
    DecodeOfEncode(raw);
    assert raw[3..] == Decimal(offset);
    ParseOfDecimal(offset, INT32);
  }

  /** Following offset tokens advances by the page size until the 32-bit offset overflows; that token is rejected. */
  lemma NextOffsetAdvances(pageSize: int, count: int, offset: int)
    requires 0 < pageSize < INT32 && 0 <= offset < INT32 && count > pageSize
    ensures DecodeTokenKind(NextPageToken(pageSize, count, offset))
            == if offset + pageSize < INT32 then Offset(offset + pageSize) else Invalid
  {
    WrapOnce(offset + pageSize);
    OffsetRoundTrip(Wrap32(offset + pageSize));
  }

  /** One overflow of a 32-bit sum of two non-negative numbers makes it negative. */
  lemma WrapOnce(n: int)
    requires 0 <= n < 2 * INT32
    ensures Wrap32(n) == if n < INT32 then n else n - 2 * INT32
  {}
}
