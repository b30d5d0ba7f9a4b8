/** Standard base64 with padding (section 4 of RFC 4648), decoded as Go's `base64.StdEncoding` does. */
module Base64 {
  import opened Text
  import opened Wrappers

  const PAD: char := '='

  // ---------------------------------------------------------------- the alphabet

  function Symbol(n: nat): (c: char)
    requires n < 64
    ensures Index(c) == Some(n) && c != PAD && c != '\r' && c != '\n'
  {
    if n < 26 then 'A' + n as char
    else if n < 52 then 'a' + (n - 26) as char
    else if n < 62 then '0' + (n - 52) as char
    else if n == 62 then '+' else '/'
  }

  function Index(c: char): (n: Option<nat>)
    ensures n.Some? ==> n.value < 64
  {
    if 'A' <= c <= 'Z' then Some(c as int - 'A' as int)
    else if 'a' <= c <= 'z' then Some(c as int - 'a' as int + 26)
    else if '0' <= c <= '9' then Some(c as int - '0' as int + 52)
    else if c == '+' then Some(62)
    else if c == '/' then Some(63)
    else None
  }

  // ---------------------------------------------------------------- encoding

  predicate IsByte(c: char) { c < (256 as char) }

  function One(a: char): string
    requires IsByte(a)
  {
    [Symbol(a as int / 4), Symbol(a as int % 4 * 16), PAD, PAD]
  }

  function Two(a: char, b: char): string
    requires IsByte(a) && IsByte(b)
  {
    [Symbol(a as int / 4), Symbol(a as int % 4 * 16 + b as int / 16), Symbol(b as int % 16 * 4), PAD]
  }

  function Three(a: char, b: char, c: char): string
    requires IsByte(a) && IsByte(b) && IsByte(c)
  {
    [Symbol(a as int / 4), Symbol(a as int % 4 * 16 + b as int / 16),
     Symbol(b as int % 16 * 4 + c as int / 64), Symbol(c as int % 64)]
  }

  function Encode(s: string): string
    requires IsBytes(s)
    decreases |s|
  {
    if s == [] then []
    else if |s| == 1 then One(s[0])
    else if |s| == 2 then Two(s[0], s[1])
    else Three(s[0], s[1], s[2]) + Encode(s[3..])
  }

  // ---------------------------------------------------------------- decoding

  /** Line breaks in the input are skipped. */
  function Unwrapped(s: string): string
  {
    if s == [] then [] else (if s[0] == '\r' || s[0] == '\n' then [] else [s[0]]) + Unwrapped(s[1..])
  }

  function First(x: nat, y: nat): char
    requires x < 64 && y < 64
  {
    (x * 4 + y / 16) as char
  }

  function Second(y: nat, z: nat): char
    requires y < 64 && z < 64
  {
    (y % 16 * 16 + z / 4) as char
  }

  function Third(z: nat, w: nat): char
    requires z < 64 && w < 64
  {
    (z % 4 * 64 + w) as char
  }

  /** Groups of four symbols; only the last may be padded. Bits that padding leaves over are not checked. */
  function Groups(s: string): Option<string>
    decreases |s|
  {
    if s == [] then Some([])
    else if |s| < 4 then None
    else
      var x, y := Index(s[0]), Index(s[1]);
      if x.None? || y.None? then None
      else if s[2] == PAD then
        if s[3] == PAD && |s| == 4 then Some([First(x.value, y.value)]) else None
      else
        var z := Index(s[2]);
        if z.None? then None
        else if s[3] == PAD then
          if |s| == 4 then Some([First(x.value, y.value), Second(y.value, z.value)]) else None
        else
          var w, rest := Index(s[3]), Groups(s[4..]);
          if w.None? || rest.None? then None
          else Some([First(x.value, y.value), Second(y.value, z.value), Third(z.value, w.value)] + rest.value)
  }

  function Decode(s: string): Option<string> { Groups(Unwrapped(s)) }

  // ---------------------------------------------------------------- round trip

  predicate Plain(s: string) { forall i :: 0 <= i < |s| ==> s[i] != '\r' && s[i] != '\n' }

  lemma {:induction false} UnwrapPlain(s: string)
    requires Plain(s)
    ensures Unwrapped(s) == s
  {
    if s != [] { UnwrapPlain(s[1..]); }
  }

  lemma {:induction false} EncodeIsPlain(s: string)
    requires IsBytes(s)
    ensures Plain(Encode(s)) && (s != [] ==> Encode(s) != [])
    decreases |s|
  {
    if |s| > 2 { EncodeIsPlain(s[3..]); }
  }

  lemma Sextets(a: int, b: int, c: int)
    requires 0 <= a < 256 && 0 <= b < 256 && 0 <= c < 256
    ensures First(a / 4, a % 4 * 16 + b / 16) == a as char
    ensures Second(a % 4 * 16 + b / 16, b % 16 * 4 + c / 64) == b as char
    ensures Third(b % 16 * 4 + c / 64, c % 64) == c as char
  {}

  lemma GroupOfOne(a: char)
    requires IsByte(a)
    ensures Groups(One(a)) == Some([a])
  {
    Sextets(a as int, 0, 0);
    assert First(a as int / 4, a as int % 4 * 16) == a;
  }

  lemma GroupOfTwo(a: char, b: char)
    requires IsByte(a) && IsByte(b)
    ensures Groups(Two(a, b)) == Some([a, b])
  {
    Sextets(a as int, b as int, 0);
  }

  /** Four symbols made from three bytes give them back, whatever follows. */
  lemma GroupOfThree(a: char, b: char, c: char, rest: string)
    requires IsByte(a) && IsByte(b) && IsByte(c)
    ensures Groups(Three(a, b, c) + rest) == if Groups(rest).None? then None else Some([a, b, c] + Groups(rest).value)
  {
    Sextets(a as int, b as int, c as int);
    assert (Three(a, b, c) + rest)[4..] == rest;
  }

  lemma {:induction false} GroupsOfEncode(s: string)
    requires IsBytes(s)
    ensures Groups(Encode(s)) == Some(s)
    decreases |s|
  {
    if |s| == 1 {
      GroupOfOne(s[0]);
      assert s == [s[0]];
    } else if |s| == 2 {
      GroupOfTwo(s[0], s[1]);
      assert s == [s[0], s[1]];
    } else if |s| > 2 {
      GroupsOfEncode(s[3..]);
      GroupOfThree(s[0], s[1], s[2], Encode(s[3..]));
      assert s == [s[0], s[1], s[2]] + s[3..];
    }
  }

  /** Decoding what was encoded gives the bytes back. */
  lemma DecodeOfEncode(s: string)
    requires IsBytes(s)
    ensures Decode(Encode(s)) == Some(s) && (s != [] ==> Encode(s) != [])
  {
    EncodeIsPlain(s);
    UnwrapPlain(Encode(s));
    GroupsOfEncode(s);
  }
}
