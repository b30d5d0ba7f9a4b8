/**
 Strings as the Go code sees them: sequences of bytes, one `char` per byte, compared byte by byte.
 Holds the decimal rendering used by `%d`, its inverse `strconv.ParseInt`, and the order of `sort.Strings`.
 */
module Text {
  import opened Wrappers

  const INT64: int := 0x8000_0000_0000_0000

  /** A time as `UnixNano` gives it. */
  type Nanos = d: int | -INT64 <= d < INT64

  predicate IsBytes(s: string) { forall i :: 0 <= i < |s| ==> s[i] < (256 as char) }

  // ---------------------------------------------------------------- decimal numbers

  predicate IsDigit(c: char) { '0' <= c <= '9' }

  predicate AllDigits(s: string) { forall i :: 0 <= i < |s| ==> IsDigit(s[i]) }

  function DecimalNat(n: nat): (s: string)
    ensures |s| > 0 && AllDigits(s)
  {
    if n < 10 then ['0' + n as char] else DecimalNat(n / 10) + ['0' + (n % 10) as char]
  }

  /** Rendering of `%d`. */
  function Decimal(n: int): (s: string)
    ensures |s| > 0
    ensures forall i :: 0 <= i < |s| ==> IsDigit(s[i]) || s[i] == '-'
  {
    if n < 0 then ['-'] + DecimalNat(-n) else DecimalNat(n)
  }

  function DigitsValue(s: string): nat
    requires AllDigits(s)
  {
    if s == [] then 0 else 10 * DigitsValue(s[..|s| - 1]) + (s[|s| - 1] as int - '0' as int)
  }

  /** `strconv.ParseInt(s, 10, bits)`: one optional sign, at least one digit, inside the signed range of that width. */
  function ParseInt(s: string, limit: int): Option<int>
  {
    var negative := s != [] && s[0] == '-';
    var digits := if s != [] && (s[0] == '-' || s[0] == '+') then s[1..] else s;
    if digits == [] || !AllDigits(digits) then None
    else
      var n: int := if negative then 0 - DigitsValue(digits) else DigitsValue(digits);
      if -limit <= n < limit then Some(n) else None
  }

  lemma {:induction false} DigitsOfDecimal(n: nat)
    ensures DigitsValue(DecimalNat(n)) == n
  {
    if n < 10 {
      assert DecimalNat(n)[..0] == [];
    } else {
      var s := DecimalNat(n);
      assert s[..|s| - 1] == DecimalNat(n / 10);
      DigitsOfDecimal(n / 10);
    }
  }

  /** Parsing what was printed gives the number back, for every number of that width. */
  lemma ParseOfDecimal(n: int, limit: int)
    requires -limit <= n < limit
    ensures ParseInt(Decimal(n), limit) == Some(n)
  {
    if n < 0 {
      DigitsOfDecimal(-n);
      assert Decimal(n)[1..] == DecimalNat(-n);
    } else {
      DigitsOfDecimal(n);
      assert IsDigit(Decimal(n)[0]);
    }
  }

  lemma DecimalInjective(a: int, b: int)
    requires Decimal(a) == Decimal(b)
    ensures a == b
  {
    var limit := 1 + (if a < 0 then -a else a) + (if b < 0 then -b else b);
    ParseOfDecimal(a, limit);
    ParseOfDecimal(b, limit);
  }

  // ---------------------------------------------------------------- separators

  /** Two strings cut at the first occurrence of a separator that their heads do not contain. */
  lemma CutAtSeparator(sep: char, a: string, x: string, b: string, y: string)
    requires sep !in a && sep !in b
    requires a + [sep] + x == b + [sep] + y
    ensures a == b && x == y
  {
    var l := a + [sep] + x;
    assert l[|a|] == sep && l[|b|] == sep;
    assert forall i :: 0 <= i < |a| ==> l[i] == a[i] && l[i] in a;
    assert forall i :: 0 <= i < |b| ==> l[i] == b[i] && l[i] in b;
    assert |a| == |b|;
    assert a == l[..|a|] == b;
    assert x == l[|a| + 1..] == y;
  }

  /** Two strings cut at the last occurrence of a separator that their tails do not contain. */
  lemma CutAtLastSeparator(sep: char, a: string, x: string, b: string, y: string)
    requires sep !in x && sep !in y
    requires a + [sep] + x == b + [sep] + y
    ensures a == b && x == y
  {
    var l := a + [sep] + x;
    assert l[|a|] == sep && l[|b|] == sep;
    assert forall i :: |a| < i < |l| ==> l[i] == x[i - |a| - 1] && l[i] in x;
    assert forall i :: |b| < i < |l| ==> l[i] == y[i - |b| - 1] && l[i] in y;
    assert |a| == |b|;
    assert a == l[..|a|] == b;
    assert x == l[|a| + 1..] == y;
  }

  /** Of two strings cut at a separator, the one whose head does not contain it is cut first. */
  lemma CutComesFirst(sep: char, a: string, x: string, b: string, y: string)
    requires sep !in a && a + [sep] + x == b + [sep] + y
    ensures (a == b && x == y) || (|a| < |b| && b[..|a| + 1] == a + [sep] && x == b[|a| + 1..] + [sep] + y)
  {
    var l := a + [sep] + x;
    assert l[|a|] == sep && l[|b|] == sep;
    assert forall i :: 0 <= i < |a| ==> l[i] == a[i] && l[i] in a;
    assert |a| <= |b|;
    if |a| == |b| {
      assert a == l[..|a|] == b;
      assert x == l[|a| + 1..] == y;
    } else {
      assert b == l[..|b|];
      assert b[..|a| + 1] == l[..|a| + 1] == a + [sep];
      assert x == l[|a| + 1..] == b[|a| + 1..] + [sep] + y;
    }
  }

  // ---------------------------------------------------------------- byte order

  /** The order of Go's `<` on strings. */
  predicate Less(a: string, b: string)
  {
    b != [] && (a == [] || a[0] < b[0] || (a[0] == b[0] && Less(a[1..], b[1..])))
  }

  predicate AtMost(a: string, b: string) { a == b || Less(a, b) }

  lemma {:induction false} LessTotal(a: string, b: string)
    ensures a == b || Less(a, b) || Less(b, a)
  {
    if a != [] && b != [] {
      LessTotal(a[1..], b[1..]);
      assert a == [a[0]] + a[1..] && b == [b[0]] + b[1..];
    }
  }

  lemma {:induction false} LessIrreflexive(a: string)
    ensures !Less(a, a)
  {
    if a != [] { LessIrreflexive(a[1..]); }
  }

  lemma {:induction false} LessTransitive(a: string, b: string, c: string)
    requires Less(a, b) && Less(b, c)
    ensures Less(a, c)
  {
    if a != [] && a[0] == b[0] && b[0] == c[0] { LessTransitive(a[1..], b[1..], c[1..]); }
  }
}
