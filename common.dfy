/** Values and string operations shared by the client (JavaScript) and the
    server (Python) models: optional and fallible results, the ASCII part of
    the whitespace that `String.prototype.trim` and `str.strip` remove, ASCII
    lower-casing, decimal rendering and parsing of integers, and joining. */
module Common {

  datatype Option<T> = None | Some(value: T)

  datatype Result<T, E> = Ok(value: T) | Err(error: E)

  // ---------------------------------------------------------------- whitespace

  /** Whitespace removed by JavaScript's `trim` (ASCII characters only). */
  predicate IsJsSpace(c: char) {
    c == ' ' || c == '\t' || c == '\n' || c == '\r' || c == '\U{0B}' || c == '\U{0C}'
  }

  /** Whitespace removed by Python's `str.strip()` (ASCII characters only). */
  predicate IsPySpace(c: char) {
    c == ' ' || c == '\t' || c == '\n' || c == '\r' || c == '\U{0B}' || c == '\U{0C}'
    || ('\U{1C}' <= c <= '\U{1F}')
  }

  predicate AllSpace(s: string, isSpace: char -> bool) {
    forall k :: 0 <= k < |s| ==> isSpace(s[k])
  }

  /** The number of whitespace characters `s` starts with. */
  function LeadingSpaces(s: string, isSpace: char -> bool): (n: nat)
    ensures n <= |s|
  {
    if s == [] || !isSpace(s[0]) then 0 else 1 + LeadingSpaces(s[1..], isSpace)
  }

  /** The number of whitespace characters `s` ends with. */
  function TrailingSpaces(s: string, isSpace: char -> bool): (n: nat)
    ensures n <= |s|
  {
    if s == [] || !isSpace(s[|s| - 1]) then 0 else 1 + TrailingSpaces(s[..|s| - 1], isSpace)
  }

  /** The leading run is whitespace and stops at a non-space character. */
  lemma {:induction false} LeadingSpacesSpec(s: string, isSpace: char -> bool)
    ensures var n := LeadingSpaces(s, isSpace);
      AllSpace(s[..n], isSpace) && (n < |s| ==> !isSpace(s[n]))
  {
    if s != [] && isSpace(s[0]) {
      var n := LeadingSpaces(s, isSpace);
      LeadingSpacesSpec(s[1..], isSpace);
      assert s[..n] == [s[0]] + s[1..][..n - 1];
    }
  }

  /** The trailing run is whitespace and stops at a non-space character. */
  lemma {:induction false} TrailingSpacesSpec(s: string, isSpace: char -> bool)
    ensures var n := TrailingSpaces(s, isSpace);
      AllSpace(s[|s| - n..], isSpace) && (n < |s| ==> !isSpace(s[|s| - n - 1]))
  {
    if s != [] && isSpace(s[|s| - 1]) {
      var n := TrailingSpaces(s, isSpace);
      TrailingSpacesSpec(s[..|s| - 1], isSpace);
      assert s[|s| - n..] == s[..|s| - 1][|s| - n..] + [s[|s| - 1]];
    }
  }

  /** Removes whitespace at both ends. Nothing is left exactly when `s`
      consists of whitespace only; otherwise both ends of the result are
      non-space characters of `s`. */
  function Strip(s: string, isSpace: char -> bool): (r: string)
    ensures |r| <= |s|
    ensures r == [] <==> AllSpace(s, isSpace)
    ensures r != [] ==> !isSpace(r[0]) && !isSpace(r[|r| - 1])
  {
    var n := LeadingSpaces(s, isSpace);
    var left := s[n..];
    var m := TrailingSpaces(left, isSpace);
    LeadingSpacesSpec(s, isSpace);
    TrailingSpacesSpec(left, isSpace);
    var r := left[..|left| - m];
    assert r != [] ==> r[0] == left[0] && r[|r| - 1] == left[|left| - m - 1];
    assert r == [] ==> AllSpace(s, isSpace) by {
      if r == [] {
        assert s == s[..n] + left;
      }
    }
    r
  }

  function JsTrim(s: string): string { Strip(s, IsJsSpace) }

  function PyStrip(s: string): string { Strip(s, IsPySpace) }

  // ---------------------------------------------------------------- case

  function LowerChar(c: char): char {
    if 'A' <= c <= 'Z' then (c as int - 'A' as int + 'a' as int) as char else c
  }

  /** `str.lower()` on the ASCII letters. */
  function Lower(s: string): (r: string)
    ensures |r| == |s|
    ensures forall k :: 0 <= k < |s| ==> r[k] == LowerChar(s[k])
  {
    seq(|s|, k requires 0 <= k < |s| => LowerChar(s[k]))
  }

  lemma LowerIdempotent(s: string)
    ensures Lower(Lower(s)) == Lower(s)
  {
    assert forall k :: 0 <= k < |s| ==> Lower(Lower(s))[k] == Lower(s)[k];
  }

  /** Lower-casing keeps every character's whitespace status. */
  predicate CaseBlind(isSpace: char -> bool) {
    forall c :: isSpace(LowerChar(c)) == isSpace(c)
  }

  lemma {:induction false} LeadingLower(s: string, isSpace: char -> bool)
    requires CaseBlind(isSpace)
    ensures LeadingSpaces(Lower(s), isSpace) == LeadingSpaces(s, isSpace)
  {
    if s != [] {
      assert Lower(s)[1..] == Lower(s[1..]);
      LeadingLower(s[1..], isSpace);
    }
  }

  lemma {:induction false} TrailingLower(s: string, isSpace: char -> bool)
    requires CaseBlind(isSpace)
    ensures TrailingSpaces(Lower(s), isSpace) == TrailingSpaces(s, isSpace)
  {
    if s != [] {
      assert Lower(s)[..|s| - 1] == Lower(s[..|s| - 1]);
      TrailingLower(s[..|s| - 1], isSpace);
    }
  }

  /** Stripping and lower-casing can be done in either order. */
  lemma StripLower(s: string)
    ensures PyStrip(Lower(s)) == Lower(PyStrip(s))
  {
    var n := LeadingSpaces(s, IsPySpace);
    LeadingLower(s, IsPySpace);
    assert Lower(s)[n..] == Lower(s[n..]);
    TrailingLower(s[n..], IsPySpace);
  }

  // ---------------------------------------------------------------- decimal

  predicate IsDigit(c: char) { '0' <= c <= '9' }

  predicate AllDigits(s: string) { forall k :: 0 <= k < |s| ==> IsDigit(s[k]) }

  function DigitChar(d: nat): char
    requires d < 10
  {
    ('0' as int + d) as char
  }

  function DigitValue(c: char): nat
    requires IsDigit(c)
  {
    c as int - '0' as int
  }

  /** The number a string of decimal digits denotes (most significant first). */
  function DecimalValue(s: string): nat
    requires AllDigits(s)
  {
    if s == [] then 0 else DecimalValue(s[..|s| - 1]) * 10 + DigitValue(s[|s| - 1])
  }

  /** `str(n)` / `n.toString()` for a natural number: digits only, no
      leading zero, at most two digits below 100, and read back as `n`. */
  function NatToDecimal(n: nat): (r: string)
    ensures |r| >= 1 && AllDigits(r)
    ensures r[0] != '0' || n == 0
    ensures n < 100 ==> |r| <= 2
    ensures DecimalValue(r) == n
  {
    if n < 10 then [DigitChar(n)]
    else
      var r := NatToDecimal(n / 10) + [DigitChar(n % 10)];
      assert r[..|r| - 1] == NatToDecimal(n / 10);
      r
  }

  /** Leading zeros do not change the value of a digit string. */
  lemma {:induction false} LeadingZeros(z: nat, s: string)
    requires AllDigits(s)
    ensures AllDigits(seq(z, _ => '0') + s)
    ensures DecimalValue(seq(z, _ => '0') + s) == DecimalValue(s)
  {
    var t := seq(z, _ => '0') + s;
    if s == [] {
      if z > 0 {
        assert t[..|t| - 1] == seq(z - 1, _ => '0') + s;
        LeadingZeros(z - 1, s);
      }
    } else {
      assert t[..|t| - 1] == seq(z, _ => '0') + s[..|s| - 1];
      LeadingZeros(z, s[..|s| - 1]);
    }
  }

  /** `str(i)` for any integer: a minus sign before the digits of `-i`. */
  function IntToString(i: int): (r: string)
    ensures i >= 0 ==> r == NatToDecimal(i)
    ensures i < 0 ==> r == "-" + NatToDecimal(-i)
  {
    if i < 0 then "-" + NatToDecimal(-i) else NatToDecimal(i)
  }

  /** Python's `int(s)` on a string: surrounding whitespace, an optional sign
      and one or more ASCII digits; anything else raises, which is `None`. */
  function ParsePyInt(s: string): (r: Option<int>)
    ensures r.Some? ==> !AllSpace(s, IsPySpace)
  {
    ParseSigned(PyStrip(s))
  }

  /** An optional sign followed by one or more ASCII digits. */
  function ParseSigned(t: string): (r: Option<int>)
    ensures r.Some? ==> t != []
  {
    if t == [] then None
    else if t[0] == '-' || t[0] == '+' then
      var digits := t[1..];
      if digits != [] && AllDigits(digits) then
        var magnitude: int := DecimalValue(digits);
        Some(if t[0] == '-' then -magnitude else magnitude)
      else None
    else if AllDigits(t) then Some(DecimalValue(t))
    else None
  }

  /** A string whose two ends are not whitespace is left as it is. */
  lemma StripKeeps(s: string, isSpace: char -> bool)
    requires s != [] && !isSpace(s[0]) && !isSpace(s[|s| - 1])
    ensures Strip(s, isSpace) == s
  {
    assert LeadingSpaces(s, isSpace) == 0;
    assert s[0..] == s;
    assert TrailingSpaces(s, isSpace) == 0;
  }

  /** Printing an integer and parsing it back gives the same integer; the
      printed form has no surrounding whitespace. */
  lemma ParsePrinted(i: int)
    ensures PyStrip(IntToString(i)) == IntToString(i)
    ensures ParsePyInt(IntToString(i)) == Some(i)
  {
    var s := IntToString(i);
    var d := NatToDecimal(if i < 0 then -i else i);
    assert IsDigit(d[|d| - 1]) && IsDigit(d[0]);
    assert s[|s| - 1] == d[|d| - 1];
    StripKeeps(s, IsPySpace);
    if i < 0 {
      assert s[1..] == d;
    } else {
      assert s == d;
    }
  }

  // ---------------------------------------------------------------- join

  /** `Array.prototype.join(sep)` / `sep.join(parts)`. */
  function Join(parts: seq<string>, sep: string): (r: string)
    ensures parts == [] ==> r == []
    ensures |parts| == 1 ==> r == parts[0]
  {
    if parts == [] then []
    else if |parts| == 1 then parts[0]
    else Join(parts[..|parts| - 1], sep) + sep + parts[|parts| - 1]
  }
}
