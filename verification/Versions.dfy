/**
 Resource versions as text (pkg/storage/filepath/version.go).

 A version is an unsigned 64-bit number that travels in object metadata as decimal text.
 `ParseUint` and `FormatUint` follow Go's strconv for base 10 and 64 bits: the parser reads
 left to right and stops at the first character that is not a digit or at the first prefix
 that no longer fits in 64 bits; the formatter divides by ten.
 */
module Versions {
  import opened Wrappers

  // One more than the largest unsigned 64-bit number
  const LIMIT: nat := 0x1_0000_0000_0000_0000

  datatype ParseError = Syntax | Range

  predicate IsDigit(c: char) {
    '0' <= c <= '9'
  }

  function DigitValue(c: char): (d: nat)
    requires IsDigit(c)
    ensures d < 10
  {
    c as int - '0' as int
  }

  function DigitChar(d: nat): (c: char)
    requires d < 10
    ensures IsDigit(c) && DigitValue(c) == d
  {
    (d + '0' as int) as char
  }

  /** The digits are the ten decimal ones, in their order. */
  lemma DigitsAreDecimal(c: char, d: nat)
    requires d < 10
    ensures IsDigit(c) <==> c in "0123456789"
    ensures IsDigit("0123456789"[d]) && DigitValue("0123456789"[d]) == d && DigitChar(d) == "0123456789"[d]
  {
    var all := "0123456789";
    if IsDigit(c) { assert all[DigitValue(c)] == c; }
  }

  predicate AllDigits(s: string) {
    forall i :: 0 <= i < |s| ==> IsDigit(s[i])
  }

  /** Positional value of the digits `s` written after a number `n`; the reference for the parser. */
  function Horner(n: nat, s: string): (v: nat)
    requires AllDigits(s)
    ensures n <= v
  {
    if s == "" then n else Horner(n, s[..|s| - 1]) * 10 + DigitValue(s[|s| - 1])
  }

  function ParseDigits(s: string, n: nat): Result<nat, ParseError>
    decreases |s|
  {
    if s == "" then Success(n)
    else if !IsDigit(s[0]) then Failure(Syntax)
    else if n * 10 + DigitValue(s[0]) >= LIMIT then Failure(Range)
    else ParseDigits(s[1..], n * 10 + DigitValue(s[0]))
  }

  function ParseUint(s: string): Result<nat, ParseError> {
    if s == "" then Failure(Syntax) else ParseDigits(s, 0)
  }

  function FormatUint(v: nat): (s: string)
    ensures s != "" && AllDigits(s)
  {
    if v < 10 then [DigitChar(v)] else FormatUint(v / 10) + [DigitChar(v % 10)]
  }

  function ParseResourceVersion(v: string): Result<nat, ParseError> {
    if v == "" then Success(0) else ParseUint(v)
  }

  function FormatResourceVersion(v: nat): string
    requires v < LIMIT
  {
    FormatUint(v)
  }

  lemma {:induction false} HornerFirst(n: nat, s: string)
    requires s != "" && AllDigits(s)
    ensures AllDigits(s[1..])
    ensures Horner(n, s) == Horner(n * 10 + DigitValue(s[0]), s[1..])
    decreases |s|
  {
    var front := s[..|s| - 1];
    if front != "" {
      HornerFirst(n, front);
      assert s[1..][..|s[1..]| - 1] == front[1..];
    } else {
      assert s[1..] == "";
    }
  }

  lemma {:induction false} ParseDigitsIsHorner(s: string, n: nat)
    requires n < LIMIT
    ensures ParseDigits(s, n).Success? <==> AllDigits(s) && Horner(n, s) < LIMIT
    ensures ParseDigits(s, n).Success? ==> ParseDigits(s, n).value == Horner(n, s)
    decreases |s|
  {
    if s != "" && IsDigit(s[0]) {
      var next := n * 10 + DigitValue(s[0]);
      if AllDigits(s[1..]) {
        assert AllDigits(s) by {
          forall i | 0 <= i < |s| ensures IsDigit(s[i]) {
            if i > 0 { assert s[i] == s[1..][i - 1]; }
          }
        }
        HornerFirst(n, s);
      } else {
        var i :| 0 <= i < |s[1..]| && !IsDigit(s[1..][i]);
        assert s[i + 1] == s[1..][i];
      }
      if next < LIMIT {
        ParseDigitsIsHorner(s[1..], next);
      }
    }
  }

  /** Exactly which texts are versions: the empty text, and digit strings whose value fits in 64 bits. */
  lemma ParseAcceptsExactly(text: string, v: nat)
    ensures ParseResourceVersion(text) == Success(v)
       <==> if text == "" then v == 0
            else AllDigits(text) && Horner(0, text) == v && v < 18_446_744_073_709_551_616
  {
    ParseDigitsIsHorner(text, 0);
  }

  /**
   Every other text is rejected, as out of range exactly if some prefix of it is a number too large
   for 64 bits, before any character that is not a digit.
   */
  lemma ParseRejectsTheRest(text: string)
    requires text != ""
    ensures ParseResourceVersion(text) == Failure(Range) <==>
              exists k :: 0 <= k <= |text| && TooLarge(0, text, k)
    ensures !AllDigits(text) ==> ParseResourceVersion(text).Failure?
  {
    ParseDigitsIsHorner(text, 0);
    RangeErrors(text, 0);
  }

  lemma {:induction false} RangeErrors(s: string, n: nat)
    requires n < LIMIT
    ensures ParseDigits(s, n) == Failure(Range) <==> exists k :: 0 <= k <= |s| && TooLarge(n, s, k)
    decreases |s|
  {
    assert s[..0] == "";
    if s != "" && IsDigit(s[0]) {
      var next := n * 10 + DigitValue(s[0]);
      forall k | 1 <= k <= |s| ensures TooLarge(n, s, k) <==> TooLarge(next, s[1..], k - 1) {
        TooLargeFirst(n, s, k);
      }
      if next >= LIMIT {
        assert s[1..][..0] == "" && TooLarge(next, s[1..], 1 - 1) && TooLarge(n, s, 1);
      } else {
        RangeErrors(s[1..], next);
        if k :| 0 <= k <= |s[1..]| && TooLarge(next, s[1..], k) { assert TooLarge(n, s, k + 1); }
        if k :| 0 <= k <= |s| && TooLarge(n, s, k) { assert k >= 1 && TooLarge(next, s[1..], k - 1); }
      }
    } else if s != "" {
      forall k | 0 <= k <= |s| ensures !TooLarge(n, s, k) {
        assert k == 0 || s[..k][0] == s[0];
      }
    }
  }

  // The first `k` characters, written after `n`, are a number that does not fit.
  predicate TooLarge(n: nat, s: string, k: nat)
    requires k <= |s|
  {
    AllDigits(s[..k]) && Horner(n, s[..k]) >= LIMIT
  }

  lemma TooLargeFirst(n: nat, s: string, k: nat)
    requires 1 <= k <= |s| && IsDigit(s[0])
    ensures TooLarge(n, s, k) <==> TooLarge(n * 10 + DigitValue(s[0]), s[1..], k - 1)
  {
    var a, b := s[..k], s[1..][..k - 1];
    assert a[1..] == b;
    assert AllDigits(b) ==> AllDigits(a) by {
      forall i | 0 <= i < k && AllDigits(b) ensures IsDigit(a[i]) {
        assert i == 0 || a[i] == b[i - 1];
      }
    }
    if AllDigits(a) { HornerFirst(n, a); }
  }

  /** Some versions and their texts. */
  lemma DecimalTexts()
    ensures ParseResourceVersion("7") == Success(7) && FormatResourceVersion(7) == "7"
    ensures ParseResourceVersion("120") == Success(120) && FormatResourceVersion(120) == "120"
  {
    assert FormatUint(7) == "7" && FormatUint(120) == "120";
    VersionRoundTrip(7);
    VersionRoundTrip(120);
  }

  lemma {:induction false} FormatIsPositional(v: nat)
    ensures Horner(0, FormatUint(v)) == v
  {
    if v >= 10 {
      FormatIsPositional(v / 10);
      var s := FormatUint(v);
      assert s[..|s| - 1] == FormatUint(v / 10);
    } else {
      assert FormatUint(v)[..0] == "";
    }
  }

  /** Every version survives the trip through its text, and its text is never the empty (version 0) text. */
  lemma VersionRoundTrip(v: nat)
    requires v < LIMIT
    ensures ParseResourceVersion(FormatResourceVersion(v)) == Success(v)
    ensures FormatResourceVersion(v) != ""
  {
    FormatIsPositional(v);
    ParseAcceptsExactly(FormatUint(v), v);
  }

  lemma FormatInjective(v: nat, w: nat)
    requires v < LIMIT && w < LIMIT
    requires FormatResourceVersion(v) == FormatResourceVersion(w)
    ensures v == w
  {
    VersionRoundTrip(v);
    VersionRoundTrip(w);
  }
}
