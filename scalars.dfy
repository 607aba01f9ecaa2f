/**
 * Rust's `str::parse` for the two target types the request accessors use:
 * `i32` (an optional `+` or `-` sign followed by one or more ASCII decimal
 * digits, whose value must fit in 32 bits) and `bool` (exactly `true` or
 * `false`).
 */
module Scalars {
  import opened Results

  const I32_MIN: int := -0x8000_0000
  const I32_MAX: int := 0x7FFF_FFFF

  /** Rust's `i32`. */
  type i32 = x: int | I32_MIN <= x <= I32_MAX

  predicate IsDigit(c: char) {
    '0' <= c <= '9'
  }

  predicate AllDigits(s: string) {
    forall k :: 0 <= k < |s| ==> IsDigit(s[k])
  }

  function DigitValue(c: char): (d: nat)
    requires IsDigit(c)
    ensures d < 10
  {
    (c as int) - ('0' as int)
  }

  function DigitChar(d: nat): (c: char)
    requires d < 10
    ensures IsDigit(c) && DigitValue(c) == d
  {
    (('0' as int) + d) as char
  }

  /** The value of a string of decimal digits, most significant first. */
  function DigitsValue(s: string): nat
    requires AllDigits(s)
    decreases |s|
  {
    if s == [] then 0 else DigitsValue(s[..|s| - 1]) * 10 + DigitValue(s[|s| - 1])
  }

  /**
   * `s.parse::<i32>()`.  Rust accumulates with checked arithmetic; since
   * every partial value lies between zero and the final value, an overflow
   * happens exactly when the final value is outside the `i32` range.
   */
  function ParseI32(s: string): (r: Option<i32>)
    ensures r.Some? ==> s != [] && Unsigned(s) != [] && AllDigits(Unsigned(s))
  {
    if s == [] then None
    else if (s[0] == '+' || s[0] == '-') && |s| == 1 then None
    else
      var digits := Unsigned(s);
      if !AllDigits(digits) then None
      else
        var v: int := if s[0] == '-' then -(DigitsValue(digits) as int) else DigitsValue(digits);
        if I32_MIN <= v <= I32_MAX then Some(v) else None
  }

  /** The digits after an optional leading sign. */
  function Unsigned(s: string): string
    requires s != []
  {
    if s[0] == '+' || s[0] == '-' then s[1..] else s
  }

  /** `s.parse::<bool>()`. */
  function ParseBool(s: string): (r: Option<bool>)
    ensures r == Some(true) <==> s == "true"
    ensures r == Some(false) <==> s == "false"
    ensures r.None? <==> s != "true" && s != "false"
  {
    if s == "true" then Some(true) else if s == "false" then Some(false) else None
  }

  // ---------------------------------------------------------------------
  // Decimal rendering, the inverse of ParseI32
  // ---------------------------------------------------------------------

  /** The shortest decimal digits of `n`. */
  function NatDigits(n: nat): (s: string)
    ensures s != [] && AllDigits(s)
    decreases n
  {
    if n < 10 then [DigitChar(n)] else NatDigits(n / 10) + [DigitChar(n % 10)]
  }

  /** Rust's `Display` for an integer: a `-` for negatives, then the digits. */
  function FormatInt(v: int): string {
    if v < 0 then "-" + NatDigits(-v) else NatDigits(v)
  }

  lemma {:induction false} NatDigitsValue(n: nat)
    ensures DigitsValue(NatDigits(n)) == n
    decreases n
  {
    if n >= 10 {
      var s := NatDigits(n);
      NatDigitsValue(n / 10);
      assert s[..|s| - 1] == NatDigits(n / 10);
    }
  }

  /** A run of digits parses to its value when that fits in an `i32`. */
  lemma ParseDigits(d: string)
    requires d != [] && AllDigits(d) && DigitsValue(d) <= I32_MAX
    ensures ParseI32(d) == Some(DigitsValue(d))
  {
    assert IsDigit(d[0]);
    assert Unsigned(d) == d;
  }

  /** A minus sign before a run of digits negates its value. */
  lemma ParseNegatedDigits(d: string)
    requires d != [] && AllDigits(d) && DigitsValue(d) <= -I32_MIN
    ensures ParseI32("-" + d).Some? && ParseI32("-" + d).value == -(DigitsValue(d) as int)
  {
    var s := "-" + d;
    assert s[0] == '-' && |s| > 1;
    assert Unsigned(s) == d;
  }

  /** A plus sign before a run of digits changes nothing. */
  lemma ParsePlusDigits(d: string)
    requires d != [] && AllDigits(d)
    ensures ParseI32("+" + d) == ParseI32(d)
  {
    var s := "+" + d;
    assert s[0] == '+' && |s| > 1;
    assert Unsigned(s) == d;
    assert IsDigit(d[0]);
    assert Unsigned(d) == d;
  }

  /** A value outside the `i32` range is an overflow, whatever the sign. */
  lemma ParseOverflow(d: string)
    requires d != [] && AllDigits(d)
    ensures DigitsValue(d) > I32_MAX ==> ParseI32(d).None? && ParseI32("+" + d).None?
    ensures DigitsValue(d) > -I32_MIN ==> ParseI32("-" + d).None?
  {
    var s := "-" + d;
    assert s[0] == '-' && |s| > 1;
    assert Unsigned(s) == d;
    ParsePlusDigits(d);
    assert IsDigit(d[0]);
    assert Unsigned(d) == d;
  }

  /** Parsing the decimal rendering of any `i32` gives the number back. */
  lemma ParseFormat(v: i32)
    ensures ParseI32(FormatInt(v)) == Some(v)
  {
    if v < 0 {
      var n: nat := -(v as int);
      NatDigitsValue(n);
      ParseNegatedDigits(NatDigits(n));
    } else {
      NatDigitsValue(v);
      ParseDigits(NatDigits(v));
    }
  }
}
