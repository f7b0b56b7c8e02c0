/**
 * Decimal integers as Go's `strconv` package reads and writes them in base 10,
 * with the int64 range check of `ParseInt(s, 10, 64)`.
 */
module Decimal {
  import opened Optional

  const MaxInt64: int := 0x7FFF_FFFF_FFFF_FFFF
  const MinInt64: int := -0x8000_0000_0000_0000

  predicate IsDigit(c: char) {
    '0' <= c <= '9'
  }

  predicate AllDigits(s: string) {
    forall i :: 0 <= i < |s| ==> IsDigit(s[i])
  }

  function DigitValue(c: char): nat
    requires IsDigit(c)
  {
    (c as int) - ('0' as int)
  }

  function DigitChar(d: nat): (c: char)
    requires d < 10
    ensures IsDigit(c) && DigitValue(c) == d
  {
    ('0' as int + d) as char
  }

  /** Value of a string of decimal digits, most significant first. */
  function DecimalValue(s: string): nat
    requires AllDigits(s)
    decreases |s|
  {
    if |s| == 0 then 0 else DecimalValue(s[..|s| - 1]) * 10 + DigitValue(s[|s| - 1])
  }

  /** Shortest decimal spelling of a natural number. */
  function FormatNat(n: nat): (s: string)
    ensures |s| > 0 && AllDigits(s)
    ensures DecimalValue(s) == n
    decreases n
  {
    if n < 10 then [DigitChar(n)]
    else
      var p := FormatNat(n / 10);
      var s := p + [DigitChar(n % 10)];
      assert s[..|s| - 1] == p;
      s
  }

  /** Decimal spelling of an integer, with `-` for negatives (Go's `FormatInt(n, 10)`). */
  function FormatInt(n: int): string {
    if n < 0 then "-" + FormatNat(-n) else FormatNat(n)
  }

  /**
   * `strconv.ParseInt(s, 10, 64)`: an optional `+` or `-`, then one or more
   * decimal digits (no underscores in base 10), with the value in int64 range.
   * `None` stands for the returned error (syntax or range).
   */
  function ParseInt64(s: string): (r: Option<int>)
    ensures r.Some? <==>
      |s| > 0 &&
      var digits := if s[0] == '+' || s[0] == '-' then s[1..] else s;
      |digits| > 0 && AllDigits(digits) &&
      (if s[0] == '-' then DecimalValue(digits) <= -MinInt64 else DecimalValue(digits) <= MaxInt64)
    ensures r.Some? ==> MinInt64 <= r.value <= MaxInt64
    ensures r.Some? ==> (r.value < 0 ==> s[0] == '-')
    // the value is that of the digits, negated after `-`
    ensures r.Some? ==>
      (|s| > 0 &&
       var digits := if s[0] == '+' || s[0] == '-' then s[1..] else s;
       AllDigits(digits) &&
       (if s[0] == '-' then r.value == -(DecimalValue(digits) as int) else r.value == DecimalValue(digits)))
  {
    if |s| == 0 then None
    else
      var neg := s[0] == '-';
      var digits := if s[0] == '+' || s[0] == '-' then s[1..] else s;
      if |digits| == 0 || !AllDigits(digits) then None
      else
        var v: int := if neg then 0 - DecimalValue(digits) else DecimalValue(digits);
        if v < MinInt64 || v > MaxInt64 then None else Some(v)
  }

  /** Formatting and parsing back is the identity on the int64 range. */
  lemma {:induction false} ParseFormatInt(n: int)
    requires MinInt64 <= n <= MaxInt64
    ensures ParseInt64(FormatInt(n)) == Some(n)
  {
    if n < 0 {
      var s := FormatInt(n);
      assert s[1..] == FormatNat(-n);
    } else {
      var s := FormatNat(n);
      assert s[0] != '+' && s[0] != '-' by {
        assert IsDigit(s[0]);
      }
    }
  }

  /** An explicit `+` sign is accepted as well. */
  lemma {:induction false} ParsePlusFormatNat(n: nat)
    requires n <= MaxInt64
    ensures ParseInt64("+" + FormatNat(n)) == Some(n)
  {
    assert ("+" + FormatNat(n))[1..] == FormatNat(n);
  }
}
