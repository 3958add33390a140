/** Decimal text of integers: what `int.ToString()` writes and what
    `Convert.ToByte/ToInt16/ToUInt16/ToInt32/ToUInt32` accept, reduced to an
    optional sign followed by ASCII digits (no culture-specific forms). */
module Decimal {
  import opened Wrappers

  predicate IsDigit(c: char) { '0' <= c <= '9' }

  predicate AllDigits(s: string) { forall i :: 0 <= i < |s| ==> IsDigit(s[i]) }

  function DigitChar(d: nat): (c: char)
    requires d < 10
    ensures IsDigit(c) && c as int - '0' as int == d
  {
    ('0' as int + d) as char
  }

  /** The decimal digits of `n`, most significant first, without leading zeros. */
  function ShowNat(n: nat): (s: string)
    ensures |s| >= 1 && AllDigits(s)
    ensures |s| > 1 ==> s[0] != '0'
  {
    if n < 10 then [DigitChar(n)] else ShowNat(n / 10) + [DigitChar(n % 10)]
  }

  /** `int.ToString()`: a leading '-' for negative values. */
  function ShowInt(n: int): string
  {
    if n < 0 then "-" + ShowNat(-n) else ShowNat(n)
  }

  /** The value of a digit string read most significant first. */
  function DigitsValue(s: string): nat
    requires AllDigits(s)
  {
    if s == [] then 0 else 10 * DigitsValue(s[..|s| - 1]) + (s[|s| - 1] as int - '0' as int)
  }

  /** An optional '+' or '-' followed by at least one digit; anything else is None. */
  function ParseInteger(s: string): (r: Option<int>)
    ensures r.Some? ==> |s| >= 1
  {
    if s == [] then None
    else if s[0] == '-' || s[0] == '+' then
      var digits := s[1..];
      if digits != [] && AllDigits(digits) then
        (if s[0] == '-' then Some(0 - DigitsValue(digits)) else Some(DigitsValue(digits)))
      else None
    else if AllDigits(s) then Some(DigitsValue(s))
    else None
  }

  /** Convert.ToXxx for an integer type whose range is [lo, hi]: a FormatException or
      an OverflowException becomes BadNumber. */
  function ParseInRange(s: string, lo: int, hi: int): (r: Result<int>)
    ensures r.Ok? ==> lo <= r.value <= hi && ParseInteger(s) == Some(r.value)
    ensures r.Err? ==> r.error == BadNumber(s)
    ensures ParseInteger(s).Some? && lo <= ParseInteger(s).value <= hi ==> r.Ok?
  {
    match ParseInteger(s)
    case Some(v) => if lo <= v <= hi then Ok(v) else Err(BadNumber(s))
    case None => Err(BadNumber(s))
  }

  lemma {:induction false} DigitsValueOfShowNat(n: nat)
    ensures DigitsValue(ShowNat(n)) == n
  {
    var s := ShowNat(n);
    if n >= 10 {
      DigitsValueOfShowNat(n / 10);
      assert s[..|s| - 1] == ShowNat(n / 10);
    }
  }

  /** Every integer's text parses back to the integer. */
  lemma ParseShowInt(n: int)
    ensures ParseInteger(ShowInt(n)) == Some(n)
  {
    DigitsValueOfShowNat(if n < 0 then -n else n);
    var s := ShowInt(n);
    if n < 0 {
      assert s[1..] == ShowNat(-n);
    } else {
      assert s[0] != '-' && s[0] != '+';
    }
  }

  /** The text of an integer has no white space and no character outside ASCII. */
  lemma ShowIntIsPlain(n: int)
    ensures |ShowInt(n)| >= 1
    ensures forall i :: 0 <= i < |ShowInt(n)| ==> ShowInt(n)[i] == '-' || IsDigit(ShowInt(n)[i])
  {
  }
}
