/** Decimal text and integers: Python's `int(text)` as `get_want_to_watch`
    uses it and `str(n)` as the `Movie` constructor uses it, over ASCII
    digits. */
module Numbers {
  import opened Results

  /** An ASCII decimal digit, what `\d` and `int()` accept in this model. */
  predicate IsDigit(c: char)
  {
    '0' <= c <= '9'
  }

  /** A non-empty string of digits. */
  predicate IsDigits(s: string)
  {
    |s| > 0 && forall i :: 0 <= i < |s| ==> IsDigit(s[i])
  }

  /** Digits as `str` prints them: no leading zero except in "0" itself. */
  predicate IsCanonical(d: string)
  {
    IsDigits(d) && (d[0] == '0' ==> |d| == 1)
  }

  function DigitValue(c: char): nat
    requires IsDigit(c)
  {
    (c as int) - ('0' as int)
  }

  function DigitChar(v: nat): (c: char)
    requires v < 10
    ensures IsDigit(c) && DigitValue(c) == v
  {
    (('0' as int) + v) as char
  }

  /** The number a string of digits denotes, most significant digit first. */
  function DigitsValue(s: string): nat
    requires forall i :: 0 <= i < |s| ==> IsDigit(s[i])
  {
    if s == [] then 0 else DigitsValue(s[..|s| - 1]) * 10 + DigitValue(s[|s| - 1])
  }

  /** The decimal digits of `n`, as `str(n)` prints a non-negative integer. */
  function NatToDigits(n: nat): (d: string)
    ensures IsCanonical(d)
    ensures DigitsValue(d) == n
    ensures d[0] == '0' <==> n == 0
  {
    if n < 10 then [DigitChar(n)]
    else
      var d := NatToDigits(n / 10) + [DigitChar(n % 10)];
      assert d[..|d| - 1] == NatToDigits(n / 10);
      d
  }

  /** Python's `str(n)` for an integer `n`. */
  function IntToString(n: int): (s: string)
    ensures n >= 0 ==> IsCanonical(s)
    ensures n < 0 ==> |s| > 1 && s[0] == '-' && IsCanonical(s[1..]) && s[1..] != "0"
  {
    if n < 0 then "-" + NatToDigits(-n) else NatToDigits(n)
  }

  /** Python's `int(s)` on text without surrounding whitespace or
      underscores: an optional sign followed by at least one digit, and a
      `ValueError` for anything else. */
  function ParseInt(s: string): (r: Result<int>)
    ensures r.Err? ==> r.error == ValueError
    ensures r.Ok? <==> IsDigits(s) || (|s| > 1 && (s[0] == '-' || s[0] == '+') && IsDigits(s[1..]))
    ensures IsDigits(s) ==> r == Ok(DigitsValue(s))
    ensures r.Ok? && |s| > 0 && s[0] == '-' ==> r.value == -(DigitsValue(s[1..]) as int)
    ensures r.Ok? && |s| > 0 && s[0] == '+' ==> r.value == DigitsValue(s[1..])
  {
    if |s| > 0 && (s[0] == '-' || s[0] == '+') then
      if IsDigits(s[1..]) then
        var v: int := DigitsValue(s[1..]);
        Ok(if s[0] == '-' then -v else v)
      else Err(ValueError)
    else if IsDigits(s) then Ok(DigitsValue(s))
    else Err(ValueError)
  }

  /** A digit string that does not start with '0' denotes a positive number. */
  lemma {:induction false} LeadingDigitPositive(d: string)
    requires IsDigits(d) && d[0] != '0'
    ensures DigitsValue(d) >= 1
  {
    if |d| > 1 {
      LeadingDigitPositive(d[..|d| - 1]);
    }
  }

  /** Printing what canonical digits denote gives the digits back. */
  lemma {:induction false} DigitsRoundTrip(d: string)
    requires IsCanonical(d)
    ensures NatToDigits(DigitsValue(d)) == d
  {
    if |d| > 1 {
      var p := d[..|d| - 1];
      LeadingDigitPositive(p);
      DigitsRoundTrip(p);
      var v := DigitsValue(d);
      assert v / 10 == DigitsValue(p) && v % 10 == DigitValue(d[|d| - 1]);
      assert DigitChar(v % 10) == d[|d| - 1];
      assert d == p + [d[|d| - 1]];
    } else {
      assert d == [DigitChar(DigitValue(d[0]))];
    }
  }

  /** `int(str(n)) == n` for every integer. */
  lemma ParsePrintedInt(n: int)
    ensures ParseInt(IntToString(n)) == Ok(n)
  {
  }

  /** `str(int(t)) == t` for canonical decimal text. */
  lemma PrintParsedDigits(d: string)
    requires IsCanonical(d)
    ensures ParseInt(d).Ok? && IntToString(ParseInt(d).value) == d
  {
    DigitsRoundTrip(d);
  }
}
