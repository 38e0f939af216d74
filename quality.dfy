/** JPEG quality: the integer parse both front ends apply to user text, and the range rule they share. */
module Quality {
  import opened Common

  const DefaultQuality := 95

  /** An out-of-range quality falls back to the default; an in-range one is kept. */
  function Sanitize(q: int): (r: int)
    ensures 1 <= r <= 100
    ensures r == q <==> 1 <= q <= 100
    ensures r != q ==> r == DefaultQuality
  {
    if 1 <= q <= 100 then q else DefaultQuality
  }

  predicate IsDigit(c: char) {
    '0' <= c <= '9'
  }

  predicate AllDigits(s: string) {
    forall i :: 0 <= i < |s| ==> IsDigit(s[i])
  }

  /** The value of a run of decimal digits, most significant first. */
  function DigitsValue(s: string): nat
    requires AllDigits(s)
  {
    if |s| == 0 then 0 else DigitsValue(s[..|s| - 1]) * 10 + (s[|s| - 1] as int - '0' as int)
  }

  /**
   * `int(s)` on a string: an optional sign followed by one or more decimal digits; None where Python
   * raises ValueError.
   */
  function ParseInt(s: string): (r: Option<int>)
    ensures s == "" || s == "+" || s == "-" ==> r.None?
    ensures |s| > 0 && !IsDigit(s[0]) && s[0] != '+' && s[0] != '-' ==> r.None?
    ensures (exists i :: 0 < i < |s| && !IsDigit(s[i])) ==> r.None?
    ensures s != "" && AllDigits(s) ==> r == Some(DigitsValue(s))
    ensures r.Some? && r.value < 0 ==> s[0] == '-'
    ensures |s| >= 2 && (s[0] == '+' || s[0] == '-') && AllDigits(s[1..]) ==>
      r == Some(if s[0] == '-' then 0 - DigitsValue(s[1..]) as int else DigitsValue(s[1..]) as int)
  {
    if |s| > 0 && (s[0] == '+' || s[0] == '-') then
      var digits := s[1..];
      if |digits| > 0 && AllDigits(digits) then
        Some(if s[0] == '-' then 0 - DigitsValue(digits) as int else DigitsValue(digits) as int)
      else None
    else if |s| > 0 && AllDigits(s) then Some(DigitsValue(s))
    else None
  }

  function DigitChar(d: nat): char
    requires d < 10
  {
    ('0' as int + d) as char
  }

  /** `str(n)` for a natural number: its decimal digits without leading zeros. */
  function DecimalText(n: nat): (r: string)
    ensures |r| > 0 && AllDigits(r)
  {
    if n < 10 then [DigitChar(n)] else DecimalText(n / 10) + [DigitChar(n % 10)]
  }

  /** `str(n)` for any integer. */
  function IntText(n: int): (r: string) {
    if n < 0 then "-" + DecimalText(-n) else DecimalText(n)
  }

  lemma {:induction false} DecimalTextValue(n: nat)
    ensures DigitsValue(DecimalText(n)) == n
  {
    if n >= 10 {
      var t := DecimalText(n);
      DecimalTextValue(n / 10);
      assert t[..|t| - 1] == DecimalText(n / 10);
    }
  }

  /** Parsing the decimal text of any integer gives it back. */
  lemma {:induction false} ParseIntRoundTrip(n: int)
    ensures ParseInt(IntText(n)) == Some(n)
  {
    if n < 0 {
      DecimalTextValue(-n);
      assert IntText(n)[1..] == DecimalText(-n);
    } else {
      DecimalTextValue(n);
      assert IntText(n)[0] != '-' && IntText(n)[0] != '+';
    }
  }
}
