/** The parse of a `"<N>s"` timeout string, done the same way by
    `create_job_from_template` and by `wait_until_finished`: a string whose
    last character is `s` becomes the integer before it; any other non-empty
    string is kept as it is. */
module Timeouts {
  import opened Common

  /** The value of `timeout_s` after the parse. */
  datatype Timeout = Seconds(seconds: int) | Text(text: string)

  predicate IsDigit(c: char) {
    '0' <= c <= '9'
  }

  predicate AllDigits(s: string) {
    forall i :: 0 <= i < |s| ==> IsDigit(s[i])
  }

  function DigitValue(c: char): nat
    requires IsDigit(c)
  {
    c as int - '0' as int
  }

  function DigitChar(d: nat): (c: char)
    requires d < 10
    ensures IsDigit(c) && DigitValue(c) == d
  {
    ('0' as int + d) as char
  }

  /** The number a string of decimal digits denotes. */
  function DigitsValue(s: string): nat
    requires AllDigits(s)
  {
    if s == [] then 0 else 10 * DigitsValue(s[..|s| - 1]) + DigitValue(s[|s| - 1])
  }

  /** Python's `int(s)` on an optional sign followed by decimal digits. */
  function ParseInt(s: string): (r: Option<int>)
    ensures r.Some? ==> |s| > 0 && IsDigit(s[|s| - 1])
    ensures r.Some? && AllDigits(s) ==> r.value == DigitsValue(s)
    ensures r.Some? && s[0] == '-' ==> r.value <= 0
    ensures r.Some? && s[0] != '-' ==> r.value >= 0
    ensures r.None? && |s| > 0 ==> !AllDigits(s)
    ensures r.Some? <==>
      |s| > 0 && (AllDigits(s) || (|s| > 1 && (s[0] == '-' || s[0] == '+') && AllDigits(s[1..])))
    ensures r.Some? && (s[0] == '-' || s[0] == '+') ==>
      r.value == (if s[0] == '-' then -1 else 1) * DigitsValue(s[1..])
  {
    if |s| > 1 && (s[0] == '-' || s[0] == '+') && AllDigits(s[1..]) then
      var magnitude: int := DigitsValue(s[1..]);
      Some(if s[0] == '-' then -magnitude else magnitude)
    else if |s| > 0 && AllDigits(s) then Some(DigitsValue(s))
    else None
  }

  /** Signs and stray characters, as `int()` treats them. */
  lemma ParseIntExamples()
    ensures ParseInt("-12") == Some(-12)
    ensures ParseInt("+5") == Some(5)
    ensures ParseInt("a5") == None
    ensures ParseInt("-") == None
  {
    assert "-12"[1..] == "12" && "12"[..1] == "1" && "1"[..0] == [];
    assert DigitsValue("12") == 12;
    assert "+5"[1..] == "5" && "5"[..0] == [];
    assert DigitsValue("5") == 5;
    assert !AllDigits("a5") by { assert !IsDigit("a5"[0]); }
  }

  /** The decimal digits of `n`, most significant first, without leading zeros. */
  function DecimalDigits(n: nat): (s: string)
    ensures |s| > 0 && AllDigits(s)
  {
    if n < 10 then [DigitChar(n)] else DecimalDigits(n / 10) + [DigitChar(n % 10)]
  }

  /** Python's `str(n)` on an integer. */
  function IntToString(n: int): string {
    if n < 0 then "-" + DecimalDigits(-n) else DecimalDigits(n)
  }

  lemma {:induction false} DecimalDigitsValue(n: nat)
    ensures DigitsValue(DecimalDigits(n)) == n
  {
    var s := DecimalDigits(n);
    if n >= 10 {
      assert s[..|s| - 1] == DecimalDigits(n / 10);
      DecimalDigitsValue(n / 10);
    } else {
      assert s[..|s| - 1] == [];
    }
  }

  /** `int(str(n)) == n`. */
  lemma ParseIntOfIntToString(n: int)
    ensures ParseInt(IntToString(n)) == Some(n)
  {
    if n < 0 {
      var s := IntToString(n);
      assert s[1..] == DecimalDigits(-n);
      DecimalDigitsValue(-n);
    } else {
      DecimalDigitsValue(n);
    }
  }

  function ParseTimeout(t: string): (r: Result<Timeout>)
    ensures r == Err(IndexError) <==> t == []
    ensures r.Ok? && r.value.Text? <==> t != [] && t[|t| - 1] != 's'
    ensures r.Ok? && r.value.Text? ==> r.value.text == t
    ensures r == Err(ValueError) <==> t != [] && t[|t| - 1] == 's' && ParseInt(t[..|t| - 1]).None?
    ensures r.Ok? && r.value.Seconds? ==> t != [] && t[|t| - 1] == 's' && ParseInt(t[..|t| - 1]) == Some(r.value.seconds)
    ensures t != [] && t[|t| - 1] == 's' && ParseInt(t[..|t| - 1]).Some? ==>
      r == Ok(Seconds(ParseInt(t[..|t| - 1]).value))
  {
    if t == [] then Err(IndexError)
    else if t[|t| - 1] == 's' then
      match ParseInt(t[..|t| - 1])
      case Some(n) => Ok(Seconds(n))
      case None => Err(ValueError)
    else Ok(Text(t))
  }

  /** The timeout written as `"<N>s"` parses back to `N` seconds. */
  lemma ParseTimeoutRoundTrip(n: int)
    ensures ParseTimeout(IntToString(n) + "s") == Ok(Seconds(n))
  {
    var t := IntToString(n) + "s";
    assert t[..|t| - 1] == IntToString(n);
    ParseIntOfIntToString(n);
  }
}
