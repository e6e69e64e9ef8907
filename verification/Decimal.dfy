/** Decimal numerals: printing, and parsing as `strconv.ParseInt` does for 64-bit integers. */
module Decimal {
  import opened Wrappers
  import opened Int64

  predicate IsDigit(c: char) {
    '0' <= c <= '9'
  }

  function DigitValue(c: char): nat
    requires IsDigit(c)
  {
    c as int - '0' as int
  }

  function DigitChar(d: nat): (c: char)
    requires d < 10
    ensures IsDigit(c) && DigitValue(c) == d
  {
    (d + '0' as int) as char
  }

  predicate AllDigits(s: string) {
    forall i | 0 <= i < |s| :: IsDigit(s[i])
  }

  /** The numeral of `n` without leading zeros. */
  function Print(n: nat): (s: string)
    ensures s != "" && AllDigits(s)
    decreases n
  {
    if n < 10 then [DigitChar(n)] else Print(n / 10) + [DigitChar(n % 10)]
  }

  /** The number written by a string of digits. */
  function Value(s: string): nat
    requires AllDigits(s)
  {
    if s == "" then 0 else Value(s[..|s| - 1]) * 10 + DigitValue(s[|s| - 1])
  }

  predicate Canonical(s: string) {
    s != "" && AllDigits(s) && (s[0] == '0' ==> s == "0")
  }

  function ParseInt(s: string): Option<int64> {
    var signed := s != "" && (s[0] == '+' || s[0] == '-');
    var body := if signed then s[1..] else s;
    if body == "" || !AllDigits(body) then None
    else
      var magnitude: int := Value(body);
      var value := if signed && s[0] == '-' then -magnitude else magnitude;
      if -MAX_INT64 - 1 <= value <= MAX_INT64 then Some(value) else None
  }

  lemma {:induction false} PrintedValue(n: nat)
    ensures Value(Print(n)) == n && (n > 0 ==> Print(n)[0] != '0')
  {
    if n >= 10 {
      PrintedValue(n / 10);
      assert Print(n)[..|Print(n)| - 1] == Print(n / 10);
    }
  }

  lemma {:induction false} ValuePrinted(s: string)
    requires Canonical(s)
    ensures Print(Value(s)) == s
  {
    if |s| > 1 {
      var front := s[..|s| - 1];
      ValuePrinted(front);
      Positive(front);
      assert s == front + [s[|s| - 1]];
      assert DigitChar(DigitValue(s[|s| - 1])) == s[|s| - 1];
    }
  }

  lemma {:induction false} Positive(s: string)
    requires s != "" && AllDigits(s) && s[0] != '0'
    ensures Value(s) > 0
  {
    if |s| > 1 { Positive(s[..|s| - 1]); }
  }

  lemma {:induction false} LeadingZero(s: string)
    requires AllDigits(s)
    ensures Value("0" + s) == Value(s)
  {
    if s == "" {
      assert ("0" + s)[..0] == "";
    } else {
      LeadingZero(s[..|s| - 1]);
      assert ("0" + s)[..|s|] == "0" + s[..|s| - 1];
    }
  }

  function Pow10(n: nat): nat {
    if n == 0 then 1 else 10 * Pow10(n - 1)
  }

  /** A numeral without leading zeros is as long as its magnitude says. */
  lemma {:induction false} ValueBounds(s: string)
    requires AllDigits(s)
    ensures Value(s) < Pow10(|s|)
    ensures s != "" && s[0] != '0' ==> Pow10(|s| - 1) <= Value(s)
  {
    if s != "" {
      ValueBounds(s[..|s| - 1]);
    }
  }

  lemma ParsePrinted(n: nat)
    ensures ParseInt(Print(n)) == if n <= MAX_INT64 then Some(n) else None
  {
    PrintedValue(n);
    assert IsDigit(Print(n)[0]);
  }

  // ---------------------------------------------------------------------------------------
  // The identifiers accepted from clients.

  /** `parsePositiveJobID`, and `parseAuditCursor` for a cursor that is not empty. */
  function ParsePositive(value: string): Option<int64> {
    if value == "" || |value| > 19 || value[0] == '0' then None
    else if !AllDigits(value) then None
    else
      var id := ParseInt(value);
      if id.None? || id.value <= 0 then None else id
  }

  function ParseAuditCursor(value: string): Option<int64> {
    if value == "" then Some(0) else ParsePositive(value)
  }

  /** The accepted identifiers are exactly the numerals of 1 to the largest 64-bit integer. */
  lemma PositiveExactly(value: string, n: int)
    ensures ParsePositive(value) == Some(n) <==> 1 <= n <= MAX_INT64 && value == Print(n)
  {
    if 1 <= n <= MAX_INT64 && value == Print(n) {
      PrintedValue(n);
      ParsePrinted(n);
      ValueBounds(value);
      if |value| > 19 { Pow10Grows(19, |value| - 1); assert Pow10(19) > MAX_INT64 by { Pow10Of19(); } }
    }
    if ParsePositive(value).Some? {
      ValuePrinted(value);
      assert !(value[0] == '+' || value[0] == '-') by { assert IsDigit(value[0]); }
    }
  }

  lemma {:induction false} Pow10Grows(m: nat, n: nat)
    requires m <= n
    ensures Pow10(m) <= Pow10(n)
  {
    if m < n { Pow10Grows(m, n - 1); }
  }

  lemma Pow10Of19()
    ensures Pow10(19) == 10_000_000_000_000_000_000
  {
    assert Pow10(5) == 100_000;
    assert Pow10(10) == 10_000_000_000;
    assert Pow10(15) == 1_000_000_000_000_000;
  }
}
