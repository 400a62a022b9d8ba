/**
 Go's `strconv.Atoi` on a 64-bit platform, and `strconv.Itoa` as its inverse.
 */
module Strconv {
  import opened Wrappers

  /** The range of Go's `int` on a 64-bit platform. */
  const MinInt: int := -0x8000_0000_0000_0000
  const MaxInt: int := 0x7FFF_FFFF_FFFF_FFFF

  predicate IsDigit(c: char) {
    '0' <= c <= '9'
  }

  predicate AllDigits(s: string) {
    forall k :: 0 <= k < |s| ==> IsDigit(s[k])
  }

  predicate IsSign(c: char) {
    c == '+' || c == '-'
  }

  /** An optional sign followed by one or more ASCII digits. */
  predicate IsDecimalToken(s: string) {
    && |s| > 0
    && (IsDigit(s[0]) || (IsSign(s[0]) && |s| > 1))
    && (forall k :: 1 <= k < |s| ==> IsDigit(s[k]))
  }

  function DigitValue(c: char): nat
    requires IsDigit(c)
  {
    c as int - '0' as int
  }

  function DigitChar(d: nat): (c: char)
    requires d < 10
    ensures IsDigit(c) && DigitValue(c) == d
  {
    ('0' as int + d) as char
  }

  /** The value of a run of decimal digits, most significant first. */
  function DecimalValue(digits: string): nat
    requires AllDigits(digits)
    decreases |digits|
  {
    if |digits| == 0 then 0
    else 10 * DecimalValue(digits[..|digits| - 1]) + DigitValue(digits[|digits| - 1])
  }

  /**
   `strconv.Atoi(s)`: `None` stands for the `*NumError` it returns, both for a
   syntax error and for a value outside the 64-bit range.
   */
  function Atoi(s: string): (r: Option<int>)
    ensures r.Some? ==> IsDecimalToken(s)
    ensures r.Some? ==> MinInt <= r.value <= MaxInt
    ensures r.Some? && r.value < 0 ==> s[0] == '-'
  {
    if |s| == 0 then None
    else
      var digits := if IsSign(s[0]) then s[1..] else s;
      if |digits| == 0 || !AllDigits(digits) then None
      else
        var magnitude := DecimalValue(digits);
        var n: int := if s[0] == '-' then -(magnitude as int) else magnitude;
        if MinInt <= n <= MaxInt then Some(n) else None
  }

  /** The decimal digits of `n` without leading zeros. */
  function FormatNat(n: nat): (s: string)
    decreases n
  {
    if n < 10 then [DigitChar(n)]
    else FormatNat(n / 10) + [DigitChar(n % 10)]
  }

  /** `strconv.Itoa(n)`: a minus sign for negative values, then the digits. */
  function FormatInt(n: int): string {
    if n < 0 then "-" + FormatNat(-n) else FormatNat(n)
  }

  lemma {:induction false} FormatNatDigits(n: nat)
    ensures |FormatNat(n)| > 0
    ensures AllDigits(FormatNat(n))
    ensures DecimalValue(FormatNat(n)) == n
    decreases n
  {
    if n >= 10 {
      FormatNatDigits(n / 10);
      var s := FormatNat(n);
      assert s[..|s| - 1] == FormatNat(n / 10);
    }
  }

  /** Every 64-bit integer survives `Atoi(Itoa(n))`. */
  lemma AtoiFormatInt(n: int)
    requires MinInt <= n <= MaxInt
    ensures Atoi(FormatInt(n)) == Some(n)
  {
    var m := if n < 0 then -n else n;
    FormatNatDigits(m);
    if n < 0 {
      assert FormatInt(n)[1..] == FormatNat(m);
    }
  }

  /**
   Every optionally signed run of digits whose value fits in 64 bits is
   accepted, with that value.
   */
  lemma AtoiAcceptsDecimalTokens(s: string)
    requires IsDecimalToken(s)
    ensures var digits := if IsSign(s[0]) then s[1..] else s;
            AllDigits(digits) &&
            var n: int := if s[0] == '-' then -(DecimalValue(digits) as int) else DecimalValue(digits);
            MinInt <= n <= MaxInt ==> Atoi(s) == Some(n)
  {
    var digits := if IsSign(s[0]) then s[1..] else s;
    assert forall k :: 0 <= k < |digits| ==> digits[k] == s[k + |s| - |digits|];
  }

  /** Offsets written as tags are accepted, with or without a sign or leading zeros. */
  lemma AtoiAcceptsExamples()
    ensures Atoi("0") == Some(0)
    ensures Atoi("+7") == Some(7)
    ensures Atoi("-1") == Some(-1)
    ensures Atoi("007") == Some(7)
  {
    assert DecimalValue("007") == 10 * DecimalValue("00") + 7;
    assert DecimalValue("00") == 10 * DecimalValue("0");
  }

  /** Empty tags, a lone sign, non-digits and names are rejected. */
  lemma AtoiRejectsExamples()
    ensures Atoi("") == None
    ensures Atoi("-") == None
    ensures Atoi("1.0") == None
    ensures Atoi("noNumberHere") == None
  {
    assert !IsDigit('n');
    assert !IsDigit('.');
    assert "1.0"[1] == '.';
  }
}
