/** Decimal text of integers as JavaScript writes it (`String(n)`), two-digit
    zero padding (`padStart(2, "0")`) and `Number.parseInt(s, 10)`. */
module Decimal {

  import opened Wrappers
  import Text

  predicate IsDigit(c: char) {
    '0' <= c <= '9'
  }

  predicate AllDigits(s: string) {
    forall k :: 0 <= k < |s| ==> IsDigit(s[k])
  }

  function DigitChar(d: nat): (c: char)
    requires d < 10
    ensures IsDigit(c)
  {
    ('0' as int + d) as char
  }

  function DigitValue(c: char): (d: nat)
    requires IsDigit(c)
    ensures d < 10 && DigitChar(d) == c
  {
    c as int - '0' as int
  }

  /** `String(n)` for a non-negative integer below 10^21 (where JavaScript
      would switch to exponent notation). */
  function NatToDecimal(n: nat): (s: string)
    ensures |s| >= 1 && AllDigits(s)
    ensures n >= 10 ==> s[0] != '0'
  {
    if n < 10 then [DigitChar(n)] else NatToDecimal(n / 10) + [DigitChar(n % 10)]
  }

  /** The value of a string of decimal digits (the reference this model's
      text is checked against). */
  function DecimalValue(s: string): nat
    requires AllDigits(s)
  {
    if s == [] then 0 else DecimalValue(s[..|s| - 1]) * 10 + DigitValue(s[|s| - 1])
  }

  lemma {:induction false} DecimalRoundTrip(n: nat)
    ensures DecimalValue(NatToDecimal(n)) == n
  {
    if n >= 10 {
      DecimalRoundTrip(n / 10);
      var s := NatToDecimal(n);
      assert s[..|s| - 1] == NatToDecimal(n / 10);
    }
  }

  /** Distinct numbers have distinct decimal text. */
  lemma NatToDecimalInjective(a: nat, b: nat)
    requires NatToDecimal(a) == NatToDecimal(b)
    ensures a == b
  {
    DecimalRoundTrip(a);
    DecimalRoundTrip(b);
  }

  /** `String(i)` for an integer of magnitude below 10^21. */
  function IntToDecimal(i: int): (s: string)
    ensures |s| >= 1
    ensures i < 0 <==> s[0] == '-'
    ensures i >= 0 ==> AllDigits(s)
  {
    if i < 0 then "-" + NatToDecimal(-i) else NatToDecimal(i)
  }

  lemma IntToDecimalInjective(a: int, b: int)
    requires IntToDecimal(a) == IntToDecimal(b)
    ensures a == b
  {
    if a < 0 {
      assert IntToDecimal(a)[1..] == NatToDecimal(-a);
      assert IntToDecimal(b)[1..] == NatToDecimal(-b);
      NatToDecimalInjective(-a, -b);
    } else {
      NatToDecimalInjective(a, b);
    }
  }

  /** `s.padStart(2, "0")`. */
  function PadStart2(s: string): string {
    if |s| >= 2 then s else seq(2 - |s|, _ => '0') + s
  }

  /** `String(n).padStart(2, "0")`: below 100 it is exactly the two digits of
      n, above it the plain decimal text. */
  function Pad2(n: nat): (s: string)
    ensures n < 100 ==> s == [DigitChar(n / 10), DigitChar(n % 10)]
    ensures n >= 100 ==> s == NatToDecimal(n)
    ensures AllDigits(s)
  {
    var d := NatToDecimal(n);
    assert n < 10 ==> d == [DigitChar(n)];
    assert 10 <= n < 100 ==> NatToDecimal(n / 10) == [DigitChar(n / 10)];
    PadStart2(d)
  }

  /** Two values below 100 have the same padded text only if they are equal. */
  lemma Pad2Injective(a: nat, b: nat)
    requires a < 100 && b < 100 && Pad2(a) == Pad2(b)
    ensures a == b
  {
    assert DigitValue(Pad2(a)[0]) == a / 10 && DigitValue(Pad2(a)[1]) == a % 10;
  }

  /** Longest prefix of decimal digits. */
  function DigitPrefix(s: string): (p: string)
    ensures |p| <= |s| && p == s[..|p|] && AllDigits(p)
    ensures |p| < |s| ==> !IsDigit(s[|p|])
  {
    if s != [] && IsDigit(s[0]) then [s[0]] + DigitPrefix(s[1..]) else []
  }

  /** `Number.parseInt(s, 10)`: leading white space, an optional sign, then the
      longest run of digits; `None` stands for NaN. An absent value is the text
      "undefined", which has no digits. */
  function ParseInt(text: Option<string>): (r: Option<int>)
    ensures text.None? ==> r.None?
  {
    match text
    case None => None
    case Some(s) =>
      var t := Text.TrimStart(s);
      var negative := t != [] && t[0] == '-';
      var unsigned := if t != [] && (t[0] == '-' || t[0] == '+') then t[1..] else t;
      var digits := DigitPrefix(unsigned);
      var magnitude: int := if digits == [] then 0 else DecimalValue(digits);
      if digits == [] then None
      else if negative then Some(-magnitude)
      else Some(magnitude)
  }

  lemma DigitPrefixOfDigits(s: string)
    requires AllDigits(s)
    ensures DigitPrefix(s) == s
  {
    if s != [] {
      DigitPrefixOfDigits(s[1..]);
    }
  }

  /** `parseInt` reads back what `String` writes. */
  lemma ParseIntRoundTrip(i: int)
    ensures ParseInt(Some(IntToDecimal(i))) == Some(i)
  {
    var s := IntToDecimal(i);
    assert !Text.IsSpace(s[0]);
    Text.TrimStartOfTrimmed(s);
    var n: nat := if i < 0 then -i else i;
    assert (if s[0] == '-' || s[0] == '+' then s[1..] else s) == NatToDecimal(n);
    DigitPrefixOfDigits(NatToDecimal(n));
    DecimalRoundTrip(n);
  }
}
