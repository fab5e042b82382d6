/** Decimal numerals: Python's `str(n)` / `'%d' % n` for integers, the
    zero-padded `'{0:02d}'` format, and Python 2's `int(s)` for base 10.
 */
module Decimal {
  import opened Wrappers
  import opened Strings

  predicate IsDigit(c: char) {
    '0' <= c <= '9'
  }

  predicate AllDigits(s: string) {
    forall i :: 0 <= i < |s| ==> IsDigit(s[i])
  }

  function DigitChar(d: nat): (c: char)
    requires d < 10
    ensures IsDigit(c) && c as int - '0' as int == d
  {
    ('0' as int + d) as char
  }

  /** The value of a string of decimal digits (the empty string reads as 0). */
  function DigitsValue(s: string): nat
    requires AllDigits(s)
  {
    if |s| == 0 then 0
    else DigitsValue(s[..|s| - 1]) * 10 + (s[|s| - 1] as int - '0' as int)
  }

  /** `str(n)` for a non-negative integer: digits only, no leading zero
      except for 0 itself. */
  function NatToString(n: nat): (r: string)
    ensures |r| >= 1 && AllDigits(r)
    ensures r[0] == '0' ==> n == 0 && r == "0"
    ensures n < 10 <==> |r| == 1
  {
    if n < 10 then [DigitChar(n)]
    else NatToString(n / 10) + [DigitChar(n % 10)]
  }

  /** Reading back the numeral gives the number: `int(str(n)) == n`. */
  lemma {:induction false} NatToStringValue(n: nat)
    ensures DigitsValue(NatToString(n)) == n
  {
    if n >= 10 {
      var r := NatToString(n);
      assert r[..|r| - 1] == NatToString(n / 10);
      NatToStringValue(n / 10);
    }
  }

  /** Distinct numbers have distinct numerals. */
  lemma NatToStringInjective(m: nat, n: nat)
    requires NatToString(m) == NatToString(n)
    ensures m == n
  {
    NatToStringValue(m);
    NatToStringValue(n);
  }

  /** `str(i)` for any integer. */
  function IntToString(i: int): (r: string)
    ensures |r| >= 1
    ensures i >= 0 ==> r == NatToString(i)
    ensures i < 0 ==> r == "-" + NatToString(-i)
  {
    if i < 0 then "-" + NatToString(-i) else NatToString(i)
  }

  /** `'{0:02d}'.format(i)`: at least two characters, padded with a leading
      zero only for 0..9; a minus sign counts towards the width. */
  function Pad2(i: int): (r: string)
    ensures |r| >= 2
    ensures 0 <= i < 10 ==> r == "0" + NatToString(i)
    ensures i >= 10 ==> r == NatToString(i)
    ensures i < 0 ==> r == "-" + NatToString(-i)
  {
    if 0 <= i < 10 then "0" + NatToString(i) else IntToString(i)
  }

  /** Python 2's `int(s)` in base 10: surrounding whitespace, an optional
      sign, optional whitespace after the sign, then one or more ASCII
      digits. `None` stands for the ValueError raised otherwise. */
  function ParseInt(s: string): (r: Option<int>)
    ensures r.Some? ==> |Strip(s)| > 0 && IsDigit(Strip(s)[|Strip(s)| - 1])
    ensures r.Some? && r.value < 0 ==> Strip(s)[0] == '-'
  {
    var t := Strip(s);
    if |t| > 0 && (t[0] == '+' || t[0] == '-') then
      var body := LStrip(t[1..]);
      if |body| > 0 && AllDigits(body) then
        assert body[|body| - 1] == t[|t| - 1];
        var n: int := DigitsValue(body);
        var v := if t[0] == '-' then -n else n;
        Some(v)
      else None
    else if |t| > 0 && AllDigits(t) then
      assert IsDigit(t[|t| - 1]);
      Some(DigitsValue(t))
    else None
  }

  /** A numeral has no whitespace at either end and so is its own `strip()`
      and `lstrip()`. */
  lemma NumeralStrips(n: nat)
    ensures Strip(NatToString(n)) == NatToString(n)
    ensures LStrip(NatToString(n)) == NatToString(n)
  {
    var r := NatToString(n);
    assert IsDigit(r[0]) && IsDigit(r[|r| - 1]);
    StripFixedPoint(r);
  }

  /** A non-empty string of digits reads as its value, leading zeros and
      all. */
  lemma ParseDigits(s: string)
    requires |s| > 0 && AllDigits(s)
    ensures ParseInt(s) == Some(DigitsValue(s) as int)
  {
    assert IsDigit(s[0]) && IsDigit(s[|s| - 1]);
    StripFixedPoint(s);
  }

  lemma {:induction false} ParseNatNumeral(n: nat)
    ensures ParseInt(NatToString(n)) == Some(n as int)
  {
    var r := NatToString(n);
    NatToStringValue(n);
    NumeralStrips(n);
    assert !(r[0] == '+' || r[0] == '-');
  }

  lemma {:induction false} ParseNegativeNumeral(n: nat)
    ensures ParseInt("-" + NatToString(n)) == Some(-(n as int))
  {
    var d := NatToString(n);
    var r := "-" + d;
    assert r[0] == '-' && r[1..] == d;
    assert r[|r| - 1] == d[|d| - 1];
    StripFixedPoint(r);
    NumeralStrips(n);
    assert LStrip(Strip(r)[1..]) == d;
    NatToStringValue(n);
  }

  lemma NegativeToString(i: int)
    requires i < 0
    ensures ParseInt(IntToString(i)) == Some(i)
  {
    var n: nat := -i;
    var d := NatToString(n);
    var r := IntToString(i);
    assert r[0] == '-' && r[1..] == d;
    assert r[|r| - 1] == d[|d| - 1];
    StripFixedPoint(r);
    NumeralStrips(n);
    assert LStrip(Strip(r)[1..]) == d;
    NatToStringValue(n);
  }

  lemma NonNegativeToString(i: int)
    requires i >= 0
    ensures ParseInt(IntToString(i)) == Some(i)
  {
    ParseNatNumeral(i);
  }

  /** `int(str(i)) == i`. */
  lemma {:induction false} ParseIntToString(i: int)
    ensures ParseInt(IntToString(i)) == Some(i)
  {
    if i < 0 {
      NegativeToString(i);
    } else {
      NonNegativeToString(i);
    }
  }
}
