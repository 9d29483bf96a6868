/** Decimal digits: rendering a natural number (as template literals do
    for the `$n` placeholders) and `parseInt(s)` on strings whose number
    is written in decimal. */
module Decimal {
  import opened Results
  import JsValue

  predicate IsDigit(c: char) {
    '0' <= c <= '9'
  }

  predicate AllDigits(s: string) {
    forall k | 0 <= k < |s| :: IsDigit(s[k])
  }

  function DigitChar(d: nat): char
    requires d < 10
  {
    ['0', '1', '2', '3', '4', '5', '6', '7', '8', '9'][d]
  }

  function DigitValue(c: char): nat
    requires IsDigit(c)
  {
    (c as int) - ('0' as int)
  }

  /** The number a string of decimal digits denotes, most significant
      digit first. */
  function DigitsValue(s: string): nat
    requires AllDigits(s)
  {
    if |s| == 0 then 0 else 10 * DigitsValue(s[..|s| - 1]) + DigitValue(s[|s| - 1])
  }

  /** `${n}` for a natural number `n`: its shortest decimal spelling. */
  function NatToDecimal(n: nat): (s: string)
    ensures |s| > 0 && AllDigits(s)
    ensures |s| > 1 ==> s[0] != '0'
  {
    if n < 10 then [DigitChar(n)] else NatToDecimal(n / 10) + [DigitChar(n % 10)]
  }

  lemma {:induction false} NatToDecimalValue(n: nat)
    ensures DigitsValue(NatToDecimal(n)) == n
  {
    var s := NatToDecimal(n);
    if n < 10 {
      assert DigitValue(DigitChar(n)) == n;
    } else {
      NatToDecimalValue(n / 10);
      assert s[..|s| - 1] == NatToDecimal(n / 10);
      assert DigitValue(DigitChar(n % 10)) == n % 10;
    }
  }

  /** Different numbers are spelled differently. */
  lemma NatToDecimalInjective(m: nat, n: nat)
    requires NatToDecimal(m) == NatToDecimal(n)
    ensures m == n
  {
    NatToDecimalValue(m);
    NatToDecimalValue(n);
  }

  /** Length of the longest prefix of `s` made of decimal digits. */
  function DigitPrefix(s: string): (k: nat)
    ensures k <= |s| && AllDigits(s[..k])
    ensures k < |s| ==> !IsDigit(s[k])
  {
    if |s| > 0 && IsDigit(s[0]) then
      var k := DigitPrefix(s[1..]);
      assert s[..1 + k] == [s[0]] + s[1..][..k];
      1 + k
    else 0
  }

  /** `parseInt(s)` in base 10: leading white space is skipped, then the
      rest is read by `ParseSigned`; no digit at all gives NaN (`None`). */
  function ParseInt(s: string): (r: Option<int>)
    ensures JsValue.Blank(s) ==> r.None?
    ensures |s| > 0 && IsDigit(s[0]) ==> r.Some? && r.value >= 0
  {
    ParseSigned(JsValue.TrimStart(s))
  }

  /** One optional sign, then the longest run of digits. */
  function ParseSigned(t: string): (r: Option<int>)
    ensures |t| == 0 ==> r.None?
  {
    var negative := |t| > 0 && t[0] == '-';
    var body := if |t| > 0 && (t[0] == '-' || t[0] == '+') then t[1..] else t;
    var k := DigitPrefix(body);
    var magnitude: int := if k == 0 then 0 else DigitsValue(body[..k]);
    if k == 0 then None
    else if negative then Some(-magnitude)
    else Some(magnitude)
  }

  /** A string that starts with a digit parses to its digit prefix. */
  lemma ParseIntDigitLed(s: string)
    requires |s| > 0 && IsDigit(s[0])
    ensures DigitPrefix(s) > 0
    ensures ParseInt(s) == Some(DigitsValue(s[..DigitPrefix(s)]))
  {
    assert !JsValue.IsWhiteSpace(s[0]);
    assert JsValue.TrimStart(s) == s;
  }

  lemma {:induction false} DigitPrefixAllDigits(s: string)
    requires AllDigits(s)
    ensures DigitPrefix(s) == |s|
  {
    if |s| > 0 {
      DigitPrefixAllDigits(s[1..]);
    }
  }

  lemma {:induction false} DigitPrefixOfRun(d: string, rest: string)
    requires AllDigits(d)
    requires |rest| > 0 ==> !IsDigit(rest[0])
    ensures DigitPrefix(d + rest) == |d|
  {
    if |d| > 0 {
      assert (d + rest)[1..] == d[1..] + rest;
      DigitPrefixOfRun(d[1..], rest);
    } else {
      assert d + rest == rest;
    }
  }

  /** `parseInt` reads back what `NatToDecimal` writes. */
  lemma ParseIntNatToDecimal(n: nat)
    ensures ParseInt(NatToDecimal(n)) == Some(n)
  {
    var s := NatToDecimal(n);
    ParseIntDigitLed(s);
    DigitPrefixAllDigits(s);
    assert s[..|s|] == s;
    NatToDecimalValue(n);
  }

  /** A run of digits followed by anything that is not a digit parses to
      the digits' value: `parseInt("5432abc")` is 5432. */
  lemma ParseIntStopsAtNonDigit(d: string, rest: string)
    requires |d| > 0 && AllDigits(d)
    requires |rest| > 0 ==> !IsDigit(rest[0])
    ensures ParseInt(d + rest) == Some(DigitsValue(d))
  {
    var s := d + rest;
    assert s[0] == d[0];
    ParseIntDigitLed(s);
    DigitPrefixOfRun(d, rest);
    assert s[..|d|] == d;
  }

  /** White space in front of a string that does not start with white
      space does not change what `parseInt` reads. */
  lemma ParseIntAfterBlank(ws: string, x: string)
    requires JsValue.Blank(ws)
    requires |x| > 0 && !JsValue.IsWhiteSpace(x[0])
    ensures ParseInt(ws + x) == ParseSigned(x)
    ensures ParseInt(x) == ParseSigned(x)
  {
    JsValue.TrimStartAfterBlank(ws, x);
    JsValue.TrimStartAfterBlank("", x);
    assert "" + x == x;
  }

  /** A sign in front of a digit-led string: the value of its digit
      prefix, negated for `-`. */
  lemma ParseSignedSign(sign: char, u: string)
    requires sign == '-' || sign == '+'
    requires |u| > 0 && IsDigit(u[0])
    ensures DigitPrefix(u) > 0
    ensures ParseSigned([sign] + u).Some?
    ensures ParseSigned([sign] + u).value
      == if sign == '-' then -(DigitsValue(u[..DigitPrefix(u)]) as int) else DigitsValue(u[..DigitPrefix(u)]) as int
  {
    assert ([sign] + u)[0] == sign;
    assert ([sign] + u)[1..] == u;
  }

  /** Digits followed by a non-digit: the digit prefix is exactly the
      digits. */
  lemma DigitRunValue(d: string, rest: string)
    requires |d| > 0 && AllDigits(d)
    requires |rest| > 0 ==> !IsDigit(rest[0])
    ensures IsDigit((d + rest)[0])
    ensures DigitsValue((d + rest)[..DigitPrefix(d + rest)]) == DigitsValue(d)
  {
    DigitPrefixOfRun(d, rest);
    assert (d + rest)[..|d|] == d;
  }

  /** One sign, then digits, then a non-digit: the digits' value with that
      sign. */
  lemma ParseIntSignedRun(sign: char, d: string, rest: string)
    requires sign == '-' || sign == '+'
    requires |d| > 0 && AllDigits(d)
    requires |rest| > 0 ==> !IsDigit(rest[0])
    ensures ParseSigned([sign] + d + rest).Some?
    ensures ParseSigned([sign] + d + rest).value == if sign == '-' then -(DigitsValue(d) as int) else DigitsValue(d) as int
  {
    DigitRunValue(d, rest);
    ParseSignedSign(sign, d + rest);
    assert [sign] + d + rest == [sign] + (d + rest);
  }

  /** Leading white space is skipped and one sign is read: `parseInt` of
      white space, a sign, digits and then a non-digit is the digits' value
      with that sign. */
  lemma ParseIntSigned(ws: string, sign: char, d: string, rest: string)
    requires JsValue.Blank(ws)
    requires sign == '-' || sign == '+'
    requires |d| > 0 && AllDigits(d)
    requires |rest| > 0 ==> !IsDigit(rest[0])
    ensures ParseInt(ws + [sign] + d + rest).Some?
    ensures ParseInt(ws + [sign] + d + rest).value == if sign == '-' then -(DigitsValue(d) as int) else DigitsValue(d) as int
  {
    var x := [sign] + d + rest;
    SignedRunAfterBlank(ws, sign, d, rest);
    ParseIntAfterBlank(ws, x);
    ParseIntSignedRun(sign, d, rest);
  }

  /** Leading white space is skipped when no sign follows: `parseInt` of
      white space, digits and then a non-digit is the digits' value. */
  lemma ParseIntUnsignedAfterBlank(ws: string, d: string, rest: string)
    requires JsValue.Blank(ws)
    requires |d| > 0 && AllDigits(d)
    requires |rest| > 0 ==> !IsDigit(rest[0])
    ensures ParseInt(ws + d + rest) == Some(DigitsValue(d))
  {
    assert ws + d + rest == ws + (d + rest);
    assert (d + rest)[0] == d[0];
    ParseIntAfterBlank(ws, d + rest);
    ParseIntStopsAtNonDigit(d, rest);
  }

  lemma SignedRunAfterBlank(ws: string, sign: char, d: string, rest: string)
    requires sign == '-' || sign == '+'
    ensures ws + [sign] + d + rest == ws + ([sign] + d + rest)
    ensures ([sign] + d + rest)[0] == sign && !JsValue.IsWhiteSpace(sign)
  {
  }

  lemma DefaultPortValue()
    ensures AllDigits("5432") && DigitsValue("5432") == 5432
  {
    assert "5432"[..3] == "543";
    assert "543"[..2] == "54";
    assert "54"[..1] == "5";
    assert "5"[..0] == "";
  }

  /** `parseInt("5432")`, the default PostgreSQL port. */
  lemma ParseDefaultPort()
    ensures ParseInt("5432") == Some(5432)
  {
    DefaultPortValue();
    ParseIntStopsAtNonDigit("5432", "");
    assert "5432" + "" == "5432";
  }
}
