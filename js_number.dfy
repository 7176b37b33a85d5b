/** The two number conversions the swap form relies on, on exact values:
    `parseFloat` of unsigned decimal text and `Number.prototype.toFixed(6)`
    of a non-negative number.  IEEE rounding, leading white space, signs,
    exponents and "Infinity" are not modelled. */
module JsNumber {
  import opened Wrappers

  predicate IsDigit(c: char) {
    '0' <= c <= '9'
  }

  predicate AllDigits(s: string) {
    forall i :: 0 <= i < |s| ==> IsDigit(s[i])
  }

  function DigitValue(c: char): nat
    requires IsDigit(c)
  {
    c as int - '0' as int
  }

  function DigitChar(d: nat): (c: char)
    requires d < 10
    ensures IsDigit(c) && DigitValue(c) == d
  {
    ('0' as int + d) as char
  }

  function Pow10(n: nat): (p: nat)
    ensures p >= 1
  {
    if n == 0 then 1 else 10 * Pow10(n - 1)
  }

  /** The value of a string of decimal digits ("" is 0). */
  function DigitsValue(s: string): nat
    requires AllDigits(s)
  {
    if s == [] then 0 else DigitsValue(s[..|s| - 1]) * 10 + DigitValue(s[|s| - 1])
  }

  /** The length of the longest prefix of `s` made of digits. */
  function LeadingDigits(s: string): (k: nat)
    ensures k <= |s|
    ensures AllDigits(s[..k])
    ensures k < |s| ==> !IsDigit(s[k])
  {
    if s == [] || !IsDigit(s[0]) then 0
    else
      var k' := LeadingDigits(s[1..]);
      assert s[..1 + k'] == [s[0]] + s[1..][..k'];
      1 + k'
  }

  /** The digits after the decimal point that `parseFloat` reads. */
  function FractionDigits(s: string): (f: string)
    ensures AllDigits(f)
  {
    var rest := s[LeadingDigits(s)..];
    if |rest| > 0 && rest[0] == '.' then rest[1..][..LeadingDigits(rest[1..])] else ""
  }

  /** `parseFloat` on unsigned decimal text: the value of the longest prefix of
      the form digits ['.' digits] holding at least one digit, or None for NaN. */
  function ParseFloat(s: string): (r: Option<real>)
    ensures r.Some? ==> r.value >= 0.0
    ensures r.None? <==> LeadingDigits(s) == 0 && FractionDigits(s) == ""
  {
    var k := LeadingDigits(s);
    var frac := FractionDigits(s);
    if k == 0 && frac == "" then None
    else Some(DigitsValue(s[..k]) as real + DigitsValue(frac) as real / Pow10(|frac|) as real)
  }

  /** The decimal numeral of `n`, without leading zeros. */
  function NatToDecimal(n: nat): (s: string)
    ensures |s| >= 1 && AllDigits(s)
    ensures DigitsValue(s) == n
    ensures |s| > 1 ==> s[0] != '0'
  {
    if n < 10 then [DigitChar(n)]
    else
      var s := NatToDecimal(n / 10) + [DigitChar(n % 10)];
      assert s[..|s| - 1] == NatToDecimal(n / 10);
      s
  }

  /** `n` written with exactly `width` digits, padded with leading zeros. */
  function FixedDigits(n: nat, width: nat): (s: string)
    requires n < Pow10(width)
    ensures |s| == width && AllDigits(s)
    ensures DigitsValue(s) == n
  {
    if width == 0 then []
    else
      var s := FixedDigits(n / 10, width - 1) + [DigitChar(n % 10)];
      assert s[..|s| - 1] == FixedDigits(n / 10, width - 1);
      s
  }

  /** The number of millionths nearest to `x`; a tie goes to the larger one. */
  function RoundToMillionths(x: real): (n: nat)
    requires x >= 0.0
    ensures n as real - 0.5 <= x * 1000000.0 < n as real + 0.5
  {
    (x * 1000000.0 + 0.5).Floor
  }

  /** `x.toFixed(6)` for 0 <= x < 10^21: integer part, '.', six decimals. */
  function ToFixed6(x: real): (s: string)
    requires x >= 0.0
  {
    var n := RoundToMillionths(x);
    NatToDecimal(n / 1000000) + "." + FixedDigits(n % 1000000, 6)
  }

  lemma {:induction false} LeadingDigitsAfterDigits(a: string, rest: string)
    requires AllDigits(a)
    ensures LeadingDigits(a + rest) == |a| + LeadingDigits(rest)
  {
    if a != [] {
      assert (a + rest)[0] == a[0] && IsDigit(a[0]);
      assert (a + rest)[1..] == a[1..] + rest;
      LeadingDigitsAfterDigits(a[1..], rest);
    } else {
      assert a + rest == rest;
    }
  }

  /** Reading back what `toFixed(6)` wrote gives the rounded value exactly. */
  lemma ParseToFixed6(x: real)
    requires x >= 0.0
    ensures ParseFloat(ToFixed6(x)) == Some(RoundToMillionths(x) as real / 1000000.0)
  {
    var n := RoundToMillionths(x);
    var ip, fp := NatToDecimal(n / 1000000), FixedDigits(n % 1000000, 6);
    FixedTextSplits(ip, fp);
    assert Pow10(6) == 1000000;
    MillionthsValue(n);
  }

  /** Digits, '.', digits: `parseFloat` reads both digit runs. */
  lemma FixedTextSplits(ip: string, fp: string)
    requires AllDigits(ip) && AllDigits(fp)
    ensures LeadingDigits(ip + "." + fp) == |ip|
    ensures (ip + "." + fp)[..|ip|] == ip
    ensures FractionDigits(ip + "." + fp) == fp
  {
    var s := ip + "." + fp;
    LeadingOfFixedText(ip, fp);
    assert s[|ip|] == '.' && s[|ip| + 1..] == fp;
    FractionAfterPoint(s, |ip|);
    AllDigitsLead(fp);
  }

  /** When the leading digits stop at a '.', the fraction is the digit run after it. */
  lemma FractionAfterPoint(s: string, k: nat)
    requires LeadingDigits(s) == k && k < |s| && s[k] == '.'
    ensures FractionDigits(s) == s[k + 1..][..LeadingDigits(s[k + 1..])]
  {
    assert s[k..][1..] == s[k + 1..];
  }

  lemma LeadingOfFixedText(ip: string, fp: string)
    requires AllDigits(ip)
    ensures LeadingDigits(ip + "." + fp) == |ip|
  {
    assert ip + "." + fp == ip + ("." + fp);
    LeadingDigitsAfterDigits(ip, "." + fp);
  }

  lemma AllDigitsLead(s: string)
    requires AllDigits(s)
    ensures LeadingDigits(s) == |s| && s[..LeadingDigits(s)] == s
  {
    LeadingDigitsAfterDigits(s, "");
    assert s + "" == s;
  }

  lemma MillionthsValue(n: nat)
    ensures (n / 1000000) as real + (n % 1000000) as real / 1000000.0 == n as real / 1000000.0
  {
    var q, r := n / 1000000, n % 1000000;
    assert n == q * 1000000 + r;
    assert (q * 1000000 + r) as real == q as real * 1000000.0 + r as real;
  }

  /** `toFixed(6)` from the quotient and remainder of the rounded count of millionths. */
  lemma ToFixed6Parts(x: real, q: nat, r: nat)
    requires x >= 0.0 && r < 1000000 && RoundToMillionths(x) == q * 1000000 + r
    ensures ToFixed6(x) == NatToDecimal(q) + "." + FixedDigits(r, 6)
  {
    var n := RoundToMillionths(x);
    assert n / 1000000 == q && n % 1000000 == r;
  }

  /** What `toFixed(6)` writes is digits with exactly one '.', six digits after it. */
  lemma ToFixed6Shape(x: real)
    requires x >= 0.0
    ensures var s := ToFixed6(x);
      |s| >= 8 && s[|s| - 7] == '.' && AllDigits(s[..|s| - 7]) && AllDigits(s[|s| - 6..])
  {
    var n := RoundToMillionths(x);
    var ip, fp := NatToDecimal(n / 1000000), FixedDigits(n % 1000000, 6);
    var s := ip + "." + fp;
    assert s[..|s| - 7] == ip;
    assert s[|s| - 6..] == fp;
  }
}
