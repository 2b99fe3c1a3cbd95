/** Python's `float(str)` and `int(str)` over exact decimals.

    A float literal is, after stripping white space, an optional sign, a
    mantissa of digits with at most one `.` and at least one digit, and an
    optional exponent `e`/`E` followed by an optional sign and digits. The
    parsed value is kept exactly as `coefficient * 10^exponent`. */
module Decimal {
  import opened Wrappers
  import opened Text

  datatype Decimal = Decimal(negative: bool, coefficient: nat, exponent: int)

  /** `x * 10^e` for any integer `e`, one factor of ten at a time. */
  function ScaleBy(x: real, e: int): real
    decreases if e >= 0 then e else -e
  {
    if e == 0 then x
    else if e > 0 then ScaleBy(x * 10.0, e - 1)
    else ScaleBy(x / 10.0, e + 1)
  }

  function ToReal(d: Decimal): real {
    ScaleBy(if d.negative then -(d.coefficient as real) else d.coefficient as real, d.exponent)
  }

  lemma {:induction false} ScaleByNonNegative(x: real, e: int)
    requires x >= 0.0
    ensures ScaleBy(x, e) >= 0.0
    decreases if e >= 0 then e else -e
  {
    if e > 0 {
      ScaleByNonNegative(x * 10.0, e - 1);
    } else if e < 0 {
      ScaleByNonNegative(x / 10.0, e + 1);
    }
  }

  /** A decimal without a minus sign denotes a non-negative number. */
  lemma UnsignedNonNegative(d: Decimal)
    requires !d.negative
    ensures ToReal(d) >= 0.0
  {
    ScaleByNonNegative(d.coefficient as real, d.exponent);
  }

  /** Splits off one leading `+` or `-`. */
  function SplitSign(t: string): (r: (bool, string))
    ensures r.1 == t || (|t| > 0 && r.1 == t[1..] && (t[0] == '+' || t[0] == '-'))
    ensures r.0 <==> |t| > 0 && t[0] == '-'
  {
    if |t| > 0 && (t[0] == '+' || t[0] == '-') then (t[0] == '-', t[1..]) else (false, t)
  }

  predicate IsExponentMark(c: char) {
    c == 'e' || c == 'E'
  }

  /** Index of the first `e` or `E`, or `|s|`. */
  function IndexOfExponent(s: string): (i: nat)
    ensures i <= |s|
  {
    if |s| == 0 then 0
    else if IsExponentMark(s[0]) then 0
    else 1 + IndexOfExponent(s[1..])
  }

  lemma {:induction false} IndexOfExponentSpec(s: string)
    ensures IndexOfExponent(s) < |s| ==> IsExponentMark(s[IndexOfExponent(s)])
    ensures forall k :: 0 <= k < IndexOfExponent(s) ==> !IsExponentMark(s[k])
  {
    if |s| > 0 && !IsExponentMark(s[0]) {
      IndexOfExponentSpec(s[1..]);
    }
  }

  /** The first exponent mark (or `|s|` when there is none) is what
      `IndexOfExponent` returns. */
  lemma IndexOfExponentIs(s: string, i: nat)
    requires i <= |s|
    requires i < |s| ==> IsExponentMark(s[i])
    requires forall k :: 0 <= k < i ==> !IsExponentMark(s[k])
    ensures IndexOfExponent(s) == i
  {
    IndexOfExponentSpec(s);
  }

  /** Optional sign followed by at least one digit. */
  function ParseSignedDigits(s: string): Option<int> {
    var (neg, b) := SplitSign(s);
    if |b| > 0 && AllDigits(b) then
      Some(if neg then -(DigitsValue(b) as int) else DigitsValue(b))
    else None
  }

  /** A mantissa: digits, at most one `.`, at least one digit overall.
      Yields the digits read as one number and the count of digits after the point. */
  function ParseMantissa(m: string): Option<(nat, nat)> {
    var i := IndexOf(m, '.');
    if i == |m| then
      if |m| > 0 && AllDigits(m) then Some((DigitsValue(m), 0)) else None
    else
      var ip, fp := m[..i], m[i + 1..];
      if AllDigits(ip) && AllDigits(fp) && |ip| + |fp| > 0 then
        AllDigitsAppend(ip, fp);
        Some((DigitsValue(ip + fp), |fp|))
      else None
  }

  /** Python's `float(s)`: `None` stands for the `ValueError` it raises. */
  function ParseFloat(s: string): Option<Decimal> {
    var (neg, body) := SplitSign(Trim(s));
    ParseUnsigned(neg, body)
  }

  /** The part of a float literal after its sign. */
  function ParseUnsigned(neg: bool, body: string): Option<Decimal> {
    var k := IndexOfExponent(body);
    var e := if k == |body| then Some(0) else ParseSignedDigits(body[k + 1..]);
    match (ParseMantissa(body[..k]), e)
    case (Some((coef, fracLen)), Some(ex)) => Some(Decimal(neg, coef, ex - fracLen))
    case _ => None
  }

  /** Python's `int(s)` for a string: optional sign and digits, no point. */
  function ParseInt(s: string): Option<int> {
    ParseSignedDigits(Trim(s))
  }

  /** Every string `int()` accepts, `float()` accepts too, with the same value. */
  lemma IntIsFloat(s: string)
    ensures ParseInt(s).Some? ==>
      ParseFloat(s).Some? && ToReal(ParseFloat(s).value) == ParseInt(s).value as real
  {
    if ParseInt(s).None? { return; }
    var (neg, body) := SplitSign(Trim(s));
    NoExponentInDigits(body);
    MantissaOfDigits(body);
    assert body[..|body|] == body;
  }

  lemma NoExponentInDigits(s: string)
    requires AllDigits(s)
    ensures IndexOfExponent(s) == |s|
  {
    IndexOfExponentIs(s, |s|);
  }

  lemma MantissaOfDigits(s: string)
    requires AllDigits(s) && |s| > 0
    ensures ParseMantissa(s) == Some((DigitsValue(s), 0))
  {
    IndexOfIs(s, '.', |s|);
  }

  lemma ExponentAfterDigits(ds: string, es: string)
    requires AllDigits(ds)
    ensures IndexOfExponent(ds + "e" + es) == |ds|
  {
    var body := ds + "e" + es;
    forall k | 0 <= k < |ds| ensures !IsExponentMark(body[k]) {
      assert body[k] == ds[k];
    }
    assert body[|ds|] == 'e';
    IndexOfExponentIs(body, |ds|);
  }

  /** A canonical spelling of a decimal: `[-]digits e [-]digits`. */
  function Render(d: Decimal): string {
    (if d.negative then "-" else "") + NatToDigits(d.coefficient) + "e" + RenderInt(d.exponent)
  }

  function RenderInt(e: int): string {
    (if e < 0 then "-" else "") + NatToDigits(if e < 0 then -e else e)
  }

  lemma {:induction false} RenderIntParses(e: int)
    ensures ParseSignedDigits(RenderInt(e)) == Some(e)
  {
    var ds := NatToDigits(if e < 0 then -e else e);
    if e < 0 {
      assert RenderInt(e) == "-" + ds;
      assert SplitSign(RenderInt(e)) == (true, ds);
    } else {
      assert RenderInt(e) == ds;
      assert !(ds[0] == '+' || ds[0] == '-') by { assert IsDigit(ds[0]); }
      assert SplitSign(RenderInt(e)) == (false, ds);
    }
  }

  lemma DigitIsPlain(c: char)
    requires IsDigit(c)
    ensures !IsSpace(c) && c != '+' && c != '-' && c != '.' && c != 'e' && c != 'E'
  {
  }

  lemma {:induction false} RenderSplits(d: Decimal)
    ensures SplitSign(Trim(Render(d)))
         == (d.negative, NatToDigits(d.coefficient) + "e" + RenderInt(d.exponent))
  {
    var ds := NatToDigits(d.coefficient);
    var es := RenderInt(d.exponent);
    var body := ds + "e" + es;
    var s := (if d.negative then "-" else "") + body;
    assert s == Render(d);
    DigitIsPlain(ds[0]);
    DigitIsPlain(es[|es| - 1]);
    assert s[|s| - 1] == es[|es| - 1];
    if d.negative {
      assert s[0] == '-';
      TrimNoSpaceEnds(s);
      assert s[1..] == body;
    } else {
      assert s == body;
      assert s[0] == ds[0];
      TrimNoSpaceEnds(s);
      assert SplitSign(s) == (false, s);
    }
  }

  /** Rendering then parsing gives back the same decimal, sign and all. */
  lemma {:induction false} ParseRender(d: Decimal)
    ensures ParseFloat(Render(d)) == Some(d)
  {
    var ds := NatToDigits(d.coefficient);
    var es := RenderInt(d.exponent);
    var body := ds + "e" + es;
    RenderSplits(d);
    ExponentAfterDigits(ds, es);
    assert body[..|ds|] == ds;
    assert body[|ds| + 1..] == es;
    MantissaOfDigits(ds);
    RenderIntParses(d.exponent);
  }
}
