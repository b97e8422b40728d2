/**
 * Decimal numerals: digit strings, Python's float() on plain decimal literals,
 * JavaScript's parseFloat prefix parse, rounding, and the textual forms the
 * programs print numbers in (f"{v:+.2f}", repr(float), String(number)).
 * Odds and lines are exact reals; binary floating point is not modelled.
 */
module Numerals {
  import opened Text
  import opened Wrappers

  function Abs(x: real): (r: real)
    ensures r >= 0.0 && (r == x || r == -x)
  {
    if x < 0.0 then -x else x
  }

  function DigitChar(d: nat): (c: char)
    requires d < 10
    ensures IsDigit(c)
  {
    ('0' as int + d) as char
  }

  function DigitValue(c: char): (d: nat)
    requires IsDigit(c)
    ensures d < 10
  {
    c as int - '0' as int
  }

  predicate AllDigits(s: string) {
    forall i :: 0 <= i < |s| ==> IsDigit(s[i])
  }

  function Pow10(k: nat): (p: nat)
    ensures p >= 1
  {
    if k == 0 then 1 else 10 * Pow10(k - 1)
  }

  /** Python str(n) / JavaScript String(n) of a non-negative integer. */
  function NatToString(n: nat): (s: string)
    ensures s != [] && AllDigits(s)
    ensures |s| > 1 ==> s[0] != '0'
  {
    if n < 10 then [DigitChar(n)] else NatToString(n / 10) + [DigitChar(n % 10)]
  }

  /** str(i) of a Python int (a leading '-' when negative, no '+'). */
  function IntToString(i: int): (s: string)
    ensures i >= 0 ==> s == NatToString(i)
    ensures i < 0 ==> s == "-" + NatToString(-i)
  {
    if i < 0 then "-" + NatToString(-i) else NatToString(i)
  }

  function DigitsValue(s: string): nat
    requires AllDigits(s)
  {
    if s == [] then 0 else 10 * DigitsValue(s[..|s| - 1]) + DigitValue(s[|s| - 1])
  }

  lemma {:induction false} NatToStringValue(n: nat)
    ensures DigitsValue(NatToString(n)) == n
  {
    if n >= 10 {
      NatToStringValue(n / 10);
      var s := NatToString(n);
      assert s[..|s| - 1] == NatToString(n / 10);
    }
  }

  /** Length of the maximal run of digits at the start of s. */
  function DigitRun(s: string): (k: nat)
    ensures k <= |s| && AllDigits(s[..k])
    ensures k < |s| ==> !IsDigit(s[k])
  {
    if s != [] && IsDigit(s[0]) then
      var k := 1 + DigitRun(s[1..]);
      assert forall i :: 1 <= i < k ==> s[..k][i] == s[1..][..k - 1][i - 1];
      k
    else 0
  }

  lemma DigitRunAll(s: string)
    requires AllDigits(s)
    ensures DigitRun(s) == |s|
  {
  }

  lemma DigitRunStops(s: string, t: string)
    requires AllDigits(s) && t != [] && !IsDigit(t[0])
    ensures DigitRun(s + t) == |s|
  {
    if s != [] {
      assert (s + t)[1..] == s[1..] + t;
      DigitRunStops(s[1..], t);
    }
  }

  function FracValue(ds: string): real
    requires AllDigits(ds)
  {
    DigitsValue(ds) as real / Pow10(|ds|) as real
  }

  /** digits [ '.' digits ] or '.' digits, with at least one digit in all. */
  function ParseUnsigned(s: string): Option<real>
  {
    var a := DigitRun(s);
    if a == |s| then
      (if a > 0 then Some(DigitsValue(s) as real) else None)
    else if s[a] != '.' then None
    else
      var frac := s[a + 1..];
      if AllDigits(frac) && (a > 0 || frac != []) then
        Some(DigitsValue(s[..a]) as real + FracValue(frac))
      else None
  }

  /** Python float(s) on a decimal literal with an optional sign (no surrounding whitespace). */
  function ParseDecimal(s: string): Option<real>
  {
    if s != [] && (s[0] == '+' || s[0] == '-') then
      match ParseUnsigned(s[1..])
      case None => None
      case Some(v) => Some(if s[0] == '-' then -v else v)
    else ParseUnsigned(s)
  }

  /**
   * Python float(s) on decimal literals: surrounding whitespace is allowed,
   * blank text raises, and whatever reads holds a digit.  None stands for
   * ValueError.
   */
  function PyFloat(s: string): (r: Option<real>)
    ensures Strip(s) == [] ==> r.None?
    ensures r.Some? ==> HasDigit(s)
  {
    DecimalHasDigit(Strip(s));
    ParseDecimal(Strip(s))
  }

  predicate HasDigit(s: string) {
    exists i :: 0 <= i < |s| && IsDigit(s[i])
  }

  /** An unsigned literal has a digit before or after its '.'. */
  lemma UnsignedHasDigit(t: string)
    ensures ParseUnsigned(t).Some? ==> HasDigit(t)
  {
    var a := DigitRun(t);
    if ParseUnsigned(t).Some? {
      if a > 0 {
        assert IsDigit(t[..a][0]);
      } else {
        assert IsDigit(t[a + 1..][0]);
      }
    }
  }

  /** A signed literal has a digit, and so does any text it is stripped from. */
  lemma DecimalHasDigit(t: string)
    ensures ParseDecimal(t).Some? ==> HasDigit(t)
    ensures forall s :: Strip(s) == t && ParseDecimal(t).Some? ==> HasDigit(s)
  {
    if t != [] && (t[0] == '+' || t[0] == '-') {
      UnsignedHasDigit(t[1..]);
      if ParseDecimal(t).Some? {
        var i :| 0 <= i < |t[1..]| && IsDigit(t[1..][i]);
        assert IsDigit(t[i + 1]);
      }
    } else {
      UnsignedHasDigit(t);
    }
    forall s | Strip(s) == t && ParseDecimal(t).Some? ensures HasDigit(s) {
      var i :| 0 <= i < |t| && IsDigit(t[i]);
      assert t[i] in s;
    }
  }

  lemma ParseNat(n: nat)
    ensures ParseUnsigned(NatToString(n)) == Some(n as real)
  {
    DigitRunAll(NatToString(n));
    NatToStringValue(n);
  }

  lemma ParseNatFrac(n: nat, ds: string)
    requires AllDigits(ds)
    ensures ParseUnsigned(NatToString(n) + "." + ds) == Some(n as real + FracValue(ds))
  {
    var s := NatToString(n) + "." + ds;
    assert s == NatToString(n) + ("." + ds);
    DigitRunStops(NatToString(n), "." + ds);
    assert s[..|NatToString(n)|] == NatToString(n);
    assert s[|NatToString(n)| + 1..] == ds;
    NatToStringValue(n);
  }

  lemma ParseSigned(sign: char, t: string)
    requires sign == '+' || sign == '-'
    ensures ParseDecimal([sign] + t) ==
      match ParseUnsigned(t)
      case None => None
      case Some(v) => Some(if sign == '-' then -v else v)
  {
    assert ([sign] + t)[1..] == t;
  }

  /** Python round(x) / int(round(x)): nearest integer, ties to even. */
  function RoundHalfEven(x: real): (r: int)
    ensures x - 0.5 <= r as real <= x + 0.5
    ensures x >= 0.0 ==> r >= 0
  {
    var f := x.Floor;
    var d := x - f as real;
    if d < 0.5 then f
    else if d > 0.5 then f + 1
    else if f % 2 == 0 then f else f + 1
  }

  lemma RoundInteger(n: int)
    ensures RoundHalfEven(n as real) == n
  {
    assert (n as real).Floor == n;
  }

  /** Python round(x, 3) under exact arithmetic. */
  function Round3(x: real): (r: real)
    ensures Abs(r - x) <= 0.0005
  {
    RoundHalfEven(x * 1000.0) as real / 1000.0
  }

  function TwoDigits(n: nat): (s: string)
    requires n < 100
    ensures |s| == 2 && AllDigits(s)
  {
    [DigitChar(n / 10), DigitChar(n % 10)]
  }

  /** Magnitude in hundredths, rounded half to even, as f"{v:.2f}" rounds it. */
  function Hundredths(v: real): nat
  {
    RoundHalfEven(Abs(v) * 100.0)
  }

  /** v rounded half-even to hundredths, keeping its sign. */
  function GridValue(v: real): real
  {
    var mag := Hundredths(v) as real / 100.0;
    if v < 0.0 then -mag else mag
  }

  /** The grid value from the whole part and the hundredths remainder. */
  lemma GridParts(v: real, n: nat, c: nat)
    requires Hundredths(v) == 100 * n + c
    ensures var mag := n as real + c as real / 100.0;
      GridValue(v) == if v < 0.0 then -mag else mag
  {
  }

  /** f"{v:+.2f}": explicit sign, two decimals. */
  function SignedFixed2(v: real): (r: string)
    ensures |r| > 0 && r[0] == (if v < 0.0 then '-' else '+')
  {
    var h := Hundredths(v);
    (if v < 0.0 then "-" else "+") + NatToString(h / 100) + "." + TwoDigits(h % 100)
  }

  /** Decimal digits of a hundredths remainder with trailing zeros removed ("" for 0). */
  function CentsDigits(c: nat): (s: string)
    requires c < 100
    ensures AllDigits(s)
  {
    if c == 0 then ""
    else if c % 10 == 0 then [DigitChar(c / 10)]
    else TwoDigits(c)
  }

  lemma CentsDigitsValue(c: nat)
    requires 0 < c < 100
    ensures FracValue(CentsDigits(c)) == c as real / 100.0
  {
    if c % 10 == 0 {
      assert DigitsValue(CentsDigits(c)) == c / 10 by {
        assert CentsDigits(c)[..0] == [];
      }
    } else {
      var s := TwoDigits(c);
      assert s[..1][..0] == [];
      assert DigitValue(s[0]) == c / 10 && DigitValue(s[1]) == c % 10;
      assert DigitsValue(s[..1]) == c / 10;
      assert DigitsValue(s) == c;
    }
  }

  /** The fractional digits repr prints for a hundredths remainder: at least one. */
  function ReprCents(c: nat): (s: string)
    requires c < 100
    ensures s != [] && AllDigits(s)
  {
    if c == 0 then "0" else CentsDigits(c)
  }

  /**
   * Python repr(float) of a value on the hundredths grid: int part, '.', at least one
   * fractional digit, no trailing zeros beyond it.  Values off the grid are rounded
   * to hundredths first (an approximation of the shortest repr).
   */
  function PyFloatRepr(x: real): (r: string)
    ensures r != [] && r[0] != '+'
  {
    ReprOf(x < 0.0, Hundredths(x))
  }

  /** The repr of a value with sign neg and magnitude h hundredths. */
  function ReprOf(neg: bool, h: nat): (r: string)
    ensures r != [] && r[0] != '+'
  {
    Signed(neg, ReprMagnitude(h))
  }

  /** An unsigned literal, with a '-' in front when neg holds. */
  function Signed(neg: bool, body: string): (r: string)
    ensures r == (if neg then ['-'] + body else body)
  {
    if neg then ['-'] + body else body
  }

  /** The unsigned part of a repr: whole digits, '.', at least one fractional digit. */
  function ReprMagnitude(h: nat): (r: string)
    ensures r != [] && IsDigit(r[0])
  {
    var ns := NatToString(h / 100);
    var r := ns + "." + ReprCents(h % 100);
    assert r[0] == ns[0];
    r
  }

  lemma ReprCentsValue(c: nat)
    requires c < 100
    ensures FracValue(ReprCents(c)) == c as real / 100.0
  {
    if c == 0 {
      assert DigitsValue("0") == 0 by { assert "0"[..0] == []; }
    } else {
      CentsDigitsValue(c);
    }
  }

  /** The unsigned part of a repr: whole digits, '.', fractional digits. */
  lemma ReprBodyParses(n: nat, c: nat)
    requires c < 100
    ensures ParseUnsigned(NatToString(n) + "." + ReprCents(c)) == Some(n as real + c as real / 100.0)
  {
    ParseNatFrac(n, ReprCents(c));
    ReprCentsValue(c);
  }

  lemma ReprBodyEnds(n: nat, c: nat)
    requires c < 100
    ensures var body := NatToString(n) + "." + ReprCents(c);
      body != [] && IsDigit(body[0]) && IsDigit(body[|body| - 1])
  {
    var ns, rc := NatToString(n), ReprCents(c);
    var body := ns + "." + rc;
    assert body[|body| - 1] == rc[|rc| - 1];
    assert body[0] == ns[0];
  }

  lemma StrippedFloat(s: string)
    requires Strip(s) == s
    ensures PyFloat(s) == ParseDecimal(s)
  {
  }

  /** An unsigned literal that starts and ends with a digit reads the same through float(). */
  lemma UnsignedFloat(body: string, v: real)
    requires ParseUnsigned(body) == Some(v)
    requires body != [] && IsDigit(body[0]) && IsDigit(body[|body| - 1])
    ensures PyFloat(body) == Some(v)
  {
    StrippedFloat(body);
  }

  lemma NegatedDecimal(body: string, v: real)
    requires ParseUnsigned(body) == Some(v)
    ensures ParseDecimal(['-'] + body) == Some(-v)
  {
    ParseSigned('-', body);
  }

  lemma NegatedStrip(body: string)
    requires body != [] && IsDigit(body[|body| - 1])
    ensures Strip(['-'] + body) == ['-'] + body
  {
    var s := ['-'] + body;
    assert s[|s| - 1] == body[|body| - 1];
  }

  /** A '-' in front of an unsigned literal that ends with a digit negates it. */
  lemma NegatedFloat(body: string, v: real)
    requires ParseUnsigned(body) == Some(v)
    requires body != [] && IsDigit(body[|body| - 1])
    ensures PyFloat(['-'] + body) == Some(-v)
  {
    NegatedStrip(body);
    StrippedFloat(['-'] + body);
    NegatedDecimal(body, v);
  }

  lemma ReprBody(n: nat, c: nat) returns (body: string)
    requires c < 100
    ensures body == NatToString(n) + "." + ReprCents(c)
    ensures ParseUnsigned(body) == Some(n as real + c as real / 100.0)
    ensures body != [] && IsDigit(body[0]) && IsDigit(body[|body| - 1])
  {
    body := NatToString(n) + "." + ReprCents(c);
    ReprBodyEnds(n, c);
    ReprBodyParses(n, c);
  }

  lemma HundredthsParts(h: nat, n: nat, c: nat)
    requires n == h / 100 && c == h % 100
    ensures n as real + c as real / 100.0 == h as real / 100.0
  {
  }

  lemma MagnitudeParses(h: nat)
    ensures ParseUnsigned(ReprMagnitude(h)) == Some(h as real / 100.0)
    ensures IsDigit(ReprMagnitude(h)[|ReprMagnitude(h)| - 1])
  {
    var b := ReprBody(h / 100, h % 100);
    HundredthsParts(h, h / 100, h % 100);
  }

  /** float() of an unsigned literal that starts and ends with a digit, signed or not. */
  lemma SignedFloat(neg: bool, body: string, v: real)
    requires ParseUnsigned(body) == Some(v)
    requires body != [] && IsDigit(body[0]) && IsDigit(body[|body| - 1])
    ensures PyFloat(Signed(neg, body)) == Some(if neg then -v else v)
  {
    if neg {
      NegatedFloat(body, v);
    } else {
      UnsignedFloat(body, v);
    }
  }

  lemma ReprOfParses(neg: bool, h: nat)
    ensures PyFloat(ReprOf(neg, h)) == Some(if neg then -(h as real / 100.0) else h as real / 100.0)
  {
    var body, v := ReprMagnitude(h), h as real / 100.0;
    assert ReprOf(neg, h) == Signed(neg, body);
    MagnitudeParses(h);
    assert body != [] && IsDigit(body[0]);
    SignedFloat(neg, body, v);
  }

  lemma PyFloatReprOf(x: real)
    ensures PyFloatRepr(x) == ReprOf(x < 0.0, Hundredths(x))
  {
  }

  lemma GridValueOf(x: real)
    ensures GridValue(x) == (if x < 0.0 then -(Hundredths(x) as real / 100.0) else Hundredths(x) as real / 100.0)
  {
  }

  /** float(repr(x)) gives back x rounded to hundredths. */
  lemma PyFloatReprParses(x: real)
    ensures PyFloat(PyFloatRepr(x)) == Some(GridValue(x))
  {
    PyFloatReprOf(x);
    GridValueOf(x);
    ReprOfParses(x < 0.0, Hundredths(x));
  }

  /** Rounding to hundredths is idempotent, and the grid is closed under negation. */
  lemma GridValueOnGrid(v: real)
    ensures GridValue(GridValue(v)) == GridValue(v)
    ensures GridValue(-GridValue(v)) == -GridValue(v)
  {
    var h := Hundredths(v);
    var g := GridValue(v);
    assert Abs(g) * 100.0 == h as real;
    assert Abs(-g) * 100.0 == h as real;
    RoundInteger(h);
  }

  /** On the hundredths grid the repr reads back exactly. */
  lemma PyFloatReprExact(x: real)
    requires GridValue(x) == x
    ensures PyFloat(PyFloatRepr(x)) == Some(x)
  {
    PyFloatReprParses(x);
  }

  /** repr(0.0) is "0.0". */
  lemma PyFloatReprZero()
    ensures PyFloatRepr(0.0) == "0.0"
  {
    assert Hundredths(0.0) == 0 by { RoundInteger(0); }
  }

  /** f"{v:.2f}": a '-' only for negative values (also when they round to zero), two decimals. */
  function Fixed2(v: real): (r: string)
    ensures r != [] && (r[0] == '-' <==> v < 0.0)
  {
    Signed(v < 0.0, Fixed2Magnitude(Hundredths(v)))
  }

  /** h hundredths as whole digits, '.', and exactly two digits. */
  function Fixed2Magnitude(h: nat): (r: string)
    ensures r != [] && IsDigit(r[0])
  {
    var ns := NatToString(h / 100);
    var r := ns + "." + TwoDigits(h % 100);
    assert r[0] == ns[0];
    r
  }

  lemma TwoDigitsValue(c: nat)
    requires c < 100
    ensures FracValue(TwoDigits(c)) == c as real / 100.0
  {
    var s := TwoDigits(c);
    assert s[..1][..0] == [];
    assert DigitValue(s[0]) == c / 10 && DigitValue(s[1]) == c % 10;
    assert DigitsValue(s[..1]) == c / 10;
    assert DigitsValue(s) == c;
  }

  /** The magnitude text reads back as h / 100 and ends in '.' and two digits. */
  lemma Fixed2MagnitudeParses(h: nat)
    ensures var body := Fixed2Magnitude(h);
      ParseUnsigned(body) == Some(h as real / 100.0) &&
      IsDigit(body[|body| - 1]) &&
      |body| >= 4 && body[|body| - 3] == '.' && IsDigit(body[|body| - 2])
  {
    var n, c := h / 100, h % 100;
    var ns, ts := NatToString(n), TwoDigits(c);
    var body := ns + "." + ts;
    assert Fixed2Magnitude(h) == body;
    ParseNatFrac(n, ts);
    TwoDigitsValue(c);
    HundredthsParts(h, n, c);
    assert body[|body| - 3..] == "." + ts;
  }

  /** The signed two-decimal text of h hundredths ends in '.' and two digits. */
  lemma Fixed2TextEnds(neg: bool, h: nat)
    ensures var r := Signed(neg, Fixed2Magnitude(h));
      |r| >= 4 && r[|r| - 3] == '.' && IsDigit(r[|r| - 2]) && IsDigit(r[|r| - 1])
  {
    var body := Fixed2Magnitude(h);
    Fixed2MagnitudeParses(h);
    var r := Signed(neg, body);
    assert r[|r| - 3..] == body[|body| - 3..];
  }

  /** The signed two-decimal text of h hundredths reads back as h / 100 with its sign. */
  lemma Fixed2TextParses(neg: bool, h: nat)
    ensures PyFloat(Signed(neg, Fixed2Magnitude(h))) == Some(if neg then -(h as real / 100.0) else h as real / 100.0)
  {
    Fixed2MagnitudeParses(h);
    SignedFloat(neg, Fixed2Magnitude(h), h as real / 100.0);
  }

  /** float(f"{v:.2f}") gives back v rounded to hundredths; the text ends in '.' and two digits. */
  lemma Fixed2Parses(v: real)
    ensures var r := Fixed2(v); |r| >= 4 && r[|r| - 3] == '.' && IsDigit(r[|r| - 2]) && IsDigit(r[|r| - 1])
    ensures PyFloat(Fixed2(v)) == Some(GridValue(v))
  {
    Fixed2TextEnds(v < 0.0, Hundredths(v));
    Fixed2TextParses(v < 0.0, Hundredths(v));
    GridValueOf(v);
  }

  /**
   * JavaScript String(x) of a value on the hundredths grid: no fractional part when
   * integral, otherwise the fractional digits without trailing zeros.  Off-grid values
   * are rounded to hundredths first (an approximation).  String(-0) is "0".
   */
  function JsNumberString(x: real): string
  {
    var h := Hundredths(x);
    var body := NatToString(h / 100) + (if h % 100 == 0 then "" else "." + CentsDigits(h % 100));
    if x < 0.0 && h != 0 then "-" + body else body
  }

  /**
   * JavaScript parseFloat(s): skip leading whitespace, then the longest prefix that is
   * a signed decimal literal.  None stands for NaN.  Exponents and "Infinity" are not
   * modelled.
   */
  function JsParseFloat(s: string): Option<real>
  {
    var t := TrimStart(s);
    if t != [] && (t[0] == '+' || t[0] == '-') then
      match JsUnsignedPrefix(t[1..])
      case None => None
      case Some(v) => Some(if t[0] == '-' then -v else v)
    else JsUnsignedPrefix(t)
  }

  function JsUnsignedPrefix(s: string): Option<real>
  {
    var a := DigitRun(s);
    if a < |s| && s[a] == '.' then
      var b := DigitRun(s[a + 1..]);
      if a + b == 0 then None
      else Some(DigitsValue(s[..a]) as real + FracValue(s[a + 1..][..b]))
    else if a == 0 then None
    else Some(DigitsValue(s[..a]) as real)
  }

  lemma JsParseNat(n: nat)
    ensures JsUnsignedPrefix(NatToString(n)) == Some(n as real)
  {
    DigitRunAll(NatToString(n));
    NatToStringValue(n);
    assert NatToString(n)[..|NatToString(n)|] == NatToString(n);
  }
}
