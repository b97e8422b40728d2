/**
 * Odds-text parsing of the BetBCK scraper: the canonical text of a handicap or
 * total line (normalize_asian_handicap), the signed American odds taken out of a
 * cell's text, the total line of an over/under cell, and the line/odds pairs of a
 * spread drop-down.  Cell elements are represented by the text they render.
 */
module OddsText {
  import opened Text
  import opened Numerals
  import opened Wrappers

  /** The vulgar fraction one half, which the site writes in lines such as "2½". */
  const Half: char := '\U{00BD}'
  /** The no-break space. */
  const Nbsp: char := '\U{00A0}'

  // ---------------------------------------------------------------------------
  // Canonical line text
  // ---------------------------------------------------------------------------

  function SignChar(v: real): char {
    if v < 0.0 then '-' else '+'
  }

  /** The fractional part of a canonical line: nothing for whole numbers, ".5" for halves. */
  function LineFraction(c: nat): string
    requires c < 100
  {
    if c == 0 then "" else if c == 50 then ".5" else "." + TwoDigits(c)
  }

  /** Cut a trailing ".00", or else shorten ".50" to ".5". */
  function Shorten(fmt: string): string
  {
    if EndsWith(fmt, ".00") then fmt[..|fmt| - 3] else ReplaceAll(fmt, ".50", ".5")
  }

  /**
   * The text a parsed line value is given: "0" for zero, otherwise f"{v:+.2f}"
   * shortened, which is the sign, the whole part and the canonical fraction
   * of the value's hundredths.
   */
  function FormatLine(v: real): (r: string)
    ensures v == 0.0 ==> r == "0"
    ensures v != 0.0 ==>
      var h := Hundredths(v);
      r == [SignChar(v)] + NatToString(h / 100) + LineFraction(h % 100)
  {
    if v == 0.0 then
      assert !EndsWith("0", ".00");
      Shorten("0")
    else
      var h := Hundredths(v);
      var p := [SignChar(v)] + NatToString(h / 100);
      assert SignedFixed2(v) == p + ("." + TwoDigits(h % 100));
      assert '.' !in p by {
        assert forall i :: 1 <= i < |p| ==> p[i] == NatToString(h / 100)[i - 1];
      }
      ShortenFixed(p, h % 100);
      Shorten(SignedFixed2(v))
  }

  lemma TwoDigitsZero(c: nat)
    requires c < 100
    ensures TwoDigits(c) == "00" <==> c == 0
    ensures TwoDigits(c) == "50" <==> c == 50
  {
  }

  lemma ShortenWhole(p: string)
    ensures Shorten(p + ".00") == p
  {
    var fmt := p + ".00";
    assert fmt[|fmt| - 3..] == ".00";
    assert fmt[..|fmt| - 3] == p;
  }

  lemma ShortenHalf(p: string)
    requires '.' !in p
    ensures Shorten(p + ".50") == p + ".5"
  {
    var fmt := p + ".50";
    assert fmt[|fmt| - 3..] == ".50";
    ReplaceAllSkip(p, ".50", ".50", ".5");
    assert ReplaceAll(".50", ".50", ".5") == ".5";
  }

  lemma ShortenOther(p: string, d: string)
    requires '.' !in p && |d| == 2 && d != "00" && d != "50"
    ensures Shorten(p + ("." + d)) == p + ("." + d)
  {
    var tail := "." + d;
    var fmt := p + tail;
    assert fmt[|fmt| - 3..] == tail;
    assert tail[1..] == d;
    ReplaceAllSkip(p, tail, ".50", ".5");
    assert tail[..3] == tail;
    assert !StartsWith(tail, ".50");
    assert ReplaceAll(tail, ".50", ".5") == "." + ReplaceAll(d, ".50", ".5");
  }

  /** Shortening a fixed two-decimal text whose integer part has no '.'. */
  lemma ShortenFixed(p: string, c: nat)
    requires c < 100 && '.' !in p
    ensures Shorten(p + ("." + TwoDigits(c))) == p + LineFraction(c)
  {
    TwoDigitsZero(c);
    if c == 0 {
      assert "." + TwoDigits(c) == ".00";
      ShortenWhole(p);
    } else if c == 50 {
      assert "." + TwoDigits(c) == ".50";
      ShortenHalf(p);
    } else {
      ShortenOther(p, TwoDigits(c));
    }
  }

  /**
   * A non-zero value is written as its sign, the whole part of its hundredths without
   * leading zeros, and the shortened fraction; n and c are that whole part and remainder.
   */
  lemma FormatLineShape(v: real) returns (n: nat, c: nat)
    requires v != 0.0
    ensures c < 100 && Hundredths(v) == 100 * n + c
    ensures FormatLine(v) == [SignChar(v)] + NatToString(n) + LineFraction(c)
  {
    n, c := Hundredths(v) / 100, Hundredths(v) % 100;
  }

  lemma FormatZero()
    ensures FormatLine(0.0) == "0"
  {
    assert !EndsWith("0", ".00");
  }

  /** Zero is written unsigned; positive values carry '+', negative values '-'. */
  lemma FormatLineSign(v: real)
    ensures v == 0.0 ==> FormatLine(v) == "0"
    ensures v > 0.0 ==> FormatLine(v) != [] && FormatLine(v)[0] == '+'
    ensures v < 0.0 ==> FormatLine(v) != [] && FormatLine(v)[0] == '-'
  {
    if v == 0.0 {
      FormatZero();
    } else {
      var n, c := FormatLineShape(v);
    }
  }

  /** A value that rounds to zero hundredths but is not zero keeps its sign: "+0" or "-0". */
  lemma FormatTinyValue(v: real)
    requires v != 0.0 && Hundredths(v) == 0
    ensures FormatLine(v) == [SignChar(v), '0']
  {
    var n, c := FormatLineShape(v);
    assert NatToString(0) == "0";
  }

  lemma TinyValueExample()
    ensures FormatLine(0.001) == "+0"
  {
    assert Abs(0.001) * 100.0 == 0.1;
    assert Hundredths(0.001) == 0;
    FormatTinyValue(0.001);
  }

  lemma LineFractionValue(c: nat)
    requires c < 100
    ensures c > 0 ==> AllDigits(LineFraction(c)[1..]) && FracValue(LineFraction(c)[1..]) == c as real / 100.0
  {
    if c > 0 {
      var ds := LineFraction(c)[1..];
      if c == 50 {
        assert ds == "5";
        assert ds[..0] == [];
        assert DigitsValue(ds) == 5;
        assert Pow10(|ds|) == 10;
      } else {
        assert ds == TwoDigits(c);
        assert ds[..1][..0] == [];
        assert DigitsValue(ds[..1]) == c / 10;
        assert DigitsValue(ds) == c;
      }
    }
  }

  lemma CanonStrip(sign: char, n: nat, c: nat)
    requires sign == '+' || sign == '-'
    requires c < 100
    ensures Strip([sign] + NatToString(n) + LineFraction(c)) == [sign] + NatToString(n) + LineFraction(c)
  {
    var s := [sign] + NatToString(n) + LineFraction(c);
    assert !IsSpace(s[0]);
    var ns := NatToString(n);
    if c == 0 {
      assert s[|s| - 1] == ns[|ns| - 1];
    } else {
      assert s[|s| - 1] == LineFraction(c)[|LineFraction(c)| - 1];
    }
  }

  lemma CanonFraction(n: nat, c: nat)
    requires 0 < c < 100
    ensures ParseUnsigned(NatToString(n) + LineFraction(c)) == Some(n as real + c as real / 100.0)
  {
    LineFractionValue(c);
    assert NatToString(n) + LineFraction(c) == NatToString(n) + "." + LineFraction(c)[1..];
    ParseNatFrac(n, LineFraction(c)[1..]);
  }

  lemma CanonUnsigned(n: nat, c: nat)
    requires c < 100
    ensures ParseUnsigned(NatToString(n) + LineFraction(c)) == Some(n as real + c as real / 100.0)
  {
    if c == 0 {
      assert NatToString(n) + LineFraction(c) == NatToString(n);
      ParseNat(n);
    } else {
      CanonFraction(n, c);
    }
  }

  lemma CanonDecimal(sign: char, n: nat, c: nat)
    requires sign == '+' || sign == '-'
    requires c < 100
    ensures var mag := n as real + c as real / 100.0;
      ParseDecimal([sign] + NatToString(n) + LineFraction(c)) == Some(if sign == '-' then -mag else mag)
  {
    assert [sign] + NatToString(n) + LineFraction(c) == [sign] + (NatToString(n) + LineFraction(c));
    CanonUnsigned(n, c);
    ParseSigned(sign, NatToString(n) + LineFraction(c));
  }

  /** A canonical line text reads back as its sign, whole part and hundredths. */
  lemma CanonicalParses(sign: char, n: nat, c: nat)
    requires sign == '+' || sign == '-'
    requires c < 100
    ensures var mag := n as real + c as real / 100.0;
      PyFloat([sign] + NatToString(n) + LineFraction(c)) == Some(if sign == '-' then -mag else mag)
  {
    CanonStrip(sign, n, c);
    StrippedFloat([sign] + NatToString(n) + LineFraction(c));
    CanonDecimal(sign, n, c);
  }

  lemma ZeroParses()
    ensures PyFloat(FormatLine(0.0)) == Some(GridValue(0.0))
  {
    FormatZero();
    assert Hundredths(0.0) == 0 by { RoundInteger(0); }
    assert DigitRun("0") == 1;
  }

  lemma NonzeroParses(v: real)
    requires v != 0.0
    ensures PyFloat(FormatLine(v)) == Some(GridValue(v))
  {
    var n, c := FormatLineShape(v);
    CanonicalParses(SignChar(v), n, c);
    GridParts(v, n, c);
  }

  /** Reading a formatted line back as a float gives the value rounded to hundredths. */
  lemma FormatLineParses(v: real)
    ensures PyFloat(FormatLine(v)) == Some(GridValue(v))
  {
    if v == 0.0 { ZeroParses(); } else { NonzeroParses(v); }
  }

  /** A printed line reads back as a value on the hundredths grid. */
  lemma FormatLineOnGrid(v: real)
    ensures exists g :: PyFloat(FormatLine(v)) == Some(g) && GridValue(g) == g
  {
    FormatLineParses(v);
    GridValueOnGrid(v);
    assert PyFloat(FormatLine(v)) == Some(GridValue(v));
  }

  // ---------------------------------------------------------------------------
  // normalize_asian_handicap
  // ---------------------------------------------------------------------------

  /** The line with '½' written out and every space and no-break space removed. */
  function CleanLine(s: string): string
  {
    ReplaceChar(ReplaceChar(ReplaceChar(s, Half, ".5"), ' ', ""), Nbsp, "")
  }

  predicate HasPk(s: string) {
    Contains(Lower(s), "pk")
  }

  /** One side of a quarter line that mentions "pk": "pk" counts as 0. */
  function PkSide(p: string): Option<real>
  {
    if HasPk(p) then Some(0.0) else PyFloat(p)
  }

  function Average(a: real, b: real): (m: real)
    ensures a <= b ==> a <= m <= b
    ensures b <= a ==> b <= m <= a
  {
    (a + b) / 2.0
  }

  /**
   * normalize_asian_handicap on a string: the canonical text of a line, or the input
   * itself when it cannot be read as a number.
   */
  function NormalizeLine(input: string): (r: string)
    ensures r == input || exists x :: r == FormatLine(x)
  {
    var line := CleanLine(input);
    var parts := SplitOn(line, ',');
    if HasPk(line) && ',' !in line then
      FormatZero();
      "0"
    else if HasPk(line) && |parts| == 2 then
      match (PkSide(Strip(parts[0])), PkSide(Strip(parts[1])))
      case (Some(a), Some(b)) => FormatLine(Average(a, b))
      case _ => input
    else if ',' in line && |parts| == 2 then
      match (PyFloat(parts[0]), PyFloat(parts[1]))
      case (Some(a), Some(b)) => FormatLine(Average(a, b))
      case _ => input
    else
      match PyFloat(line)
      case Some(v) => FormatLine(v)
      case None => input
  }

  /** normalize_asian_handicap(None) is None; any string is normalised. */
  function NormalizeAsianHandicap(input: Option<string>): (r: Option<string>)
    ensures r.None? <==> input.None?
    ensures input.Some? ==> r.value == NormalizeLine(input.value)
  {
    match input
    case None => None
    case Some(s) => Some(NormalizeLine(s))
  }

  /** "pk", in any case and with any padding, is the line 0. */
  lemma PkIsZero(s: string)
    requires HasPk(CleanLine(s)) && ',' !in CleanLine(s)
    ensures NormalizeLine(s) == "0"
  {
  }


  /** Characters of a canonical line. */
  predicate NumeralChar(c: char) {
    IsDigit(c) || c == '+' || c == '-' || c == '.'
  }

  lemma NumeralText(s: string)
    requires forall i :: 0 <= i < |s| ==> NumeralChar(s[i])
    ensures CleanLine(s) == s
    ensures !HasPk(s)
    ensures ',' !in s
  {
    assert Lower(s) == s;
    NotContains(s, "pk");
    var t1 := ReplaceChar(s, Half, ".5");
    assert t1 == s by { assert Half !in s; }
    assert ' ' !in s && Nbsp !in s;
  }

  lemma FormatLineChars(v: real)
    ensures forall i :: 0 <= i < |FormatLine(v)| ==> NumeralChar(FormatLine(v)[i])
  {
    if v != 0.0 {
      var n, c := FormatLineShape(v);
      var ns := NatToString(n);
      assert forall i :: 0 <= i < |ns| ==> IsDigit(ns[i]);
      LineFractionChars(c);
      NumeralJoin([SignChar(v)], ns, LineFraction(c));
    }
  }

  lemma LineFractionChars(c: nat)
    requires c < 100
    ensures forall i :: 0 <= i < |LineFraction(c)| ==> NumeralChar(LineFraction(c)[i])
  {
    if c != 0 && c != 50 {
      var t := TwoDigits(c);
      assert forall i :: 1 <= i < 3 ==> ("." + t)[i] == t[i - 1];
    }
  }

  /** Numeral characters joined are numeral characters. */
  lemma NumeralJoin(a: string, b: string, c: string)
    requires forall i :: 0 <= i < |a| ==> NumeralChar(a[i])
    requires forall i :: 0 <= i < |b| ==> NumeralChar(b[i])
    requires forall i :: 0 <= i < |c| ==> NumeralChar(c[i])
    ensures forall i :: 0 <= i < |a + b + c| ==> NumeralChar((a + b + c)[i])
  {
    forall i | 0 <= i < |a + b + c| ensures NumeralChar((a + b + c)[i]) {
      if i < |a| {
        assert (a + b + c)[i] == a[i];
      } else if i < |a| + |b| {
        assert (a + b + c)[i] == b[i - |a|];
      } else {
        assert (a + b + c)[i] == c[i - |a| - |b|];
      }
    }
  }

  /** The grid value has the same hundredths and, when they are not zero, the same sign. */
  lemma GridHundredths(v: real)
    ensures Hundredths(GridValue(v)) == Hundredths(v)
    ensures Hundredths(v) > 0 ==> (GridValue(v) < 0.0 <==> v < 0.0)
    ensures v == 0.0 ==> GridValue(v) == 0.0
  {
    var h := Hundredths(v);
    var w := GridValue(v);
    assert Abs(w) * 100.0 == h as real;
    RoundInteger(h);
  }

  /** Two non-zero values with the same sign and hundredths are written alike. */
  lemma SameFormat(v: real, w: real)
    requires v != 0.0 && w != 0.0
    requires Hundredths(v) == Hundredths(w) && (v < 0.0 <==> w < 0.0)
    ensures FormatLine(v) == FormatLine(w)
  {
    var n, c := FormatLineShape(v);
    var n', c' := FormatLineShape(w);
    assert n == n' && c == c';
  }

  /** Every character of a canonical line is a sign, a digit or the point, so it reads as a plain number. */
  lemma FormatLineReadsPlain(v: real)
    ensures var s := FormatLine(v);
      CleanLine(s) == s && !HasPk(s) && SplitOn(s, ',') == [s]
  {
    FormatLineChars(v);
    NumeralText(FormatLine(v));
  }

  /** A canonical line is its own canonical form, unless it is the signed zero of a tiny value. */
  lemma FormatLineStable(v: real)
    requires v == 0.0 || Hundredths(v) > 0
    ensures NormalizeLine(FormatLine(v)) == FormatLine(v)
  {
    FormatLineReadsPlain(v);
    FormatLineParses(v);
    GridHundredths(v);
    if v != 0.0 {
      SameFormat(v, GridValue(v));
    }
  }

  /** Normalising twice changes nothing more, except for a line that came out as "+0" or "-0". */
  lemma NormalizeTwice(s: string)
    ensures var r := NormalizeLine(s);
      NormalizeLine(r) == r || r == "+0" || r == "-0"
  {
    var r := NormalizeLine(s);
    if r != s {
      var x :| r == FormatLine(x);
      if x == 0.0 || Hundredths(x) > 0 {
        FormatLineStable(x);
      } else {
        FormatTinyValue(x);
      }
    }
  }

  /** A quarter line "a,b" of two numbers is written as their average. */
  lemma QuarterLineAverage(s: string, a: string, b: string, x: real, y: real)
    requires CleanLine(s) == a + "," + b && ',' !in a && ',' !in b
    requires !HasPk(CleanLine(s))
    requires PyFloat(a) == Some(x) && PyFloat(b) == Some(y)
    ensures NormalizeLine(s) == FormatLine(Average(x, y))
  {
    SplitOnPair(a, ',', b);
    assert a + "," + b == a + [','] + b;
    assert ',' in CleanLine(s) by { assert CleanLine(s)[|a|] == ','; }
  }

  /** Text that is no number, no "pk" and no quarter line comes back as it was. */
  lemma UnreadableUnchanged(s: string)
    requires !HasPk(CleanLine(s)) && ',' !in CleanLine(s)
    requires PyFloat(CleanLine(s)).None?
    ensures NormalizeLine(s) == s
  {
  }


  // ---------------------------------------------------------------------------
  // extract_american_odds_from_text
  // ---------------------------------------------------------------------------

  /** A match of (?<!\.\d)([+-]\d{3,}) starts at i. */
  predicate OddsStartsAt(t: string, i: nat) {
    && i < |t|
    && (t[i] == '+' || t[i] == '-')
    && DigitRun(t[i + 1..]) >= 3
    && !(i >= 2 && t[i - 2] == '.' && IsDigit(t[i - 1]))
  }

  /** The match starting at i: the sign and every digit after it. */
  function OddsTokenAt(t: string, i: nat): (o: string)
    requires OddsStartsAt(t, i)
    ensures |o| >= 4 && (o[0] == '+' || o[0] == '-') && AllDigits(o[1..])
  {
    var o := t[i..i + 1 + DigitRun(t[i + 1..])];
    assert o[1..] == t[i + 1..][..DigitRun(t[i + 1..])];
    o
  }

  /** Matches never overlap: a match covers digits only after its sign. */
  lemma MatchesDisjoint(t: string, i: nat, j: nat)
    requires OddsStartsAt(t, i) && i < j < i + |OddsTokenAt(t, i)|
    ensures !OddsStartsAt(t, j)
  {
    assert t[j] == OddsTokenAt(t, i)[j - i];
  }

  /** The start of the last match before position k, or -1. */
  function LastOddsStart(t: string, k: nat): (i: int)
    requires k <= |t|
    ensures -1 <= i < k
    ensures i >= 0 ==> OddsStartsAt(t, i)
    ensures forall j :: i < j < k ==> !OddsStartsAt(t, j)
  {
    if k == 0 then -1
    else if OddsStartsAt(t, k - 1) then k - 1
    else LastOddsStart(t, k - 1)
  }

  /** extract_american_odds_from_text on a string: the last signed run of three or more digits. */
  function ExtractAmericanOdds(t: string): (r: Option<string>)
    ensures r.None? <==> forall j :: 0 <= j < |t| ==> !OddsStartsAt(t, j)
    ensures r.Some? ==> exists i :: (0 <= i < |t| && OddsStartsAt(t, i) && r.value == OddsTokenAt(t, i)
      && forall j :: i < j < |t| ==> !OddsStartsAt(t, j))
  {
    var i := LastOddsStart(t, |t|);
    if i < 0 then None else Some(OddsTokenAt(t, i))
  }

  /** The shape of an odds token: a sign followed by at least three digits. */
  predicate IsOddsToken(o: string) {
    |o| >= 4 && (o[0] == '+' || o[0] == '-') && AllDigits(o[1..])
  }

  /** An odds token read by itself is found whole. */
  lemma OddsTokenFound(o: string)
    requires IsOddsToken(o)
    ensures ExtractAmericanOdds(o) == Some(o)
  {
    assert o[1..][..|o| - 1] == o[1..];
    DigitRunAll(o[1..]);
    assert OddsStartsAt(o, 0);
    forall j | 0 < j < |o| ensures !OddsStartsAt(o, j) {
      assert IsDigit(o[1..][j - 1]);
    }
    assert LastOddsStart(o, |o|) == 0;
    assert o[0..0 + 1 + DigitRun(o[1..])] == o;
  }


  // ---------------------------------------------------------------------------
  // extract_line_value_from_text
  // ---------------------------------------------------------------------------

  /** Length of a match of \d*\.?\d+ at the start of s, 0 when there is none. */
  function NumberLength(s: string): (n: nat)
    ensures n <= |s|
    ensures n > 0 ==> IsDigit(s[n - 1])
    ensures FractionRun(s, DigitRun(s)) == 0 ==> n == DigitRun(s)
    ensures FractionRun(s, DigitRun(s)) > 0 ==> n == DigitRun(s) + 1 + FractionRun(s, DigitRun(s))
  {
    var a := DigitRun(s);
    var b := FractionRun(s, a);
    if b > 0 then
      assert s[a + b] == s[a + 1..][..b][b - 1];
      a + 1 + b
    else
      if a > 0 then assert s[a - 1] == s[..a][a - 1]; a else 0
  }

  /** The digits after a '.' at position a, 0 when no '.' is there. */
  function FractionRun(s: string, a: nat): (b: nat)
    requires a <= |s|
    ensures b > 0 ==> a < |s| && s[a] == '.' && b == DigitRun(s[a + 1..])
    ensures a < |s| && s[a] == '.' ==> b == DigitRun(s[a + 1..])
  {
    if a < |s| && s[a] == '.' then DigitRun(s[a + 1..]) else 0
  }

  /** Every number the line regex accepts is one Python's float() reads. */
  lemma NumberTokenParses(s: string)
    requires NumberLength(s) > 0
    ensures ParseUnsigned(s[..NumberLength(s)]).Some?
  {
    var n := NumberLength(s);
    var a := DigitRun(s);
    var t := s[..n];
    var b := FractionRun(s, a);
    if b > 0 {
      assert t == t[..a] + t[a..];
      assert t[..a] == s[..a];
      assert t[a] == '.';
      DigitRunStops(t[..a], t[a..]);
      assert t[a + 1..] == s[a + 1..][..b];
    } else {
      assert t == s[..a];
      DigitRunAll(t);
    }
  }

  /** Length of the optional (?:,\s*NUM) after the first number, 0 when absent. */
  function QuarterTail(s: string, signed: bool): (n: nat)
    ensures n <= |s|
  {
    if s != [] && s[0] == ',' then
      var q := 1 + SpaceRun(s[1..]);
      var m := if signed then SignedNumberLength(s[q..]) else NumberLength(s[q..]);
      if m > 0 then q + m else 0
    else 0
  }

  predicate IsOverUnder(c: char) {
    c == 'o' || c == 'u' || c == 'O' || c == 'U'
  }

  /** The group of [ou]\s*(NUM(?:,\s*NUM)?) when a match starts at i. */
  function TotalGroupAt(t: string, i: nat): (g: Option<string>)
    requires i < |t|
  {
    if IsOverUnder(t[i]) then
      var p := i + 1 + SpaceRun(t[i + 1..]);
      var n := NumberLength(t[p..]);
      if n > 0 then Some(t[p..p + n + QuarterTail(t[p + n..], false)]) else None
    else None
  }

  /** Where re.search finds its match: the leftmost start at or after `from`, |t| when there is none. */
  function FirstTotalStart(t: string, from: nat): (k: nat)
    requires from <= |t|
    ensures from <= k <= |t|
    ensures k < |t| ==> TotalGroupAt(t, k).Some?
    ensures forall j :: from <= j < k ==> TotalGroupAt(t, j).None?
    decreases |t| - from
  {
    if from == |t| || TotalGroupAt(t, from).Some? then from
    else FirstTotalStart(t, from + 1)
  }

  /** re.search: the group of the leftmost match at or after position `from`. */
  function FirstTotalGroup(t: string, from: nat): (g: Option<string>)
    requires from <= |t|
    ensures g.Some? ==> exists i :: (from <= i < |t| && TotalGroupAt(t, i) == g
      && forall j :: from <= j < i ==> TotalGroupAt(t, j).None?)
    ensures g.None? ==> forall j :: from <= j < |t| ==> TotalGroupAt(t, j).None?
  {
    var k := FirstTotalStart(t, from);
    if k < |t| then TotalGroupAt(t, k) else None
  }

  /** The cell text with '½' written out, no-break spaces made plain, and stripped. */
  function CellText(text: string): string
  {
    Strip(ReplaceChar(ReplaceChar(text, Half, ".5"), Nbsp, " "))
  }

  /** extract_line_value_from_text on a string: only total lines are read. */
  function ExtractLineValue(text: string, marketType: string): (r: Option<string>)
    ensures r.Some? ==> marketType == "Total" && text != []
    ensures marketType == "Total" && text != [] ==>
      (r.Some? <==> FirstTotalGroup(CellText(text), 0).Some?)
  {
    if text == [] || marketType != "Total" then None
    else
      match FirstTotalGroup(CellText(text), 0)
      case Some(g) => Some(NormalizeLine(ReplaceChar(g, ' ', "")))
      case None => None
  }


  /** A decimal literal: digits, or digits, '.' and at least one digit (the integer part may be empty). */
  function DecimalText(ip: string, fp: string): string
  {
    if fp == [] then ip else ip + "." + fp
  }

  lemma NumberLengthWhole(s: string, a: nat)
    requires 0 < a == DigitRun(s) && (a == |s| || s[a] != '.')
    ensures NumberLength(s) == a
  {
  }

  lemma NumberLengthFraction(s: string, a: nat, b: nat)
    requires a == DigitRun(s) && 0 < b == FractionRun(s, a)
    ensures NumberLength(s) == a + 1 + b
  {
  }

  /** The number pattern \d*\.?\d+ reads a decimal literal whole when no digit or '.' follows. */
  lemma NumberLengthOfDecimal(ip: string, fp: string, rest: string)
    requires AllDigits(ip) && AllDigits(fp) && (ip != [] || fp != [])
    requires rest == [] || (!IsDigit(rest[0]) && rest[0] != '.')
    ensures NumberLength(DecimalText(ip, fp) + rest) == |DecimalText(ip, fp)|
  {
    if fp == [] {
      assert DecimalText(ip, fp) + rest == ip + rest;
      NumberLengthOfWhole(ip, rest);
    } else {
      var t := "." + fp + rest;
      assert DecimalText(ip, fp) + rest == ip + t;
      assert t[1..] == fp + rest;
      NumberLengthOfFraction(ip, fp, rest, t);
    }
  }

  lemma NumberLengthOfWhole(ip: string, rest: string)
    requires AllDigits(ip) && ip != []
    requires rest == [] || (!IsDigit(rest[0]) && rest[0] != '.')
    ensures NumberLength(ip + rest) == |ip|
  {
    DigitsBefore(ip, rest);
    if rest != [] {
      assert (ip + rest)[|ip|] == rest[0];
    }
    NumberLengthWhole(ip + rest, |ip|);
  }

  lemma NumberLengthOfFraction(ip: string, fp: string, rest: string, t: string)
    requires AllDigits(ip) && AllDigits(fp) && fp != []
    requires rest == [] || !IsDigit(rest[0])
    requires t != [] && t[0] == '.' && t[1..] == fp + rest
    ensures NumberLength(ip + t) == |ip| + 1 + |fp|
  {
    DigitsBefore(ip, t);
    FractionAt(ip, t);
    DigitsBefore(fp, rest);
    NumberLengthFraction(ip + t, |ip|, |fp|);
  }

  lemma DigitsBefore(d: string, rest: string)
    requires AllDigits(d) && (rest == [] || !IsDigit(rest[0]))
    ensures DigitRun(d + rest) == |d|
  {
    if rest == [] {
      assert d + rest == d;
      DigitRunAll(d);
    } else {
      DigitRunStops(d, rest);
    }
  }

  lemma FractionAt(ip: string, t: string)
    requires t != [] && t[0] == '.'
    ensures FractionRun(ip + t, |ip|) == DigitRun(t[1..])
  {
    assert (ip + t)[|ip|] == '.';
    assert (ip + t)[|ip| + 1..] == t[1..];
  }

  lemma DecimalTextChars(ip: string, fp: string)
    requires AllDigits(ip) && AllDigits(fp) && (ip != [] || fp != [])
    ensures var n := DecimalText(ip, fp); n != [] && (IsDigit(n[0]) || n[0] == '.') && IsDigit(n[|n| - 1])
    ensures forall i :: 0 <= i < |DecimalText(ip, fp)| ==> IsDigit(DecimalText(ip, fp)[i]) || DecimalText(ip, fp)[i] == '.'
  {
  }

  /** Text without '½' or no-break spaces and without blanks at its ends is its own cell text. */
  lemma CellTextPlain(t: string)
    requires forall i :: 0 <= i < |t| ==> t[i] != Half && t[i] != Nbsp
    requires t != [] && !IsSpace(t[0]) && !IsSpace(t[|t| - 1])
    ensures CellText(t) == t
  {
  }

  lemma TotalGroupAtZero(t: string, m: nat)
    requires t != [] && IsOverUnder(t[0]) && SpaceRun(t[1..]) == 0
    requires 0 < m == NumberLength(t[1..]) && QuarterTail(t[1 + m..], false) == 0
    ensures TotalGroupAt(t, 0) == Some(t[1..1 + m])
  {
  }

  /** A match at the start of "o" + n + rest whose number is exactly n captures n. */
  lemma TotalGroupAtStart(c: char, n: string, rest: string)
    requires IsOverUnder(c)
    requires n != [] && !IsSpace(n[0])
    requires NumberLength(n + rest) == |n|
    requires rest == [] || rest[0] != ','
    ensures TotalGroupAt([c] + n + rest, 0) == Some(n)
  {
    var t := [c] + n + rest;
    assert t[1..] == n + rest;
    assert SpaceRun(t[1..]) == 0 by {
      assert t[1..][0] == n[0];
    }
    assert t[1 + |n|..] == rest;
    assert QuarterTail(rest, false) == 0;
    TotalGroupAtZero(t, |n|);
    assert t[1..1 + |n|] == n;
  }

  lemma TotalCellChars(c: char, n: string, odds: string)
    requires IsOverUnder(c)
    requires forall i :: 0 <= i < |n| ==> IsDigit(n[i]) || n[i] == '.'
    requires IsOddsToken(odds)
    ensures var t := [c] + n + " " + odds; forall i :: 0 <= i < |t| ==> t[i] != Half && t[i] != Nbsp
    ensures var t := [c] + n + " " + odds; !IsSpace(t[|t| - 1])
  {
    var t := [c] + n + " " + odds;
    forall i | 0 <= i < |t| ensures t[i] != Half && t[i] != Nbsp {
      if 1 <= i <= |n| {
        assert t[i] == n[i - 1];
      } else if i > |n| + 1 {
        assert t[i] == odds[i - |n| - 2];
      }
    }
    assert t[|t| - 1] == odds[|odds| - 1] == odds[1..][|odds| - 2];
  }

  /**
   * A totals cell "o<number> <odds>" (or with 'u', in either case) yields the
   * normalised number as its line.
   */
  lemma TotalCellLine(c: char, ip: string, fp: string, odds: string)
    requires IsOverUnder(c)
    requires AllDigits(ip) && AllDigits(fp) && (ip != [] || fp != [])
    requires IsOddsToken(odds)
    ensures ExtractLineValue([c] + DecimalText(ip, fp) + " " + odds, "Total") == Some(NormalizeLine(DecimalText(ip, fp)))
  {
    var n := DecimalText(ip, fp);
    var rest := " " + odds;
    var t := [c] + n + rest;
    DecimalTextChars(ip, fp);
    TotalCellChars(c, n, odds);
    assert t == [c] + n + " " + odds;
    CellTextPlain(t);
    NumberLengthOfDecimal(ip, fp, rest);
    TotalGroupAtStart(c, n, rest);
    assert ' ' !in n;
    ExtractTotalAtStart(t, n);
  }

  /** A cell whose text is already clean and matches at its first character yields that match. */
  lemma ExtractTotalAtStart(t: string, g: string)
    requires t != [] && CellText(t) == t && TotalGroupAt(t, 0) == Some(g) && ' ' !in g
    ensures ExtractLineValue(t, "Total") == Some(NormalizeLine(g))
  {
    assert FirstTotalStart(t, 0) == 0;
  }

  // ---------------------------------------------------------------------------
  // extract_all_spread_options_from_text, drop-down branch
  // ---------------------------------------------------------------------------

  /** Length of a match of [+-]?\d*\.?\d+ at the start of s, 0 when there is none. */
  function SignedNumberLength(s: string): (n: nat)
    ensures n <= |s|
  {
    if s != [] && (s[0] == '+' || s[0] == '-') && NumberLength(s[1..]) > 0 then 1 + NumberLength(s[1..])
    else NumberLength(s)
  }

  /** Length of the line group of an option: a signed number with an optional quarter part, or "pk". */
  function OptionLineLength(s: string): (n: nat)
    ensures n <= |s|
  {
    var n := SignedNumberLength(s);
    if n > 0 then n + QuarterTail(s[n..], true)
    else if StartsWith(s, "pk") then 2
    else 0
  }

  /** One entry of the options list: the canonical line and the odds text. */
  datatype SpreadOption = SpreadOption(line: string, odds: string)

  /** What the option regex captures: the line group with its spaces removed, and the odds. */
  datatype OptionMatch = OptionMatch(rawLine: string, odds: string)

  /** The text of an option with '½' written out and no-break spaces made plain. */
  function OptionText(raw: string): string
  {
    ReplaceChar(ReplaceChar(raw, Half, ".5"), Nbsp, " ")
  }

  /** The odds group ([+-]\d{3,}) at the start of s, after the \s* before it. */
  function OddsAfterLine(s: string): (o: Option<string>)
    ensures o.Some? ==> IsOddsToken(o.value)
  {
    var t := s[SpaceRun(s)..];
    if t != [] && (t[0] == '+' || t[0] == '-') && DigitRun(t[1..]) >= 3 then
      var odds := t[..1 + DigitRun(t[1..])];
      assert odds[1..] == t[1..][..DigitRun(t[1..])];
      Some(odds)
    else None
  }

  /** re.match(^\s*(LINE)\s*([+-]\d{3,})) on one option's text. */
  function MatchOption(raw: string): (m: Option<OptionMatch>)
    ensures m.Some? ==> IsOddsToken(m.value.odds) && ' ' !in m.value.rawLine
  {
    var t := OptionText(raw);
    var rest := t[SpaceRun(t)..];
    var g := OptionLineLength(rest);
    if g == 0 then None
    else
      match OddsAfterLine(rest[g..])
      case None => None
      case Some(odds) =>
        ReplaceCharRemoves(rest[..g], ' ', "");
        Some(OptionMatch(ReplaceChar(rest[..g], ' ', ""), odds))
  }

  /** An option whose text matches becomes its normalised line and its odds. */
  function SpreadOptionFromText(raw: string): (r: Option<SpreadOption>)
    ensures r.Some? ==> IsOddsToken(r.value.odds)
  {
    match MatchOption(raw)
    case None => None
    case Some(m) => Some(SpreadOption(NormalizeLine(m.rawLine), m.odds))
  }

  /** A signed or unsigned decimal literal: the sign is "", "+" or "-". */
  function SignedDecimal(sign: string, ip: string, fp: string): string
  {
    sign + DecimalText(ip, fp)
  }

  lemma SignedNumberLengthOfDecimal(sign: string, ip: string, fp: string, rest: string)
    requires sign == "" || sign == "+" || sign == "-"
    requires AllDigits(ip) && AllDigits(fp) && (ip != [] || fp != [])
    requires rest == [] || (!IsDigit(rest[0]) && rest[0] != '.')
    ensures SignedNumberLength(SignedDecimal(sign, ip, fp) + rest) == |SignedDecimal(sign, ip, fp)|
  {
    var n := DecimalText(ip, fp);
    var s := SignedDecimal(sign, ip, fp) + rest;
    NumberLengthOfDecimal(ip, fp, rest);
    DecimalTextChars(ip, fp);
    if sign != "" {
      assert s[1..] == n + rest;
      SignedNumberLengthSigned(s, |n|);
    } else {
      assert s == n + rest;
      SignedNumberLengthUnsigned(s);
    }
  }

  lemma SignedNumberLengthSigned(s: string, m: nat)
    requires s != [] && (s[0] == '+' || s[0] == '-') && 0 < m == NumberLength(s[1..])
    ensures SignedNumberLength(s) == 1 + m
  {
  }

  lemma SignedNumberLengthUnsigned(s: string)
    requires s != [] && s[0] != '+' && s[0] != '-'
    ensures SignedNumberLength(s) == NumberLength(s)
  {
  }

  lemma OptionTextPlain(raw: string)
    requires forall i :: 0 <= i < |raw| ==> raw[i] != Half && raw[i] != Nbsp
    ensures OptionText(raw) == raw
  {
  }

  /** The option regex on text that starts with its line group of length g and continues with the odds. */
  lemma MatchOptionAt(raw: string, g: nat, odds: string)
    requires OptionText(raw) == raw && SpaceRun(raw) == 0
    requires 0 < g == OptionLineLength(raw)
    requires OddsAfterLine(raw[g..]) == Some(odds)
    ensures MatchOption(raw) == Some(OptionMatch(ReplaceChar(raw[..g], ' ', ""), odds))
  {
    assert raw[0..] == raw;
  }

  lemma OptionLineLengthNumber(s: string, n: nat)
    requires 0 < n == SignedNumberLength(s) && QuarterTail(s[n..], true) == 0
    ensures OptionLineLength(s) == n
  {
  }

  /** The line group of "<signed decimal>" + rest is the decimal, when rest starts with neither a digit, '.' nor ','. */
  lemma OptionLineOfDecimal(sign: string, ip: string, fp: string, rest: string)
    requires sign == "" || sign == "+" || sign == "-"
    requires AllDigits(ip) && AllDigits(fp) && (ip != [] || fp != [])
    requires rest == [] || (!IsDigit(rest[0]) && rest[0] != '.' && rest[0] != ',')
    ensures OptionLineLength(SignedDecimal(sign, ip, fp) + rest) == |SignedDecimal(sign, ip, fp)|
  {
    var l := SignedDecimal(sign, ip, fp);
    var s := l + rest;
    SignedNumberLengthOfDecimal(sign, ip, fp, rest);
    assert s[|l|..] == rest;
    assert QuarterTail(rest, true) == 0;
    OptionLineLengthNumber(s, |l|);
  }

  lemma OddsAfterGap(gap: string, odds: string)
    requires forall i :: 0 <= i < |gap| ==> gap[i] == ' '
    requires IsOddsToken(odds)
    ensures OddsAfterLine(gap + odds) == Some(odds)
  {
    var s := gap + odds;
    assert SpaceRun(s) == |gap| by {
      assert s[|gap|] == odds[0];
    }
    assert s[|gap|..] == odds;
    DigitRunAll(odds[1..]);
    assert odds[..1 + |odds| - 1] == odds;
  }

  lemma OptionChars(sign: string, ip: string, fp: string, gap: string, odds: string)
    requires sign == "" || sign == "+" || sign == "-"
    requires AllDigits(ip) && AllDigits(fp) && (ip != [] || fp != [])
    requires forall i :: 0 <= i < |gap| ==> gap[i] == ' '
    requires IsOddsToken(odds)
    ensures var raw := SignedDecimal(sign, ip, fp) + gap + odds;
      forall i :: 0 <= i < |raw| ==> raw[i] != Half && raw[i] != Nbsp
    ensures var raw := SignedDecimal(sign, ip, fp) + gap + odds; SpaceRun(raw) == 0
    ensures ' ' !in SignedDecimal(sign, ip, fp)
  {
    var l := SignedDecimal(sign, ip, fp);
    var raw := l + gap + odds;
    var n := DecimalText(ip, fp);
    DecimalTextChars(ip, fp);
    forall i | 0 <= i < |raw| ensures raw[i] != Half && raw[i] != Nbsp {
      if |sign| <= i < |l| {
        assert raw[i] == n[i - |sign|];
      } else if i >= |l| + |gap| {
        assert raw[i] == odds[i - |l| - |gap|];
      }
    }
    if sign == "" {
      assert raw[0] == n[0];
    }
    forall i | 0 <= i < |l| ensures l[i] != ' ' {
      if i >= |sign| {
        assert l[i] == n[i - |sign|];
      }
    }
  }

  /**
   * An option "<line> <odds>" whose line is a signed decimal literal is captured as
   * that line and those odds; the blanks between them may be any run of spaces.
   */
  lemma OptionCaptured(sign: string, ip: string, fp: string, gap: string, odds: string)
    requires sign == "" || sign == "+" || sign == "-"
    requires AllDigits(ip) && AllDigits(fp) && (ip != [] || fp != [])
    requires forall i :: 0 <= i < |gap| ==> gap[i] == ' '
    requires IsOddsToken(odds)
    ensures MatchOption(SignedDecimal(sign, ip, fp) + gap + odds) == Some(OptionMatch(SignedDecimal(sign, ip, fp), odds))
  {
    var l := SignedDecimal(sign, ip, fp);
    var rest := gap + odds;
    var raw := l + rest;
    assert raw == l + gap + odds;
    OptionChars(sign, ip, fp, gap, odds);
    OptionTextPlain(raw);
    assert rest[0] == ' ' || rest[0] == odds[0];
    OptionLineOfDecimal(sign, ip, fp, rest);
    assert raw[|l|..] == rest;
    OddsAfterGap(gap, odds);
    MatchOptionAt(raw, |l|, odds);
    assert raw[..|l|] == l;
  }

  /** Such an option enters the list with its line normalised and its odds unchanged. */
  lemma SpreadOptionCaptured(sign: string, ip: string, fp: string, gap: string, odds: string)
    requires sign == "" || sign == "+" || sign == "-"
    requires AllDigits(ip) && AllDigits(fp) && (ip != [] || fp != [])
    requires forall i :: 0 <= i < |gap| ==> gap[i] == ' '
    requires IsOddsToken(odds)
    ensures SpreadOptionFromText(SignedDecimal(sign, ip, fp) + gap + odds) ==
      Some(SpreadOption(NormalizeLine(SignedDecimal(sign, ip, fp)), odds))
  {
    OptionCaptured(sign, ip, fp, gap, odds);
  }

  /** The options list of a drop-down, in option order, keeping the options that match. */
  function SpreadOptions(texts: seq<string>): (opts: seq<SpreadOption>)
    ensures |opts| <= |texts|
    ensures forall k :: 0 <= k < |opts| ==> IsOddsToken(opts[k].odds)
  {
    FilterMap(texts, SpreadOptionFromText)
  }

  /** The drop-down loop of extract_all_spread_options_from_text. */
  method ExtractSpreadOptions(texts: seq<string>) returns (options: seq<SpreadOption>)
    ensures options == SpreadOptions(texts)
  {
    options := CollectPresent(texts, SpreadOptionFromText);
  }

  /** When every option matches, the list has one entry per option, in the same order. */
  lemma AllOptionsKept(texts: seq<string>)
    requires forall i :: 0 <= i < |texts| ==> MatchOption(texts[i]).Some?
    ensures |SpreadOptions(texts)| == |texts|
    ensures forall i :: 0 <= i < |texts| ==> SpreadOptionFromText(texts[i]) == Some(SpreadOptions(texts)[i])
  {
    FilterMapAllPresent(texts, SpreadOptionFromText);
  }

  /** An option that does not match adds nothing. */
  lemma UnmatchedOptionDropped(texts: seq<string>, raw: string)
    requires MatchOption(raw).None?
    ensures SpreadOptions(texts + [raw]) == SpreadOptions(texts)
  {
    FilterMapSnoc(texts, raw, SpreadOptionFromText);
  }

  /** Every odds string of a drop-down is what extract_american_odds_from_text finds in it. */
  lemma OptionOddsFound(texts: seq<string>, k: nat)
    requires k < |SpreadOptions(texts)|
    ensures ExtractAmericanOdds(SpreadOptions(texts)[k].odds) == Some(SpreadOptions(texts)[k].odds)
  {
    OddsTokenFound(SpreadOptions(texts)[k].odds);
  }

}
