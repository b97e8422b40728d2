/**
 * The table renderer of static/realtime.js: it converts American odds to
 * decimal, pairs each Pinnacle row with the BetBCK price for the same line of
 * the full-game period, computes and classifies the EV of the row, records the
 * Pinnacle price of every row under a snapshot key so that the next render can
 * flag changed odds, and shows the five most recent alerts.
 */
module RealtimeView {
  import opened Wrappers
  import opened Text
  import opened Numerals
  import opened JsValues
  import opened Ranking
  import Markets
  import MainLogic

  const MaxEventsToDisplay: nat := 5
  const EvThreshold: real := 0.0001
  const NA: JsValue := JStr("N/A")

  // ---------------------------------------------------------------- odds

  /** The inputs americanToDecimal turns away before parsing: null, undefined, or a string that trims to "" or "N/A". */
  predicate Blank(v: JsValue) {
    v.JNull? || v.JUndefined? || (v.JStr? && (Strip(v.s) == "N/A" || Strip(v.s) == ""))
  }

  /** The decimal price of a parsed American figure: above 1 for every nonzero figure, none at zero. */
  function DecimalOf(o: real): (r: Option<real>)
    ensures r.Some? <==> o != 0.0
    ensures r.Some? ==> r.value > 1.0
    ensures o > 0.0 ==> r == Some(o / 100.0 + 1.0)
    ensures o < 0.0 ==> r == Some(100.0 / -o + 1.0)
  {
    if o > 0.0 then Some(o / 100.0 + 1.0)
    else if o < 0.0 then Some(100.0 / -o + 1.0)
    else None
  }

  /**
   * americanToDecimal: None (null) for blank input, for NaN and for zero;
   * otherwise the decimal price of the parsed figure.
   */
  function AmericanToDecimal(v: JsValue): (r: Option<real>)
    ensures r.Some? <==> !Blank(v) && ParseFloat(v).Some? && ParseFloat(v).value != 0.0
    ensures r.Some? ==> r == DecimalOf(ParseFloat(v).value) && r.value > 1.0
  {
    if Blank(v) then None
    else
      match ParseFloat(v)
      case None => None
      case Some(o) => DecimalOf(o)
  }

  /** A sign followed by an integer's digits is not blank. */
  lemma SignedTextNotBlank(sign: char, n: nat)
    requires sign == '+' || sign == '-'
    ensures !Blank(JStr([sign] + NatToString(n)))
  {
    var d := NatToString(n);
    var t := [sign] + d;
    assert t[|t| - 1] == d[|d| - 1];
    assert IsDigit(d[|d| - 1]);
    StripKeeps(t);
    var u := Strip(t);
    assert u != [] && u[0] == sign && u[0] != "N/A"[0];
  }

  /** A sign followed by an integer's digits is not blank and parses to the signed integer. */
  lemma SignedTextParses(sign: char, n: nat)
    requires sign == '+' || sign == '-'
    ensures var t := [sign] + NatToString(n);
      !Blank(JStr(t)) && ParseFloat(JStr(t)) == Some(if sign == '-' then -(n as real) else n as real)
  {
    SignedTextNotBlank(sign, n);
    ParseSignedText(sign, n);
  }

  lemma StripKeeps(t: string)
    requires t != [] && !IsSpace(t[0]) && !IsSpace(t[|t| - 1])
    ensures Strip(t) == t
  {
  }

  /** The decimal of a signed integer's text t, whose figure is o. */
  lemma DecodesSigned(sign: char, n: nat, t: string, o: real)
    requires sign == '+' || sign == '-'
    requires n != 0 && t == [sign] + NatToString(n)
    requires o == if sign == '-' then -(n as real) else n as real
    ensures AmericanToDecimal(JStr(t)) == DecimalOf(o)
  {
    SignedTextParses(sign, n);
    assert !Blank(JStr(t)) && ParseFloat(JStr(t)) == Some(o) && o != 0.0;
  }

  /**
   * The browser reads the odds text the server writes (decimal_to_american
   * past its guards) as the decimal price of the server's American figure.
   */
  lemma DecodesServerText(d: real)
    requires d > 1.0
    ensures AmericanToDecimal(JStr(Markets.AmericanText(d))) == DecimalOf(Markets.AmericanFigure(d) as real)
  {
    var a := Markets.AmericanFigure(d);
    var t := Markets.AmericanText(d);
    if d >= 2.0 {
      assert t == ['+'] + NatToString(a);
      DecodesSigned('+', a, t, a as real);
    } else {
      assert t == ['-'] + NatToString(-a);
      DecodesSigned('-', -a, t, a as real);
    }
  }

  /**
   * The decimal price the browser derives from a server figure encodes back to
   * that figure, except -100, which comes back as +100 (both mean even money).
   */
  lemma ServerFigureReadsBack(d: real)
    requires d > 1.0
    ensures var a := Markets.AmericanFigure(d);
      DecimalOf(a as real).Some? &&
      Markets.AmericanFigure(DecimalOf(a as real).value) == (if a == -100 then 100 else a)
  {
    var a := Markets.AmericanFigure(d);
    if a >= 100 {
      Markets.FigureOfPositive(a);
    } else if a == -100 {
      assert DecimalOf(-100.0) == Some(2.0);
      Markets.FigureOfPositive(100);
      assert 100 as real / 100.0 + 1.0 == 2.0;
    } else {
      var m := (-a) as real;
      assert 100.0 / m < 1.0;
      Markets.FigureOfNegative(a);
    }
  }

  // ---------------------------------------------------------- snapshot keys

  /** s.replace(/\s+/g, '_'): every run of whitespace becomes one underscore. */
  function Underscored(s: string): (r: string)
    ensures NoSpace(r)
    ensures NoSpace(s) ==> r == s
    decreases |s|
  {
    if s == [] then []
    else if IsSpace(s[0]) then "_" + Underscored(s[SpaceRun(s)..])
    else [s[0]] + Underscored(s[1..])
  }

  /**
   * getPinnacleMarketSnapshotKey: the four parts joined by '-', with every '.'
   * of the line written 'p', whitespace runs as '_', in lower case.
   */
  function SnapshotKey(period: string, market: string, selection: string, line: string): (r: string)
    ensures NoUpper(r) && NoSpace(r)
  {
    var u := Underscored(period + "-" + market + "-" + selection + "-" + ReplaceChar(line, '.', "p"));
    assert forall i :: 0 <= i < |u| ==> !IsSpace(LowerChar(u[i]));
    Lower(u)
  }

  lemma LowerOfLower(s: string)
    requires NoUpper(s)
    ensures Lower(s) == s
  {
  }

  lemma PlainJoin(a: string, b: string)
    requires NoSpace(a) && NoUpper(a) && NoSpace(b) && NoUpper(b)
    ensures NoSpace(a + b) && NoUpper(a + b)
  {
    assert forall i :: 0 <= i < |a + b| ==> (a + b)[i] == if i < |a| then a[i] else b[i - |a|];
  }

  lemma {:induction false} ReplaceCharKeeps(s: string, c: char, rep: string)
    requires NoSpace(s) && NoUpper(s) && NoSpace(rep) && NoUpper(rep)
    ensures NoSpace(ReplaceChar(s, c, rep)) && NoUpper(ReplaceChar(s, c, rep))
  {
    if s != [] {
      ReplaceCharKeeps(s[1..], c, rep);
    }
  }

  /** With parts free of whitespace and capitals, the key is the plain '-'-join with the line's dots as 'p'. */
  lemma PlainSnapshotKey(period: string, market: string, selection: string, line: string)
    requires NoSpace(period) && NoSpace(market) && NoSpace(selection) && NoSpace(line)
    requires NoUpper(period) && NoUpper(market) && NoUpper(selection) && NoUpper(line)
    ensures SnapshotKey(period, market, selection, line)
      == period + "-" + market + "-" + selection + "-" + ReplaceChar(line, '.', "p")
  {
    ReplaceCharKeeps(line, '.', "p");
    var s1 := period + "-";
    PlainJoin(period, "-");
    var s2 := s1 + market;
    PlainJoin(s1, market);
    var s3 := s2 + "-";
    PlainJoin(s2, "-");
    var s4 := s3 + selection;
    PlainJoin(s3, selection);
    var s5 := s4 + "-";
    PlainJoin(s4, "-");
    var s := s5 + ReplaceChar(line, '.', "p");
    PlainJoin(s5, ReplaceChar(line, '.', "p"));
    LowerOfLower(s);
  }

  lemma {:induction false} DotsAsPInjective(a: string, b: string)
    requires 'p' !in a && 'p' !in b
    requires ReplaceChar(a, '.', "p") == ReplaceChar(b, '.', "p")
    ensures a == b
  {
    if a != [] && b != [] {
      var ra := ReplaceChar(a, '.', "p");
      var rb := ReplaceChar(b, '.', "p");
      assert ra[0] == (if a[0] == '.' then 'p' else a[0]);
      assert rb[0] == (if b[0] == '.' then 'p' else b[0]);
      assert a[0] == b[0];
      assert ra[1..] == ReplaceChar(a[1..], '.', "p");
      assert rb[1..] == ReplaceChar(b[1..], '.', "p");
      DotsAsPInjective(a[1..], b[1..]);
      assert a == [a[0]] + a[1..];
      assert b == [b[0]] + b[1..];
    }
  }

  /** Two different line strings (digits, signs and dots) of the same row name never share a snapshot key. */
  lemma DistinctLinesDistinctKeys(period: string, market: string, selection: string, l1: string, l2: string)
    requires NoSpace(period) && NoSpace(market) && NoSpace(selection) && NoSpace(l1) && NoSpace(l2)
    requires NoUpper(period) && NoUpper(market) && NoUpper(selection) && NoUpper(l1) && NoUpper(l2)
    requires 'p' !in l1 && 'p' !in l2 && l1 != l2
    ensures SnapshotKey(period, market, selection, l1) != SnapshotKey(period, market, selection, l2)
  {
    PlainSnapshotKey(period, market, selection, l1);
    PlainSnapshotKey(period, market, selection, l2);
    var p := period + "-" + market + "-" + selection + "-";
    if SnapshotKey(period, market, selection, l1) == SnapshotKey(period, market, selection, l2) {
      assert p + ReplaceChar(l1, '.', "p") == p + ReplaceChar(l2, '.', "p");
      assert ReplaceChar(l1, '.', "p") == (p + ReplaceChar(l1, '.', "p"))[|p|..];
      assert ReplaceChar(l2, '.', "p") == (p + ReplaceChar(l2, '.', "p"))[|p|..];
      DotsAsPInjective(l1, l2);
    }
  }

  // ---------------------------------------------------------- line strings

  lemma NumberTextUnsigned(x: real)
    ensures JsNumberString(x) != [] && JsNumberString(x)[0] != '+'
    ensures JsNumberString(x)[0] == '-' <==> x < 0.0 && Hundredths(x) != 0
  {
    var h := Hundredths(x);
    var body := NatToString(h / 100) + (if h % 100 == 0 then "" else "." + CentsDigits(h % 100));
    assert body[0] == NatToString(h / 100)[0];
    assert IsDigit(body[0]);
  }

  /** The home line string: "+hdp" for a positive handicap, String(hdp) otherwise. */
  function HomeLine(hdp: real): (r: string)
    ensures r != [] && (r[0] == '+' <==> hdp > 0.0)
  {
    NumberTextUnsigned(hdp);
    if hdp > 0.0 then "+" + JsNumberString(hdp) else JsNumberString(hdp)
  }

  /** The away line string: the negated handicap with a '+' when positive, "0" at zero. */
  function AwayLine(hdp: real): (r: string)
    ensures r != [] && (r[0] == '+' <==> hdp < 0.0)
    ensures hdp == 0.0 ==> r == "0"
  {
    var a := -hdp;
    NumberTextUnsigned(a);
    if a == 0.0 then "0" else if a > 0.0 then "+" + JsNumberString(a) else JsNumberString(a)
  }

  /** The away line is the home line of the negated handicap. */
  lemma AwayIsNegatedHome(hdp: real)
    ensures AwayLine(hdp) == HomeLine(-hdp)
  {
    if hdp == 0.0 {
      assert Hundredths(0.0) == 0;
    }
  }

  /** Off zero the two line strings differ only in their sign: one '+', the other '-'. */
  lemma LinesMirror(hdp: real)
    requires Hundredths(hdp) != 0
    ensures |HomeLine(hdp)| == |AwayLine(hdp)|
    ensures HomeLine(hdp)[1..] == AwayLine(hdp)[1..]
    ensures {HomeLine(hdp)[0], AwayLine(hdp)[0]} == {'+', '-'}
  {
    assert Abs(-hdp) == Abs(hdp);
    assert Hundredths(-hdp) == Hundredths(hdp);
    var h := Hundredths(hdp);
    var body := NatToString(h / 100) + (if h % 100 == 0 then "" else "." + CentsDigits(h % 100));
    assert hdp != 0.0;
    if hdp > 0.0 {
      assert JsNumberString(hdp) == body;
      assert JsNumberString(-hdp) == "-" + body;
    } else {
      assert JsNumberString(hdp) == "-" + body;
      assert JsNumberString(-hdp) == body;
    }
  }

  /**
   * `hdp > 0 ? "+" + hdp : "" + hdp` on any hdp value: the comparison turns
   * hdp into a number, the template writes String(hdp).
   */
  function HomeLineOf(hdp: JsValue): (r: string)
    ensures hdp.JNum? ==> r == HomeLine(hdp.x)
    ensures (r == "+" + Str(hdp)) <==> NumberOf(hdp).Some? && NumberOf(hdp).value > 0.0
    ensures NumberOf(hdp).None? || NumberOf(hdp).value <= 0.0 ==> r == Str(hdp)
  {
    assert |"+" + Str(hdp)| != |Str(hdp)|;
    match NumberOf(hdp)
    case Some(x) => if x > 0.0 then "+" + Str(hdp) else Str(hdp)
    case None => Str(hdp)
  }

  /**
   * The away line of any hdp value: -hdp is always a number (NaN when hdp
   * does not read as one, and NaN prints as "NaN").
   */
  function AwayLineOf(hdp: JsValue): (r: string)
    ensures hdp.JNum? ==> r == AwayLine(hdp.x)
    ensures NumberOf(hdp).Some? ==> r == AwayLine(NumberOf(hdp).value)
    ensures NumberOf(hdp).None? ==> r == "NaN"
  {
    match NumberOf(hdp)
    case None => "NaN"
    case Some(x) => AwayLine(x)
  }

  // ---------------------------------------------------------------- EV

  /** What a cell shows: the value itself, or "N/A" for undefined and null. */
  function Display(v: JsValue): (r: JsValue)
    ensures v.JUndefined? || v.JNull? ==> r == NA
    ensures !(v.JUndefined? || v.JNull?) ==> r == v
  {
    if v.JUndefined? || v.JNull? then NA else v
  }

  /**
   * The EV of a row: computed only when neither shown price is "N/A", both
   * convert to decimal and the no-vig decimal is above 1.0001.
   */
  function Ev(nvp: JsValue, bck: JsValue): (r: Option<real>)
    ensures r.Some? <==>
      (nvp != NA && bck != NA && AmericanToDecimal(nvp).Some? &&
       AmericanToDecimal(bck).Some? && AmericanToDecimal(nvp).value > 1.0001)
    ensures r.Some? ==> StakeReturn(r.value, AmericanToDecimal(nvp).value, AmericanToDecimal(bck).value)
    ensures r.Some? ==> r.value > -1.0
    ensures r.Some? ==> (r.value > 0.0 <==> AmericanToDecimal(bck).value > AmericanToDecimal(nvp).value)
  {
    if nvp == NA || bck == NA then None
    else EvOfDecimals(AmericanToDecimal(nvp), AmericanToDecimal(bck))
  }

  /** calculateEV on two converted prices. */
  function EvOfDecimals(nd: Option<real>, bd: Option<real>): (r: Option<real>)
    requires bd.Some? ==> bd.value > 1.0
    ensures r.Some? <==> nd.Some? && bd.Some? && nd.value > 1.0001
    ensures r.Some? ==> StakeReturn(r.value, nd.value, bd.value)
    ensures r.Some? ==> r.value > -1.0
    ensures r.Some? ==> (r.value > 0.0 <==> bd.value > nd.value)
  {
    match (nd, bd)
    case (Some(n), Some(b)) =>
      if n > 1.0001 then
        EvRatio(b, n);
        Some(b / n - 1.0)
      else None
    case _ => None
  }

  /** On a price of n, one unit staked at EV e pays back b: (e + 1) * n == b. */
  predicate StakeReturn(e: real, n: real, b: real)
  {
    (e + 1.0) * n == b
  }

  /** b / n - 1 is the return on a stake: above -1, and positive exactly when b beats n. */
  lemma EvRatio(b: real, n: real)
    requires b > 1.0 && n > 1.0001
    ensures (b / n - 1.0 + 1.0) * n == b
    ensures b / n - 1.0 > -1.0
    ensures b / n - 1.0 > 0.0 <==> b > n
  {
    var q := b / n;
    assert q * n == b;
    assert q > 0.0;
    if q > 1.0 {
      assert q * n > n;
    } else {
      assert q * n <= n;
    }
  }

  /** The browser's EV is calculate_ev of the same two decimal prices. */
  lemma EvAgreesWithServer(nvp: JsValue, bck: JsValue)
    requires nvp != NA && bck != NA
    ensures Ev(nvp, bck) == MainLogic.CalculateEv(AmericanToDecimal(bck), AmericanToDecimal(nvp))
  {
    var e := Ev(nvp, bck);
    var c := MainLogic.CalculateEv(AmericanToDecimal(bck), AmericanToDecimal(nvp));
    assert e.Some? <==> c.Some?;
    if e.Some? {
      var n := AmericanToDecimal(nvp).value;
      assert (e.value + 1.0) * n == (c.value + 1.0) * n;
    }
  }

  datatype RowClass = Plain | PositiveEv | NegativeEv

  /** The row class: positive above the threshold, negative below its negation, plain otherwise. */
  function Classify(ev: Option<real>): (r: RowClass)
    ensures r == PositiveEv <==> ev.Some? && ev.value > EvThreshold
    ensures r == NegativeEv <==> ev.Some? && ev.value < -EvThreshold
  {
    match ev
    case None => Plain
    case Some(e) => if e > EvThreshold then PositiveEv else if e < -EvThreshold then NegativeEv else Plain
  }

  // ---------------------------------------------------------------- rows

  /** Everything renderRow reads from its enclosing scopes. */
  datatype Context = Context(
    payload: JsValue,                 // betbckOddsPayload, null when BetBCK has no odds
    home: JsValue,                    // homeTeam
    away: JsValue,                    // awayTeam
    previous: map<string, JsValue>)   // previousPinnacleMarkets

  /** The arguments of one renderRow call. */
  datatype Quote = Quote(market: string, selection: JsValue, line: string, pin: JsValue, nvp: JsValue, bck: JsValue)

  /** A rendered table row. */
  datatype Row = Row(
    market: string, selection: JsValue, line: string, key: string,
    pin: JsValue, nvp: JsValue, bck: JsValue,
    ev: Option<real>, kind: RowClass, changed: bool)

  /** A BetBCK price that hides its row once BetBCK data is present. */
  predicate NotOffered(v: JsValue) {
    v.JNull? || v.JUndefined? || Strip(Str(v)) == "N/A"
  }

  /**
   * renderRow: without a BetBCK payload every price shows as "N/A"; with one,
   * a row whose BetBCK price is missing or "N/A" is not rendered.  The
   * Pinnacle cell is flagged when the previous render recorded a different
   * price under the same snapshot key.
   */
  function RowFor(ctx: Context, period: string, q: Quote): (r: Option<Row>)
    ensures r.None? <==> Truthy(ctx.payload) && NotOffered(q.bck)
    ensures r.Some? ==>
      var row := r.value;
      row.market == q.market && row.selection == q.selection && row.line == q.line &&
      row.key == SnapshotKey(period, q.market, Str(q.selection), q.line) &&
      row.pin == Display(q.pin) && row.nvp == Display(q.nvp) &&
      row.bck == (if Truthy(ctx.payload) then q.bck else NA) &&
      row.ev == Ev(row.nvp, row.bck) && row.kind == Classify(row.ev) &&
      (row.changed <==> row.key in ctx.previous && ctx.previous[row.key] != row.pin)
  {
    var bck := if !Truthy(ctx.payload) && !q.bck.JUndefined? then JNull else q.bck;
    if Truthy(ctx.payload) && NotOffered(bck) then None
    else
      var key := SnapshotKey(period, q.market, Str(q.selection), q.line);
      var pin := Display(q.pin);
      var nvp := Display(q.nvp);
      var shown := Display(bck);
      var ev := Ev(nvp, shown);
      Some(Row(q.market, q.selection, q.line, key, pin, nvp, shown, ev, Classify(ev),
               key in ctx.previous && ctx.previous[key] != pin))
  }

  function OptRow(r: Option<Row>): seq<Row> {
    if r.Some? then [r.value] else []
  }

  /** The rows of a sequence of renderRow calls, in call order. */
  function RowsFor(ctx: Context, period: string, qs: seq<Quote>): (r: seq<Row>)
    ensures |r| <= |qs|
  {
    if qs == [] then []
    else RowsFor(ctx, period, qs[..|qs| - 1]) + OptRow(RowFor(ctx, period, qs[|qs| - 1]))
  }

  /** One more quote of a run adds its row, if it has one, at the end. */
  lemma RowsStep(ctx: Context, period: string, qs: seq<Quote>, i: nat)
    requires i < |qs|
    ensures RowsFor(ctx, period, qs[..i + 1]) == RowsFor(ctx, period, qs[..i]) + OptRow(RowFor(ctx, period, qs[i]))
  {
    assert qs[..i + 1][..i] == qs[..i];
  }

  lemma {:induction false} RowsForAppend(ctx: Context, period: string, a: seq<Quote>, b: seq<Quote>)
    ensures RowsFor(ctx, period, a + b) == RowsFor(ctx, period, a) + RowsFor(ctx, period, b)
    decreases |b|
  {
    if b == [] {
      assert a + b == a;
    } else {
      var b' := b[..|b| - 1];
      assert (a + b)[..|a + b| - 1] == a + b';
      assert (a + b)[|a + b| - 1] == b[|b| - 1];
      RowsForAppend(ctx, period, a, b');
    }
  }

  /** Without a BetBCK payload every call renders a row, with no EV and no class. */
  lemma {:induction false} NoPayloadNoEv(ctx: Context, period: string, qs: seq<Quote>)
    requires !Truthy(ctx.payload)
    ensures |RowsFor(ctx, period, qs)| == |qs|
    ensures forall row :: row in RowsFor(ctx, period, qs) ==> row.bck == NA && row.ev.None? && row.kind == Plain
  {
    if qs != [] {
      NoPayloadNoEv(ctx, period, qs[..|qs| - 1]);
      var r := RowFor(ctx, period, qs[|qs| - 1]);
      assert r.Some? && r.value.bck == NA;
    }
  }

  /** With a BetBCK payload, calls that carry no BetBCK price render nothing. */
  lemma {:induction false} UnpairedHidden(ctx: Context, period: string, qs: seq<Quote>)
    requires Truthy(ctx.payload)
    requires forall i :: 0 <= i < |qs| ==> qs[i].bck == JNull
    ensures RowsFor(ctx, period, qs) == []
  {
    if qs != [] {
      UnpairedHidden(ctx, period, qs[..|qs| - 1]);
    }
  }

  /** "N/A" itself counts as not offered. */
  lemma NaNotOffered()
    ensures NotOffered(NA)
  {
    var t := Str(NA);
    assert t == "N/A";
    assert !IsSpace(t[0]) && !IsSpace(t[|t| - 1]);
    StripKeeps(t);
  }

  /** With a BetBCK payload every rendered row shows a BetBCK price other than "N/A". */
  lemma {:induction false} ShownRowsOffered(ctx: Context, period: string, qs: seq<Quote>)
    requires Truthy(ctx.payload)
    ensures forall row :: row in RowsFor(ctx, period, qs) ==> !NotOffered(row.bck) && row.bck != NA
  {
    NaNotOffered();
    if qs != [] {
      ShownRowsOffered(ctx, period, qs[..|qs| - 1]);
    }
  }

  // ---------------------------------------------------------------- pairing

  /** periodName.toLowerCase().includes("match"). */
  predicate IsMatch(period: string) {
    Contains(Lower(period), "match")
  }

  /** BetBCK prices are looked up only for a "match" period and only when a payload exists. */
  predicate Paired(ctx: Context, period: string) {
    Truthy(ctx.payload) && IsMatch(period)
  }

  /** No call carries a BetBCK price. */
  predicate Unpriced(qs: seq<Quote>) {
    forall i :: 0 <= i < |qs| ==> qs[i].bck == JNull
  }

  lemma UnpricedJoin(a: seq<Quote>, b: seq<Quote>)
    ensures Unpriced(a) && Unpriced(b) ==> Unpriced(a + b)
  {
    assert forall i :: 0 <= i < |a + b| ==> (a + b)[i] == if i < |a| then a[i] else b[i - |a|];
  }

  /** Array.prototype.find by line: the index of the first item whose line is exactly the given string. */
  function FindLine(items: seq<JsValue>, line: string): (r: Option<nat>)
    ensures r.Some? ==> r.value < |items| && Member(items[r.value], "line") == JStr(line)
    ensures r.Some? ==> forall j :: 0 <= j < r.value ==> Member(items[j], "line") != JStr(line)
    ensures r.None? ==> forall j :: 0 <= j < |items| ==> Member(items[j], "line") != JStr(line)
  {
    if items == [] then None
    else if Member(items[0], "line") == JStr(line) then Some(0)
    else
      match FindLine(items[1..], line)
      case None => None
      case Some(k) => Some(k + 1)
  }

  /** list?.find(bs => bs.line === line)?.odds: undefined when there is no list or no such line. */
  function FirstOdds(list: JsValue, line: string): (r: JsValue)
    ensures !list.JArr? ==> r == JUndefined
    ensures list.JArr? && FindLine(list.items, line).None? ==> r == JUndefined
    ensures list.JArr? && FindLine(list.items, line).Some? ==>
      r == Member(list.items[FindLine(list.items, line).value], "odds")
  {
    if !list.JArr? then JUndefined
    else
      match FindLine(list.items, line)
      case None => JUndefined
      case Some(i) => Member(list.items[i], "odds")
  }

  /** A BetBCK field when the period is paired, null otherwise. */
  function PairedPrice(ctx: Context, period: string, name: string): (r: JsValue)
    ensures Paired(ctx, period) ==> r == Member(ctx.payload, name)
    ensures !Paired(ctx, period) ==> r == JNull
  {
    if Paired(ctx, period) then Member(ctx.payload, name) else JNull
  }

  /** The draw row is rendered unless american_draw is undefined, null or "N/A". */
  predicate HasDraw(ml: JsValue) {
    var d := Member(ml, "american_draw");
    !(d.JUndefined? || d.JNull? || d == NA)
  }

  /** The renderRow calls of a money_line: home, away and, when it has a price, the draw. */
  function MoneylineQuotes(ctx: Context, period: string, ml: JsValue): (r: seq<Quote>)
    ensures !(Truthy(ml) && IsObjectLike(ml)) ==> r == []
    ensures Truthy(ml) && IsObjectLike(ml) ==> |r| == if HasDraw(ml) then 3 else 2
    ensures forall i :: 0 <= i < |r| ==> r[i].market == "Moneyline" && r[i].line == ""
    ensures |r| >= 2 ==> r[0].selection == ctx.home && r[1].selection == ctx.away
    ensures |r| >= 2 ==> r[0].bck == PairedPrice(ctx, period, "home_moneyline_american")
    ensures |r| >= 2 ==> r[1].bck == PairedPrice(ctx, period, "away_moneyline_american")
    ensures |r| == 3 ==> r[2].bck == PairedPrice(ctx, period, "draw_moneyline_american")
    ensures !Paired(ctx, period) ==> Unpriced(r)
  {
    if !(Truthy(ml) && IsObjectLike(ml)) then []
    else
      var home := Quote("Moneyline", ctx.home, "", Member(ml, "american_home"), Member(ml, "nvp_american_home"),
                        PairedPrice(ctx, period, "home_moneyline_american"));
      var away := Quote("Moneyline", ctx.away, "", Member(ml, "american_away"), Member(ml, "nvp_american_away"),
                        PairedPrice(ctx, period, "away_moneyline_american"));
      if HasDraw(ml) then
        [home, away, Quote("Moneyline", JStr("Draw"), "", Member(ml, "american_draw"), Member(ml, "nvp_american_draw"),
                           PairedPrice(ctx, period, "draw_moneyline_american"))]
      else [home, away]
  }

  /**
   * The two renderRow calls of one spread: the home side under the home line
   * string and the away side under the away line string, each priced by the
   * first BetBCK spread whose line string is exactly that string.
   */
  function SpreadEntryQuotes(ctx: Context, period: string, s: JsValue): (r: seq<Quote>)
    ensures r == [] || |r| == 2
    ensures r == [] <==> !s.JObj? || Member(s, "hdp").JUndefined?
    ensures |r| == 2 ==>
      var h := Member(s, "hdp");
      r[0].market == "Spread" && r[1].market == "Spread" &&
      r[0].selection == ctx.home && r[1].selection == ctx.away &&
      r[0].line == HomeLineOf(h) && r[1].line == AwayLineOf(h) &&
      r[0].pin == Member(s, "american_home") && r[1].pin == Member(s, "american_away") &&
      r[0].nvp == Member(s, "nvp_american_home") && r[1].nvp == Member(s, "nvp_american_away")
    ensures Member(s, "hdp").JNum? ==>
      |r| == 2 && r[0].line == HomeLine(Member(s, "hdp").x) && r[1].line == AwayLine(Member(s, "hdp").x)
    ensures |r| == 2 && Paired(ctx, period) ==>
      r[0].bck == FirstOdds(Member(ctx.payload, "home_spreads"), r[0].line) &&
      r[1].bck == FirstOdds(Member(ctx.payload, "away_spreads"), r[1].line)
    ensures !Paired(ctx, period) ==> Unpriced(r)
  {
    if !s.JObj? || Member(s, "hdp").JUndefined? then []
    else
      var hl := HomeLineOf(Member(s, "hdp"));
      var al := AwayLineOf(Member(s, "hdp"));
      var paired := Paired(ctx, period);
      [Quote("Spread", ctx.home, hl, Member(s, "american_home"), Member(s, "nvp_american_home"),
             if paired then FirstOdds(Member(ctx.payload, "home_spreads"), hl) else JNull),
       Quote("Spread", ctx.away, al, Member(s, "american_away"), Member(s, "nvp_american_away"),
             if paired then FirstOdds(Member(ctx.payload, "away_spreads"), al) else JNull)]
  }

  /** The two renderRow calls of one total, priced only when BetBCK's total line reads as the same string. */
  function TotalEntryQuotes(ctx: Context, period: string, t: JsValue): (r: seq<Quote>)
    ensures r == [] || |r| == 2
    ensures r == [] <==> !t.JObj? || Member(t, "points").JUndefined?
    ensures |r| == 2 ==>
      var pts := Str(Member(t, "points"));
      r[0].market == "Total" && r[1].market == "Total" &&
      r[0].selection == JStr("Over") && r[1].selection == JStr("Under") &&
      r[0].line == pts && r[1].line == pts &&
      r[0].pin == Member(t, "american_over") && r[1].pin == Member(t, "american_under") &&
      r[0].nvp == Member(t, "nvp_american_over") && r[1].nvp == Member(t, "nvp_american_under")
    ensures |r| == 2 ==>
      var matched := Paired(ctx, period) && Str(Member(ctx.payload, "game_total_line")) == r[0].line;
      r[0].bck == (if matched then Member(ctx.payload, "game_total_over_odds") else JNull) &&
      r[1].bck == (if matched then Member(ctx.payload, "game_total_under_odds") else JNull)
    ensures !Paired(ctx, period) ==> Unpriced(r)
  {
    if !t.JObj? || Member(t, "points").JUndefined? then []
    else
      var pts := Str(Member(t, "points"));
      var matched := Paired(ctx, period) && Str(Member(ctx.payload, "game_total_line")) == pts;
      [Quote("Total", JStr("Over"), pts, Member(t, "american_over"), Member(t, "nvp_american_over"),
             if matched then Member(ctx.payload, "game_total_over_odds") else JNull),
       Quote("Total", JStr("Under"), pts, Member(t, "american_under"), Member(t, "nvp_american_under"),
             if matched then Member(ctx.payload, "game_total_under_odds") else JNull)]
  }

  /** The renderRow calls of the spreads forEach, in Object.values order. */
  function SpreadQuotes(ctx: Context, period: string, spreads: seq<JsValue>): (r: seq<Quote>)
    ensures |r| <= 2 * |spreads|
    ensures !Paired(ctx, period) ==> Unpriced(r)
  {
    if spreads == [] then []
    else
      var init := SpreadQuotes(ctx, period, spreads[..|spreads| - 1]);
      var last := SpreadEntryQuotes(ctx, period, spreads[|spreads| - 1]);
      UnpricedJoin(init, last);
      init + last
  }

  /** The renderRow calls of the totals forEach, in Object.values order. */
  function TotalQuotes(ctx: Context, period: string, totals: seq<JsValue>): (r: seq<Quote>)
    ensures |r| <= 2 * |totals|
    ensures !Paired(ctx, period) ==> Unpriced(r)
  {
    if totals == [] then []
    else
      var init := TotalQuotes(ctx, period, totals[..|totals| - 1]);
      var last := TotalEntryQuotes(ctx, period, totals[|totals| - 1]);
      UnpricedJoin(init, last);
      init + last
  }

  /** The spreads or totals of a period when they are a plain object, else nothing. */
  function Listing(pd: JsValue, name: string): (r: seq<JsValue>)
    ensures Member(pd, name).JObj? ==> r == ValuesOf(Member(pd, name))
    ensures !Member(pd, name).JObj? ==> r == []
  {
    var v := Member(pd, name);
    if v.JObj? then ValuesOf(v) else []
  }

  /** appendMarketRows: the money line, then the spreads, then the totals of one period. */
  function PeriodQuotes(ctx: Context, period: string, pd: JsValue): (r: seq<Quote>)
    ensures !(Truthy(pd) && IsObjectLike(pd)) ==> r == []
    ensures !Paired(ctx, period) ==> Unpriced(r)
  {
    if !(Truthy(pd) && IsObjectLike(pd)) then []
    else
      var ml := MoneylineQuotes(ctx, period, Member(pd, "money_line"));
      var sp := SpreadQuotes(ctx, period, Listing(pd, "spreads"));
      var tt := TotalQuotes(ctx, period, Listing(pd, "totals"));
      UnpricedJoin(ml, sp);
      UnpricedJoin(ml + sp, tt);
      ml + sp + tt
  }

  /**
   * Outside the "match" period nothing is priced, so once BetBCK data is
   * present every row of such a period is hidden.
   */
  lemma UnmatchedPeriodHidden(ctx: Context, period: string, pd: JsValue)
    requires Truthy(ctx.payload) && !IsMatch(period)
    ensures RowsFor(ctx, period, PeriodQuotes(ctx, period, pd)) == []
  {
    var qs := PeriodQuotes(ctx, period, pd);
    assert Unpriced(qs);
    UnpairedHidden(ctx, period, qs);
  }

  // ---------------------------------------------------------------- snapshot

  function KeysOf(rows: seq<Row>): set<string> {
    set i | 0 <= i < |rows| :: rows[i].key
  }

  /** No later row shares row i's snapshot key. */
  predicate LastWithKey(rows: seq<Row>, i: int)
    requires 0 <= i < |rows|
  {
    forall j :: i < j < |rows| ==> rows[j].key != rows[i].key
  }

  /**
   * newPinnacleMarketsSnapshot after a sequence of rows: each row writes its
   * Pinnacle price under its key.
   */
  function Recorded(snap: map<string, JsValue>, rows: seq<Row>): (r: map<string, JsValue>)
    ensures r.Keys == snap.Keys + KeysOf(rows)
  {
    if rows == [] then snap
    else
      var init := rows[..|rows| - 1];
      var last := rows[|rows| - 1];
      assert KeysOf(rows) == KeysOf(init) + {last.key} by {
        assert forall i :: 0 <= i < |init| ==> init[i] == rows[i];
      }
      Recorded(snap, init)[last.key := last.pin]
  }

  /** The last row with a key decides its price. */
  lemma {:induction false} RecordedLastWins(snap: map<string, JsValue>, rows: seq<Row>)
    ensures forall i :: 0 <= i < |rows| && LastWithKey(rows, i) ==> Recorded(snap, rows)[rows[i].key] == rows[i].pin
  {
    if rows != [] {
      RecordedLastWins(snap, rows[..|rows| - 1]);
      forall i | 0 <= i < |rows| && LastWithKey(rows, i)
        ensures Recorded(snap, rows)[rows[i].key] == rows[i].pin
      {
        RecordedLastStep(snap, rows, rows[..|rows| - 1], i);
      }
    }
  }

  lemma RecordedLastStep(snap: map<string, JsValue>, rows: seq<Row>, init: seq<Row>, i: int)
    requires 0 <= i < |rows| && LastWithKey(rows, i) && init == rows[..|rows| - 1]
    requires forall j :: 0 <= j < |init| && LastWithKey(init, j) ==> Recorded(snap, init)[init[j].key] == init[j].pin
    ensures Recorded(snap, rows)[rows[i].key] == rows[i].pin
  {
    var last := rows[|rows| - 1];
    var m := Recorded(snap, init);
    assert Recorded(snap, rows) == m[last.key := last.pin];
    if i < |rows| - 1 {
      LastWithKeyInit(rows, i);
      assert m[rows[i].key] == rows[i].pin;
    }
  }

  lemma LastWithKeyInit(rows: seq<Row>, i: int)
    requires 0 <= i < |rows| - 1 && LastWithKey(rows, i)
    ensures rows[i].key != rows[|rows| - 1].key
    ensures rows[..|rows| - 1][i] == rows[i] && LastWithKey(rows[..|rows| - 1], i)
  {
    var init := rows[..|rows| - 1];
    assert forall j :: i < j < |init| ==> init[j] == rows[j];
  }

  /** Keys no row writes keep their old price. */
  lemma {:induction false} RecordedKeeps(snap: map<string, JsValue>, rows: seq<Row>)
    ensures forall k :: k in snap && k !in KeysOf(rows) ==> Recorded(snap, rows)[k] == snap[k]
  {
    if rows != [] {
      var init := rows[..|rows| - 1];
      RecordedKeeps(snap, init);
      assert KeysOf(init) <= KeysOf(rows) by {
        assert forall i :: 0 <= i < |init| ==> init[i] == rows[i];
      }
    }
  }

  /** A row's changed flag compares its price with the previous render's price under its key. */
  predicate FlagFollows(previous: map<string, JsValue>, row: Row) {
    row.changed <==> row.key in previous && previous[row.key] != row.pin
  }

  lemma {:induction false} FlagsFollowPrevious(ctx: Context, period: string, qs: seq<Quote>)
    ensures forall row :: row in RowsFor(ctx, period, qs) ==> FlagFollows(ctx.previous, row)
  {
    if qs != [] {
      FlagsFollowPrevious(ctx, period, qs[..|qs| - 1]);
    }
  }

  /** The rows with the changed flag cleared. */
  function Unflagged(rows: seq<Row>): (r: seq<Row>)
    ensures |r| == |rows|
    ensures forall i :: 0 <= i < |rows| ==> r[i] == rows[i].(changed := false)
  {
    seq(|rows|, i requires 0 <= i < |rows| => rows[i].(changed := false))
  }

  lemma UnflaggedJoin(a: seq<Row>, b: seq<Row>)
    ensures Unflagged(a + b) == Unflagged(a) + Unflagged(b)
  {
    assert forall i :: 0 <= i < |a + b| ==> (a + b)[i] == if i < |a| then a[i] else b[i - |a|];
  }

  /** The previous markets decide the changed flags and nothing else. */
  lemma {:induction false} OnlyFlagsSeePrevious(ctx: Context, other: map<string, JsValue>, period: string, qs: seq<Quote>)
    ensures Unflagged(RowsFor(ctx.(previous := other), period, qs)) == Unflagged(RowsFor(ctx, period, qs))
  {
    if qs != [] {
      var ctx2 := ctx.(previous := other);
      var init := qs[..|qs| - 1];
      var q := qs[|qs| - 1];
      OnlyFlagsSeePrevious(ctx, other, period, init);
      var a := OptRow(RowFor(ctx, period, q));
      var b := OptRow(RowFor(ctx2, period, q));
      assert Unflagged(a) == Unflagged(b);
      UnflaggedJoin(RowsFor(ctx, period, init), a);
      UnflaggedJoin(RowsFor(ctx2, period, init), b);
    }
  }

  /**
   * Rendering the same calls again against the markets the first render
   * recorded flags no price as changed, as long as no two rows share a key.
   */
  lemma RerenderFlagsNothing(ctx: Context, period: string, qs: seq<Quote>)
    requires var rows := RowsFor(ctx, period, qs);
      forall i, j :: 0 <= i < j < |rows| ==> rows[i].key != rows[j].key
    ensures var again := RowsFor(ctx.(previous := Recorded(map[], RowsFor(ctx, period, qs))), period, qs);
      forall row :: row in again ==> !row.changed
  {
    var rows := RowsFor(ctx, period, qs);
    var prev := Recorded(map[], rows);
    var ctx2 := ctx.(previous := prev);
    var again := RowsFor(ctx2, period, qs);
    OnlyFlagsSeePrevious(ctx, prev, period, qs);
    FlagsFollowPrevious(ctx2, period, qs);
    RecordedLastWins(map[], rows);
    forall k | 0 <= k < |again|
      ensures !again[k].changed
    {
      assert Unflagged(again)[k] == Unflagged(rows)[k];
      assert again[k].key == rows[k].key && again[k].pin == rows[k].pin;
      assert LastWithKey(rows, k);
      assert FlagFollows(prev, again[k]);
    }
  }

  lemma {:induction false} RecordedAppend(snap: map<string, JsValue>, a: seq<Row>, b: seq<Row>)
    ensures Recorded(snap, a + b) == Recorded(Recorded(snap, a), b)
    decreases |b|
  {
    if b == [] {
      assert a + b == a;
    } else {
      var b' := b[..|b| - 1];
      assert (a + b)[..|a + b| - 1] == a + b';
      assert (a + b)[|a + b| - 1] == b[|b| - 1];
      RecordedAppend(snap, a, b');
    }
  }

  lemma SpreadStep(ctx: Context, period: string, spreads: seq<JsValue>, i: nat, snap: map<string, JsValue>)
    requires i < |spreads|
    ensures var done := RowsFor(ctx, period, SpreadQuotes(ctx, period, spreads[..i]));
      var added := RowsFor(ctx, period, SpreadEntryQuotes(ctx, period, spreads[i]));
      RowsFor(ctx, period, SpreadQuotes(ctx, period, spreads[..i + 1])) == done + added &&
      Recorded(snap, done + added) == Recorded(Recorded(snap, done), added)
  {
    assert spreads[..i + 1][..i] == spreads[..i];
    var before := SpreadQuotes(ctx, period, spreads[..i]);
    var entry := SpreadEntryQuotes(ctx, period, spreads[i]);
    RowsForAppend(ctx, period, before, entry);
    RecordedAppend(snap, RowsFor(ctx, period, before), RowsFor(ctx, period, entry));
  }

  lemma TotalStep(ctx: Context, period: string, totals: seq<JsValue>, i: nat, snap: map<string, JsValue>)
    requires i < |totals|
    ensures var done := RowsFor(ctx, period, TotalQuotes(ctx, period, totals[..i]));
      var added := RowsFor(ctx, period, TotalEntryQuotes(ctx, period, totals[i]));
      RowsFor(ctx, period, TotalQuotes(ctx, period, totals[..i + 1])) == done + added &&
      Recorded(snap, done + added) == Recorded(Recorded(snap, done), added)
  {
    assert totals[..i + 1][..i] == totals[..i];
    var before := TotalQuotes(ctx, period, totals[..i]);
    var entry := TotalEntryQuotes(ctx, period, totals[i]);
    RowsForAppend(ctx, period, before, entry);
    RecordedAppend(snap, RowsFor(ctx, period, before), RowsFor(ctx, period, entry));
  }

  lemma RowsAssoc(a: seq<Row>, b: seq<Row>, c: seq<Row>)
    ensures a + b + c == a + (b + c)
  {
  }

  // ---------------------------------------------------------------- table builder

  /** The rows appended to tableHtml and the snapshot renderRow fills, for one event. */
  class TableBuilder {
    const ctx: Context
    var rows: seq<Row>
    var snapshot: map<string, JsValue>

    constructor (ctx: Context)
      ensures this.ctx == ctx && rows == [] && snapshot == map[]
    {
      this.ctx := ctx;
      rows := [];
      snapshot := map[];
    }

    /** renderRow: appends the row, when it is shown, and records its Pinnacle price. */
    method RenderRow(period: string, q: Quote)
      modifies this
      ensures rows == old(rows) + OptRow(RowFor(ctx, period, q))
      ensures snapshot == Recorded(old(snapshot), OptRow(RowFor(ctx, period, q)))
    {
      var bck := q.bck;
      if !Truthy(ctx.payload) && !bck.JUndefined? {
        bck := JNull;
      }
      if Truthy(ctx.payload) && NotOffered(bck) {
        return;
      }
      var pin := Display(q.pin);
      var nvp := Display(q.nvp);
      var shown := Display(bck);
      var key := SnapshotKey(period, q.market, Str(q.selection), q.line);
      var changed := key in ctx.previous && ctx.previous[key] != pin;
      snapshot := snapshot[key := pin];
      var ev := Ev(nvp, shown);
      rows := rows + [Row(q.market, q.selection, q.line, key, pin, nvp, shown, ev, Classify(ev), changed)];
      assert [rows[|rows| - 1]][..0] == [];
    }

    /** A run of renderRow calls. */
    method RenderAll(period: string, qs: seq<Quote>)
      modifies this
      ensures rows == old(rows) + RowsFor(ctx, period, qs)
      ensures snapshot == Recorded(old(snapshot), RowsFor(ctx, period, qs))
    {
      var i := 0;
      while i < |qs|
        invariant 0 <= i <= |qs|
        invariant rows == old(rows) + RowsFor(ctx, period, qs[..i])
        invariant snapshot == Recorded(old(snapshot), RowsFor(ctx, period, qs[..i]))
      {
        ghost var done := RowsFor(ctx, period, qs[..i]);
        ghost var added := OptRow(RowFor(ctx, period, qs[i]));
        RowsStep(ctx, period, qs, i);
        RenderRow(period, qs[i]);
        RecordedAppend(old(snapshot), done, added);
        RowsAssoc(old(rows), done, added);
        i := i + 1;
      }
      assert qs[..i] == qs;
    }

    /** spreadsArray.forEach: the two rows of every spread, in order. */
    method AppendSpreads(period: string, spreads: seq<JsValue>)
      modifies this
      ensures rows == old(rows) + RowsFor(ctx, period, SpreadQuotes(ctx, period, spreads))
      ensures snapshot == Recorded(old(snapshot), RowsFor(ctx, period, SpreadQuotes(ctx, period, spreads)))
    {
      var i := 0;
      while i < |spreads|
        invariant 0 <= i <= |spreads|
        invariant rows == old(rows) + RowsFor(ctx, period, SpreadQuotes(ctx, period, spreads[..i]))
        invariant snapshot == Recorded(old(snapshot), RowsFor(ctx, period, SpreadQuotes(ctx, period, spreads[..i])))
      {
        ghost var done := RowsFor(ctx, period, SpreadQuotes(ctx, period, spreads[..i]));
        ghost var added := RowsFor(ctx, period, SpreadEntryQuotes(ctx, period, spreads[i]));
        SpreadStep(ctx, period, spreads, i, old(snapshot));
        RenderAll(period, SpreadEntryQuotes(ctx, period, spreads[i]));
        RowsAssoc(old(rows), done, added);
        i := i + 1;
      }
      assert spreads[..i] == spreads;
    }

    /** totalsArray.forEach: the over and under rows of every total, in order. */
    method AppendTotals(period: string, totals: seq<JsValue>)
      modifies this
      ensures rows == old(rows) + RowsFor(ctx, period, TotalQuotes(ctx, period, totals))
      ensures snapshot == Recorded(old(snapshot), RowsFor(ctx, period, TotalQuotes(ctx, period, totals)))
    {
      var i := 0;
      while i < |totals|
        invariant 0 <= i <= |totals|
        invariant rows == old(rows) + RowsFor(ctx, period, TotalQuotes(ctx, period, totals[..i]))
        invariant snapshot == Recorded(old(snapshot), RowsFor(ctx, period, TotalQuotes(ctx, period, totals[..i])))
      {
        ghost var done := RowsFor(ctx, period, TotalQuotes(ctx, period, totals[..i]));
        ghost var added := RowsFor(ctx, period, TotalEntryQuotes(ctx, period, totals[i]));
        TotalStep(ctx, period, totals, i, old(snapshot));
        RenderAll(period, TotalEntryQuotes(ctx, period, totals[i]));
        RowsAssoc(old(rows), done, added);
        i := i + 1;
      }
      assert totals[..i] == totals;
    }

    /** appendMarketRows for one period. */
    method AppendMarketRows(pd: JsValue, period: string)
      modifies this
      ensures rows == old(rows) + RowsFor(ctx, period, PeriodQuotes(ctx, period, pd))
      ensures snapshot == Recorded(old(snapshot), RowsFor(ctx, period, PeriodQuotes(ctx, period, pd)))
    {
      if !(Truthy(pd) && IsObjectLike(pd)) {
        return;
      }
      var ml := MoneylineQuotes(ctx, period, Member(pd, "money_line"));
      ghost var sp := SpreadQuotes(ctx, period, Listing(pd, "spreads"));
      ghost var tt := TotalQuotes(ctx, period, Listing(pd, "totals"));
      ghost var a, b, c := RowsFor(ctx, period, ml), RowsFor(ctx, period, sp), RowsFor(ctx, period, tt);
      RenderAll(period, ml);
      if Member(pd, "spreads").JObj? {
        AppendSpreads(period, ValuesOf(Member(pd, "spreads")));
      }
      assert rows == old(rows) + a + b;
      if Member(pd, "totals").JObj? {
        AppendTotals(period, ValuesOf(Member(pd, "totals")));
      }
      assert rows == old(rows) + a + b + c;
      RowsForAppend(ctx, period, ml, sp);
      RowsForAppend(ctx, period, ml + sp, tt);
      RowsAssoc(old(rows), a, b);
      RowsAssoc(old(rows), a + b, c);
      RecordedAppend(old(snapshot), a, b);
      RecordedAppend(old(snapshot), a + b, c);
    }

    /** Both appendMarketRows calls of a table, starting from an empty one. */
    method RenderPeriods(periods: JsValue)
      requires rows == [] && snapshot == map[]
      modifies this
      ensures rows == EventRows(ctx, periods)
      ensures snapshot == Recorded(map[], rows)
    {
      var period0 := Member(periods, "num_0");
      var period1 := Member(periods, "num_1");
      if Truthy(period0) {
        AppendMarketRows(period0, "Match");
      }
      ghost var a := RowsFor(ctx, "Match", PeriodQuotes(ctx, "Match", period0));
      assert rows == a && snapshot == Recorded(map[], a);
      if Truthy(period1) {
        AppendMarketRows(period1, "1st Half");
      }
      ghost var b := RowsFor(ctx, "1st Half", PeriodQuotes(ctx, "1st Half", period1));
      RecordedAppend(map[], a, b);
    }
  }

  // ---------------------------------------------------------------- one event

  /** a || b. */
  function OrElse(a: JsValue, b: JsValue): (r: JsValue)
    ensures Truthy(a) ==> r == a
    ensures !Truthy(a) ==> r == b
  {
    if Truthy(a) then a else b
  }

  /** betbckOddsPayload: the data of a successful BetBCK response, null otherwise. */
  function PayloadOf(bf: JsValue): (r: JsValue)
    ensures Truthy(r) ==> Member(bf, "status") == JStr("success") && r == Member(bf, "data")
    ensures !Truthy(r) ==> r == JNull
    ensures Member(bf, "status") == JStr("success") && Truthy(Member(bf, "data")) ==> r == Member(bf, "data")
  {
    if Truthy(bf) && Member(bf, "status") == JStr("success") && Truthy(Member(bf, "data")) then Member(bf, "data")
    else JNull
  }

  /** The markets recorded for an event by the previous render, or none. */
  function PreviousMarkets(snapshots: map<string, map<string, JsValue>>, eventId: string): (r: map<string, JsValue>)
    ensures eventId in snapshots ==> r == snapshots[eventId]
    ensures eventId !in snapshots ==> r == map[]
  {
    if eventId in snapshots then snapshots[eventId] else map[]
  }

  /** The render context: the payload, the team names with their fallbacks, the previous markets. */
  function ContextFor(entry: JsValue, details: JsValue, payload: JsValue, previous: map<string, JsValue>): Context
  {
    var alert := OrElse(Member(entry, "alert_trigger_details"), JObj([]));
    Context(payload,
            OrElse(OrElse(Member(details, "home"), Member(alert, "homeTeam")), JStr("Home N/A")),
            OrElse(OrElse(Member(details, "away"), Member(alert, "awayTeam")), JStr("Away N/A")),
            previous)
  }

  /** The rows of an event: the "Match" period (num_0), then the "1st Half" (num_1). */
  function EventRows(ctx: Context, periods: JsValue): seq<Row>
  {
    RowsFor(ctx, "Match", PeriodQuotes(ctx, "Match", Member(periods, "num_0"))) +
    RowsFor(ctx, "1st Half", PeriodQuotes(ctx, "1st Half", Member(periods, "num_1")))
  }

  /** pinnacleEventDetails: pinnacle_data_processed?.data. */
  function Details(entry: JsValue): JsValue {
    Member(Member(entry, "pinnacle_data_processed"), "data")
  }

  /** betbckOddsPayload of an entry. */
  function Payload(entry: JsValue): JsValue {
    PayloadOf(Member(entry, "betbck_data"))
  }

  /** A BetBCK response is present and its status is not "success". */
  predicate BetbckError(entry: JsValue) {
    var bf := Member(entry, "betbck_data");
    Truthy(bf) && Member(bf, "status") != JStr("success")
  }

  /** No Pinnacle event details, or details without periods. */
  predicate PinnacleMissingFor(entry: JsValue) {
    !Truthy(Details(entry)) || !Truthy(Member(Details(entry), "periods"))
  }

  function Periods(entry: JsValue): JsValue {
    Member(Details(entry), "periods")
  }

  datatype Outcome = BetbckFailed | PinnacleMissing | Rendered(rows: seq<Row>)

  /**
   * createTableForEvent: a failed BetBCK response ends the render before any
   * row; missing Pinnacle details or periods end it too; otherwise every
   * period's rows are rendered.
   */
  function TableFor(entry: JsValue, previous: map<string, JsValue>): (r: Outcome)
    ensures r.BetbckFailed? <==> BetbckError(entry)
    ensures r.PinnacleMissing? <==> !BetbckError(entry) && PinnacleMissingFor(entry)
  {
    if BetbckError(entry) && !Truthy(Payload(entry)) then BetbckFailed
    else if PinnacleMissingFor(entry) then PinnacleMissing
    else Rendered(EventRows(ContextFor(entry, Details(entry), Payload(entry), previous), Periods(entry)))
  }

  lemma TableRendered(entry: JsValue, previous: map<string, JsValue>)
    requires !(BetbckError(entry) && !Truthy(Payload(entry))) && !PinnacleMissingFor(entry)
    ensures TableFor(entry, previous) == Rendered(EventRows(ContextFor(entry, Details(entry), Payload(entry), previous), Periods(entry)))
  {
  }

  lemma MatchIsMatch()
    ensures IsMatch("Match")
  {
    var low := Lower("Match");
    assert low == "match";
    assert StartsWith(low, "match");
  }

  lemma FirstHalfIsNotMatch()
    ensures !IsMatch("1st Half")
  {
    var low := Lower("1st Half");
    assert low == "1st half";
    NotContains(low, "match");
  }

  /** Without BetBCK odds every row of the table shows "N/A" for BetBCK and no EV. */
  lemma NoPayloadTableHasNoEv(entry: JsValue, previous: map<string, JsValue>)
    requires TableFor(entry, previous).Rendered?
    requires !Truthy(PayloadOf(Member(entry, "betbck_data")))
    ensures forall row :: row in TableFor(entry, previous).rows ==> row.bck == NA && row.ev.None? && row.kind == Plain
  {
    var details := Details(entry);
    var ctx := ContextFor(entry, details, PayloadOf(Member(entry, "betbck_data")), previous);
    var periods := Member(details, "periods");
    NoPayloadNoEv(ctx, "Match", PeriodQuotes(ctx, "Match", Member(periods, "num_0")));
    NoPayloadNoEv(ctx, "1st Half", PeriodQuotes(ctx, "1st Half", Member(periods, "num_1")));
  }

  /**
   * With BetBCK odds the table holds only rows of the "Match" period, and each
   * of them shows a BetBCK price other than "N/A".
   */
  lemma PayloadTableShowsMatchOnly(entry: JsValue, previous: map<string, JsValue>)
    requires TableFor(entry, previous).Rendered?
    requires Truthy(PayloadOf(Member(entry, "betbck_data")))
    ensures var details := Details(entry);
      var ctx := ContextFor(entry, details, PayloadOf(Member(entry, "betbck_data")), previous);
      TableFor(entry, previous).rows ==
        RowsFor(ctx, "Match", PeriodQuotes(ctx, "Match", Member(Member(details, "periods"), "num_0")))
    ensures forall row :: row in TableFor(entry, previous).rows ==> !NotOffered(row.bck) && row.bck != NA
  {
    var details := Details(entry);
    var ctx := ContextFor(entry, details, PayloadOf(Member(entry, "betbck_data")), previous);
    var periods := Member(details, "periods");
    FirstHalfIsNotMatch();
    UnmatchedPeriodHidden(ctx, "1st Half", Member(periods, "num_1"));
    var rows := RowsFor(ctx, "Match", PeriodQuotes(ctx, "Match", Member(periods, "num_0")));
    assert rows + [] == rows;
    ShownRowsOffered(ctx, "Match", PeriodQuotes(ctx, "Match", Member(periods, "num_0")));
  }

  // ---------------------------------------------------------------- the page

  /** The table of one event, and the markets its rows record. */
  method RenderTable(entry: JsValue, previous: map<string, JsValue>) returns (out: Outcome, recorded: map<string, JsValue>)
    ensures out == TableFor(entry, previous)
    ensures out.Rendered? ==> recorded == Recorded(map[], out.rows)
  {
    recorded := map[];
    if BetbckError(entry) && !Truthy(Payload(entry)) {
      return BetbckFailed, recorded;
    }
    if PinnacleMissingFor(entry) {
      return PinnacleMissing, recorded;
    }
    var ctx := ContextFor(entry, Details(entry), Payload(entry), previous);
    var builder := new TableBuilder(ctx);
    builder.RenderPeriods(Periods(entry));
    TableRendered(entry, previous);
    out, recorded := Rendered(builder.rows), builder.snapshot;
  }

  /** previousDataSnapshot: the markets each displayed event recorded at its last render. */
  class View {
    var snapshots: map<string, map<string, JsValue>>

    constructor ()
      ensures snapshots == map[]
    {
      snapshots := map[];
    }

    /**
     * createTableForEvent: renders the event against the markets its previous
     * render recorded.  A failed BetBCK response resets them, missing Pinnacle
     * data leaves them as they were, and a rendered table replaces them.
     */
    method CreateTableForEvent(eventId: string, entry: JsValue) returns (out: Outcome)
      modifies this
      ensures out == TableFor(entry, PreviousMarkets(old(snapshots), eventId))
      ensures out.BetbckFailed? ==> snapshots == old(snapshots)[eventId := map[]]
      ensures out.PinnacleMissing? ==> snapshots == old(snapshots)
      ensures out.Rendered? ==> snapshots == old(snapshots)[eventId := Recorded(map[], out.rows)]
    {
      var recorded;
      out, recorded := RenderTable(entry, PreviousMarkets(snapshots, eventId));
      if out.BetbckFailed? {
        snapshots := snapshots[eventId := map[]];
      } else if out.Rendered? {
        snapshots := snapshots[eventId := recorded];
      }
    }

    /** An event that left the display loses its recorded markets. */
    method Forget(eventId: string)
      modifies this
      ensures snapshots == old(snapshots) - {eventId}
    {
      snapshots := snapshots - {eventId};
    }
  }

  // ---------------------------------------------------------------- top events

  /**
   * (alert_arrival_timestamp || 0) as a sort key: the subtraction converts the
   * timestamp with Number(), and a falsy one is 0 either way.  A timestamp that
   * converts to NaN ranks as 0.
   */
  function ArrivalKey(e: (string, JsValue)): (r: Ext)
    ensures r.Fin?
    ensures Member(e.1, "alert_arrival_timestamp").JNum? ==> r == Fin(Member(e.1, "alert_arrival_timestamp").x)
    ensures NumberOf(Member(e.1, "alert_arrival_timestamp")).Some? ==>
      r == Fin(NumberOf(Member(e.1, "alert_arrival_timestamp")).value)
    ensures NumberOf(Member(e.1, "alert_arrival_timestamp")).None? ==> r == Fin(0.0)
  {
    match NumberOf(Member(e.1, "alert_arrival_timestamp"))
    case Some(x) => Fin(x)
    case None => Fin(0.0)
  }

  /** Object.entries of the server's event map. */
  function Entries(all: JsValue): seq<(string, JsValue)> {
    if all.JObj? then all.fields else []
  }

  /** The events shown: the entries sorted by descending arrival time, at most five. */
  function EventsToDisplay(all: JsValue): (r: seq<(string, JsValue)>)
    ensures |r| == if |Entries(all)| < MaxEventsToDisplay then |Entries(all)| else MaxEventsToDisplay
    ensures Descending(r, ArrivalKey)
    ensures multiset(r) <= multiset(Entries(all))
  {
    var s := SortDesc(Entries(all), ArrivalKey);
    var k := if |s| < MaxEventsToDisplay then |s| else MaxEventsToDisplay;
    TopRanksFirst(Entries(all), ArrivalKey, k);
    s[..k]
  }

  /** Events with the same arrival key are shown in feed order: the first of them make the cut. */
  lemma ShownTiesInFeedOrder(all: JsValue, k: Ext)
    ensures WithKey(EventsToDisplay(all), ArrivalKey, k) <= WithKey(Entries(all), ArrivalKey, k)
  {
    var xs := Entries(all);
    var n := if |xs| < MaxEventsToDisplay then |xs| else MaxEventsToDisplay;
    assert EventsToDisplay(all) == SortDesc(xs, ArrivalKey)[..n];
    TopKeepsTieOrder(xs, ArrivalKey, n, k);
  }

  /** No event left out arrived later than one that is shown. */
  lemma OmittedArriveNoLater(all: JsValue, e: (string, JsValue))
    requires e in Entries(all) && e !in EventsToDisplay(all)
    ensures forall i :: 0 <= i < |EventsToDisplay(all)| ==> AtLeast(ArrivalKey(EventsToDisplay(all)[i]), ArrivalKey(e))
  {
    var xs := Entries(all);
    var s := SortDesc(xs, ArrivalKey);
    var k := if |s| < MaxEventsToDisplay then |s| else MaxEventsToDisplay;
    assert EventsToDisplay(all) == s[..k];
    LeftOutRanksLower(xs, ArrivalKey, k, e);
  }
}
