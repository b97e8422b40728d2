/**
 * The card renderer of static/js/realtime.js: one card per event with a
 * markets table whose rows compare Pinnacle's no-vig price with BetBCK's,
 * the largest EV of the card (maxEv), the ordering of the cards by that EV,
 * and the "time since" text of the alert.
 *
 * Numbers here are JavaScript numbers: NaN, or an extended real, because a
 * price of 0 turns into Infinity inside renderRow.
 */
module CardsView {
  import opened Wrappers
  import opened Numerals
  import opened JsValues
  import opened Ranking
  import RealtimeView
  import MainLogic

  const PositiveEvThreshold: real := 0.0001
  const NA: JsValue := JStr("N/A")
  /** The largest magnitude of a Date's time value, in milliseconds. */
  const MaxTimeValue: real := 8640000000000000.0

  // ---------------------------------------------------------------- numbers

  /** A JavaScript number: NaN or a value on the extended real line. */
  datatype JsNum = NaN | Val(e: Ext)

  /** Truthiness of a number: false for NaN and for zero. */
  predicate NumTruthy(n: JsNum) {
    n.Val? && n.e != Fin(0.0)
  }

  /** n > c for a finite c; every comparison with NaN is false. */
  predicate Exceeds(n: JsNum, c: real) {
    n.Val? && (n.e.PosInf? || (n.e.Fin? && n.e.x > c))
  }

  /** A decimal price as renderRow computes one: above 1, or Infinity. */
  predicate DecimalPrice(e: Ext) {
    e.PosInf? || (e.Fin? && e.x > 1.0)
  }

  // ---------------------------------------------------------------- time since

  /** A count and the unit text that follows it. */
  datatype Elapsed = Elapsed(count: int, unit: string)

  /** Math.floor of a ratio of integers is their floor division. */
  lemma FloorOfRatio(s: int, n: int)
    requires n > 0
    ensures ((s as real) / (n as real)).Floor == s / n
  {
    var q, m := s / n, s % n;
    assert s == q * n + m && 0 <= m < n;
    var ratio := (s as real) / (n as real);
    assert ratio * (n as real) == s as real;
    assert (q as real) * (n as real) <= s as real < ((q + 1) as real) * (n as real);
    assert q as real <= ratio < (q + 1) as real;
  }

  /**
   * The text timeSince builds from whole seconds: the first unit, from years
   * down to minutes, whose ratio exceeds 1, else the seconds themselves.
   */
  function ElapsedOf(seconds: int): (r: Elapsed)
    ensures seconds > 31536000 ==> r == Elapsed(seconds / 31536000, " years ago")
    ensures 2592000 < seconds <= 31536000 ==> r == Elapsed(seconds / 2592000, " months ago")
    ensures 86400 < seconds <= 2592000 ==> r == Elapsed(seconds / 86400, " days ago")
    ensures 3600 < seconds <= 86400 ==> r == Elapsed(seconds / 3600, "h ago")
    ensures 60 < seconds <= 3600 ==> r == Elapsed(seconds / 60, "m ago")
    ensures seconds <= 60 ==> r == Elapsed(seconds, "s ago")
  {
    var s := seconds as real;
    if s / 31536000.0 > 1.0 then
      FloorOfRatio(seconds, 31536000);
      Elapsed((s / 31536000.0).Floor, " years ago")
    else if s / 2592000.0 > 1.0 then
      FloorOfRatio(seconds, 2592000);
      Elapsed((s / 2592000.0).Floor, " months ago")
    else if s / 86400.0 > 1.0 then
      FloorOfRatio(seconds, 86400);
      Elapsed((s / 86400.0).Floor, " days ago")
    else if s / 3600.0 > 1.0 then
      FloorOfRatio(seconds, 3600);
      Elapsed((s / 3600.0).Floor, "h ago")
    else if s / 60.0 > 1.0 then
      FloorOfRatio(seconds, 60);
      Elapsed((s / 60.0).Floor, "m ago")
    else Elapsed(seconds, "s ago")
  }

  /** Every count shown is at least 1 and stays below the next larger unit. */
  lemma ElapsedBounds(seconds: int)
    ensures var r := ElapsedOf(seconds);
      (r.unit == " years ago" ==> r.count >= 1) &&
      (r.unit == " months ago" ==> 1 <= r.count <= 12) &&
      (r.unit == " days ago" ==> 1 <= r.count <= 30) &&
      (r.unit == "h ago" ==> 1 <= r.count <= 24) &&
      (r.unit == "m ago" ==> 1 <= r.count <= 60) &&
      (r.unit == "s ago" ==> r.count <= 60)
  {
    var r := ElapsedOf(seconds);
    if seconds > 31536000 {
      assert r.count == seconds / 31536000;
    } else if seconds > 2592000 {
      assert seconds / 2592000 <= 31536000 / 2592000;
    } else if seconds > 86400 {
      assert seconds / 86400 <= 2592000 / 86400;
    } else if seconds > 3600 {
      assert seconds / 3600 <= 86400 / 3600;
    } else if seconds > 60 {
      assert seconds / 60 <= 3600 / 60;
    }
  }

  /** ToIntegerOrInfinity of a finite number: truncation toward zero. */
  function Trunc(t: real): (r: int)
    ensures t >= 0.0 ==> r >= 0 && r as real <= t < r as real + 1.0
    ensures t < 0.0 ==> r <= 0 && r as real - 1.0 < t <= r as real
  {
    if t >= 0.0 then t.Floor else -((-t).Floor)
  }

  /**
   * timeSince(timestamp) at the instant nowMs (milliseconds since the epoch):
   * "N/A" for a falsy timestamp, "NaNs ago" when no valid Date comes of it,
   * otherwise the text of the whole seconds elapsed, rounded down.
   */
  function TimeSince(ts: JsValue, nowMs: int): (r: string)
    ensures !Truthy(ts) ==> r == "N/A"
    ensures Truthy(ts) && NumberOf(ts).None? ==> r == "NaNs ago"
    ensures Truthy(ts) && ts.JNum? && -MaxTimeValue <= ts.x * 1000.0 <= MaxTimeValue ==>
      var e := ElapsedOf((nowMs - Trunc(ts.x * 1000.0)) / 1000);
      r == IntToString(e.count) + e.unit
  {
    if !Truthy(ts) then "N/A"
    else
      match NumberOf(ts)
      case None => "NaNs ago"
      case Some(x) =>
        var t := x * 1000.0;
        if t < -MaxTimeValue || t > MaxTimeValue then "NaNs ago"
        else
          var e := ElapsedOf((nowMs - Trunc(t)) / 1000);
          IntToString(e.count) + e.unit
  }

  /** An alert from less than 61 seconds ago, at a whole second, shows its age in seconds. */
  lemma RecentAlertInSeconds(ts: int, nowMs: int)
    requires ts != 0 && -8640000000000 <= ts <= 8640000000000
    requires 0 <= nowMs - ts * 1000 < 61000
    ensures TimeSince(JNum(ts as real), nowMs) == IntToString((nowMs - ts * 1000) / 1000) + "s ago"
  {
    var x := ts as real;
    assert Truthy(JNum(x)) && NumberOf(JNum(x)) == Some(x);
    assert x * 1000.0 == (ts * 1000) as real;
    assert -MaxTimeValue <= x * 1000.0 <= MaxTimeValue;
    assert Trunc(x * 1000.0) == ts * 1000;
    var secs := (nowMs - ts * 1000) / 1000;
    assert secs <= 60;
    assert ElapsedOf(secs) == Elapsed(secs, "s ago");
  }

  // ---------------------------------------------------------------- EV of a row

  /**
   * The decimal price of the card: p/100 + 1 for a positive figure p,
   * 100/|p| + 1 otherwise, so Infinity for zero and NaN when parseFloat fails.
   */
  function CardDecimal(v: JsValue): (r: JsNum)
    ensures r.NaN? <==> ParseFloat(v).None?
    ensures ParseFloat(v) == Some(0.0) ==> r == Val(PosInf)
    ensures ParseFloat(v).Some? && ParseFloat(v).value != 0.0 ==>
      r == Val(Fin(RealtimeView.DecimalOf(ParseFloat(v).value).value))
    ensures r.Val? ==> DecimalPrice(r.e)
  {
    match ParseFloat(v)
    case None => NaN
    case Some(p) =>
      if p > 0.0 then Val(Fin(p / 100.0 + 1.0))
      else if p == 0.0 then Val(PosInf)
      else Val(Fin(100.0 / -p + 1.0))
  }

  /** bckDec / pinNvpDec - 1 for two decimal prices. */
  function EvValue(b: Ext, n: Ext): (r: JsNum)
    requires DecimalPrice(b) && DecimalPrice(n)
    ensures r.NaN? <==> b.PosInf? && n.PosInf?
    ensures b.Fin? && n.Fin? ==> r.Val? && r.e.Fin? && (r.e.x + 1.0) * n.x == b.x
    ensures b.Fin? && n.PosInf? ==> r == Val(Fin(-1.0))
    ensures b.PosInf? && n.Fin? ==> r == Val(PosInf)
    ensures r.Val? ==> AtLeast(r.e, Fin(-1.0))
  {
    match (b, n)
    case (Fin(x), Fin(y)) =>
      var e := x / y - 1.0;
      assert (e + 1.0) * y == x;
      Val(Fin(e))
    case (Fin(_), PosInf) => Val(Fin(-1.0))
    case (PosInf, Fin(_)) => Val(PosInf)
    case (PosInf, PosInf) => NaN
  }

  /** Both cells of the row show a price: neither pinNvpAm || 'N/A' nor bckOddsAm || 'N/A' is "N/A". */
  predicate Priced(nvp: JsValue, bck: JsValue) {
    RealtimeView.OrElse(nvp, NA) != NA && RealtimeView.OrElse(bck, NA) != NA
  }

  /**
   * The EV renderRow computes, or None when it leaves the cell at "N/A":
   * both cells priced, both figures parse and the no-vig decimal exceeds 1.0001.
   * A figure of 0 on both sides gives NaN.
   */
  function CardEv(nvp: JsValue, bck: JsValue): (r: Option<JsNum>)
    ensures r.Some? <==>
      Priced(nvp, bck) && ParseFloat(nvp).Some? && ParseFloat(bck).Some? && Exceeds(CardDecimal(nvp), 1.0001)
    ensures r == Some(NaN) <==> r.Some? && ParseFloat(nvp) == Some(0.0) && ParseFloat(bck) == Some(0.0)
    ensures r.Some? && r.value.Val? ==> AtLeast(r.value.e, Fin(-1.0))
  {
    var nvpShown := RealtimeView.OrElse(nvp, NA);
    var bckShown := RealtimeView.OrElse(bck, NA);
    if nvpShown == NA || bckShown == NA then None
    else
      var n := CardDecimal(nvpShown);
      var b := CardDecimal(bck);
      if NumTruthy(n) && NumTruthy(b) && Exceeds(n, 1.0001) then Some(EvValue(b.e, n.e))
      else None
  }

  /** For two nonzero figures the card's EV is calculate_ev of their decimal prices. */
  lemma CardEvAgreesWithServer(nvp: JsValue, bck: JsValue)
    requires Priced(nvp, bck)
    requires ParseFloat(nvp).Some? && ParseFloat(nvp).value != 0.0
    requires ParseFloat(bck).Some? && ParseFloat(bck).value != 0.0
    ensures var c := MainLogic.CalculateEv(RealtimeView.DecimalOf(ParseFloat(bck).value),
                                           RealtimeView.DecimalOf(ParseFloat(nvp).value));
      CardEv(nvp, bck) == if c.Some? then Some(Val(Fin(c.value))) else None
  {
    var n := RealtimeView.DecimalOf(ParseFloat(nvp).value).value;
    var b := RealtimeView.DecimalOf(ParseFloat(bck).value).value;
    var c := MainLogic.CalculateEv(Some(b), Some(n));
    assert c.Some? <==> n > 1.0001;
    if c.Some? {
      var e := CardEv(nvp, bck).value.e.x;
      assert (e + 1.0) * n == (c.value + 1.0) * n;
    }
  }

  datatype CardClass = Unclassed | PositiveEv | NegativeEv

  /** The row class: none without an EV, positive above the threshold, negative otherwise (NaN included). */
  function ClassOf(ev: Option<JsNum>): (r: CardClass)
    ensures r == Unclassed <==> ev.None?
    ensures r == PositiveEv <==> ev.Some? && Exceeds(ev.value, PositiveEvThreshold)
    ensures r == NegativeEv <==> ev.Some? && !Exceeds(ev.value, PositiveEvThreshold)
  {
    match ev
    case None => Unclassed
    case Some(e) => if Exceeds(e, PositiveEvThreshold) then PositiveEv else NegativeEv
  }

  /**
   * Against the table of static/realtime.js, on a finite EV: the same positive
   * rows, and the table's neutral rows are negative on the card.
   */
  lemma ClassAgreesWithTable(e: real)
    ensures ClassOf(Some(Val(Fin(e)))) == PositiveEv <==> RealtimeView.Classify(Some(e)) == RealtimeView.PositiveEv
    ensures ClassOf(Some(Val(Fin(e)))) == NegativeEv <==>
      RealtimeView.Classify(Some(e)) in {RealtimeView.NegativeEv, RealtimeView.Plain}
  {
  }

  // ---------------------------------------------------------------- rows

  /** The arguments of one renderRow call. */
  datatype CardQuote = CardQuote(market: string, selection: JsValue, line: JsValue, nvp: JsValue, bck: JsValue)

  /** What one row shows: market, selection, line, the two prices, the EV and the class. */
  datatype CardRow = CardRow(market: string, selection: JsValue, line: string, nvp: JsValue, bck: JsValue,
                             ev: Option<JsNum>, kind: CardClass)

  /** renderRow: the cells of the row and its class. */
  function CardRowFor(q: CardQuote): CardRow {
    var ev := CardEv(q.nvp, q.bck);
    CardRow(q.market, q.selection, if Truthy(q.line) then Str(q.line) else "",
            RealtimeView.OrElse(q.nvp, NA), RealtimeView.OrElse(q.bck, NA), ev, ClassOf(ev))
  }

  function CardRowsFor(qs: seq<CardQuote>): (r: seq<CardRow>)
    ensures |r| == |qs| && forall i :: 0 <= i < |qs| ==> r[i] == CardRowFor(qs[i])
  {
    seq(|qs|, i requires 0 <= i < |qs| => CardRowFor(qs[i]))
  }

  lemma CardRowsAppend(a: seq<CardQuote>, b: seq<CardQuote>)
    ensures CardRowsFor(a + b) == CardRowsFor(a) + CardRowsFor(b)
  {
  }

  /** One more quote of a run adds its row at the end. */
  lemma CardRowsStep(base: seq<CardRow>, qs: seq<CardQuote>, i: nat)
    requires i < |qs|
    ensures base + CardRowsFor(qs[..i + 1]) == base + CardRowsFor(qs[..i]) + [CardRowFor(qs[i])]
  {
    assert qs[..i + 1] == qs[..i] + [qs[i]];
    CardRowsAppend(qs[..i], [qs[i]]);
  }

  /** What the rows of a card read from the card's scope. */
  datatype CardContext = CardContext(home: JsValue, away: JsValue, payload: JsValue)

  /** No call carries a BetBCK price, so no row gets an EV. */
  predicate Unpriced(qs: seq<CardQuote>) {
    forall i :: 0 <= i < |qs| ==> qs[i].bck == JUndefined
  }

  lemma UnpricedJoin(a: seq<CardQuote>, b: seq<CardQuote>)
    ensures Unpriced(a) && Unpriced(b) ==> Unpriced(a + b)
  {
    assert forall i :: 0 <= i < |a + b| ==> (a + b)[i] == if i < |a| then a[i] else b[i - |a|];
  }

  /** An unpriced row has no EV and no class. */
  lemma UnpricedRowsHaveNoEv(qs: seq<CardQuote>)
    requires Unpriced(qs)
    ensures forall i :: 0 <= i < |qs| ==> CardRowsFor(qs)[i].ev.None? && CardRowsFor(qs)[i].kind == Unclassed
  {
    forall i | 0 <= i < |qs|
      ensures CardRowsFor(qs)[i].ev.None?
    {
      assert RealtimeView.OrElse(qs[i].bck, NA) == NA;
    }
  }

  /** The money-line calls: home, away and, when nvp_american_draw is truthy, the draw; paired in every period. */
  function MoneylineQuotes(c: CardContext, ml: JsValue): (r: seq<CardQuote>)
    ensures !Truthy(ml) ==> r == []
    ensures Truthy(ml) ==> |r| == if Truthy(Member(ml, "nvp_american_draw")) then 3 else 2
    ensures |r| >= 2 ==> r[0].selection == c.home && r[0].bck == Member(c.payload, "home_moneyline_american")
    ensures |r| >= 2 ==> r[1].selection == c.away && r[1].bck == Member(c.payload, "away_moneyline_american")
    ensures |r| == 3 ==> r[2].selection == JStr("Draw") && r[2].bck == Member(c.payload, "draw_moneyline_american")
    ensures forall i :: 0 <= i < |r| ==> r[i].market == "Moneyline" && r[i].line == JStr("")
    ensures !c.payload.JObj? ==> Unpriced(r)
  {
    if !Truthy(ml) then []
    else
      var home := CardQuote("Moneyline", c.home, JStr(""), Member(ml, "nvp_american_home"),
                            Member(c.payload, "home_moneyline_american"));
      var away := CardQuote("Moneyline", c.away, JStr(""), Member(ml, "nvp_american_away"),
                            Member(c.payload, "away_moneyline_american"));
      var draw := Member(ml, "nvp_american_draw");
      if Truthy(draw) then
        [home, away, CardQuote("Moneyline", JStr("Draw"), JStr(""), draw, Member(c.payload, "draw_moneyline_american"))]
      else [home, away]
  }

  /**
   * The away line the cards write: "+" and String(-hdp) when -hdp > 0,
   * String(-hdp) otherwise.  It has no separate case for zero, yet agrees
   * with the table's away line on every handicap.
   */
  function CardAwayLine(hdp: JsValue): (r: string)
    ensures r == RealtimeView.AwayLineOf(hdp)
  {
    match NumberOf(hdp)
    case None => "NaN"
    case Some(x) =>
      var a := -x;
      assert a == 0.0 ==> JsNumberString(a) == "0" by {
        assert Hundredths(0.0) == 0;
      }
      if a > 0.0 then "+" + JsNumberString(a) else JsNumberString(a)
  }

  /** The two calls of one spread, each paired with the first BetBCK spread whose line is the same string. */
  function SpreadEntryQuotes(c: CardContext, s: JsValue): (r: seq<CardQuote>)
    ensures |r| == 2 && r[0].market == "Spread" && r[1].market == "Spread"
    ensures r[0].selection == c.home && r[1].selection == c.away
    ensures r[0].line == JStr(RealtimeView.HomeLineOf(Member(s, "hdp"))) && r[1].line == JStr(CardAwayLine(Member(s, "hdp")))
    ensures r[0].bck == RealtimeView.FirstOdds(Member(c.payload, "home_spreads"), RealtimeView.HomeLineOf(Member(s, "hdp")))
    ensures r[1].bck == RealtimeView.FirstOdds(Member(c.payload, "away_spreads"), CardAwayLine(Member(s, "hdp")))
    ensures !c.payload.JObj? ==> Unpriced(r)
  {
    var hdp := Member(s, "hdp");
    var homeLine := RealtimeView.HomeLineOf(hdp);
    var awayLine := CardAwayLine(hdp);
    [CardQuote("Spread", c.home, JStr(homeLine), Member(s, "nvp_american_home"),
               RealtimeView.FirstOdds(Member(c.payload, "home_spreads"), homeLine)),
     CardQuote("Spread", c.away, JStr(awayLine), Member(s, "nvp_american_away"),
               RealtimeView.FirstOdds(Member(c.payload, "away_spreads"), awayLine))]
  }

  /** The card and the table write a numeric handicap's lines alike. */
  lemma SpreadLinesAgreeWithTable(c: CardContext, s: JsValue)
    requires Member(s, "hdp").JNum?
    ensures SpreadEntryQuotes(c, s)[0].line == JStr(RealtimeView.HomeLine(Member(s, "hdp").x))
    ensures SpreadEntryQuotes(c, s)[1].line == JStr(RealtimeView.AwayLine(Member(s, "hdp").x))
  {
  }

  /** BetBCK's total is the same line when the two lines read alike as strings. */
  predicate TotalPaired(c: CardContext, points: JsValue) {
    Truthy(c.payload) && Str(Member(c.payload, "game_total_line")) == Str(points)
  }

  /** The over and under calls of one total: BetBCK odds only when its game total line matches. */
  function TotalEntryQuotes(c: CardContext, t: JsValue): (r: seq<CardQuote>)
    ensures |r| == 2 && r[0].market == "Total" && r[1].market == "Total"
    ensures r[0].selection == JStr("Over") && r[1].selection == JStr("Under")
    ensures r[0].line == Member(t, "points") && r[1].line == Member(t, "points")
    ensures TotalPaired(c, Member(t, "points")) ==>
      r[0].bck == Member(c.payload, "game_total_over_odds") && r[1].bck == Member(c.payload, "game_total_under_odds")
    ensures !TotalPaired(c, Member(t, "points")) ==> Unpriced(r)
    ensures !c.payload.JObj? ==> Unpriced(r)
  {
    var line := Member(t, "points");
    var paired := TotalPaired(c, line);
    var over := if paired then Member(c.payload, "game_total_over_odds") else JUndefined;
    var under := if paired then Member(c.payload, "game_total_under_odds") else JUndefined;
    [CardQuote("Total", JStr("Over"), line, Member(t, "nvp_american_over"), over),
     CardQuote("Total", JStr("Under"), line, Member(t, "nvp_american_under"), under)]
  }

  function SpreadQuotes(c: CardContext, spreads: seq<JsValue>): (r: seq<CardQuote>)
    ensures |r| == 2 * |spreads|
    ensures !c.payload.JObj? ==> Unpriced(r)
  {
    if spreads == [] then []
    else
      var init := spreads[..|spreads| - 1];
      UnpricedJoin(SpreadQuotes(c, init), SpreadEntryQuotes(c, spreads[|spreads| - 1]));
      SpreadQuotes(c, init) + SpreadEntryQuotes(c, spreads[|spreads| - 1])
  }

  function TotalQuotes(c: CardContext, totals: seq<JsValue>): (r: seq<CardQuote>)
    ensures |r| == 2 * |totals|
    ensures !c.payload.JObj? ==> Unpriced(r)
  {
    if totals == [] then []
    else
      var init := totals[..|totals| - 1];
      UnpricedJoin(TotalQuotes(c, init), TotalEntryQuotes(c, totals[|totals| - 1]));
      TotalQuotes(c, init) + TotalEntryQuotes(c, totals[|totals| - 1])
  }

  /** Object.values of a market list when it is truthy; nothing otherwise. */
  function Listing(pd: JsValue, name: string): (r: seq<JsValue>)
    ensures !Truthy(Member(pd, name)) ==> r == []
  {
    if Truthy(Member(pd, name)) then ValuesOf(Member(pd, name)) else []
  }

  /** appendMarketRows: nothing for a falsy period, else money line, spreads and totals in that order. */
  function PeriodQuotes(c: CardContext, pd: JsValue): (r: seq<CardQuote>)
    ensures !Truthy(pd) ==> r == []
    ensures Truthy(pd) ==> r == MoneylineQuotes(c, Member(pd, "money_line")) +
                             SpreadQuotes(c, Listing(pd, "spreads")) + TotalQuotes(c, Listing(pd, "totals"))
    ensures !c.payload.JObj? ==> Unpriced(r)
  {
    if !Truthy(pd) then []
    else
      var ml := MoneylineQuotes(c, Member(pd, "money_line"));
      var sp := SpreadQuotes(c, Listing(pd, "spreads"));
      var tt := TotalQuotes(c, Listing(pd, "totals"));
      UnpricedJoin(ml, sp);
      UnpricedJoin(ml + sp, tt);
      ml + sp + tt
  }

  // ---------------------------------------------------------------- maxEv

  /** Math.max: NaN when either is NaN, otherwise the larger. */
  function JsMax(a: JsNum, b: JsNum): (r: JsNum)
    ensures r.NaN? <==> a.NaN? || b.NaN?
    ensures r.Val? ==> AtLeast(r.e, a.e) && AtLeast(r.e, b.e) && (r.e == a.e || r.e == b.e)
  {
    if a.NaN? || b.NaN? then NaN
    else
      AtLeastTotal(a.e, b.e);
      Val(if AtLeast(a.e, b.e) then a.e else b.e)
  }

  /** maxEv after a run of rows: -Infinity, then Math.max with every EV computed. */
  function MaxEvOf(rows: seq<CardRow>): JsNum {
    if rows == [] then Val(NegInf)
    else
      var m := MaxEvOf(rows[..|rows| - 1]);
      match rows[|rows| - 1].ev
      case None => m
      case Some(e) => JsMax(m, e)
  }

  lemma MaxEvStep(rows: seq<CardRow>, row: CardRow)
    ensures MaxEvOf(rows + [row]) == if row.ev.Some? then JsMax(MaxEvOf(rows), row.ev.value) else MaxEvOf(rows)
  {
    assert (rows + [row])[..|rows|] == rows;
  }

  /** No EV is computed on any row. */
  predicate NoEv(rows: seq<CardRow>) {
    forall i :: 0 <= i < |rows| ==> rows[i].ev.None?
  }

  /** Every computed EV is a number of at least -1. */
  predicate EvsAtLeastMinusOne(rows: seq<CardRow>) {
    forall i :: 0 <= i < |rows| ==> rows[i].ev.Some? ==> rows[i].ev.value.NaN? || AtLeast(rows[i].ev.value.e, Fin(-1.0))
  }

  /** A NaN EV anywhere makes maxEv NaN. */
  lemma {:induction false} MaxEvNaNAbsorbs(rows: seq<CardRow>, k: nat)
    requires k < |rows| && rows[k].ev == Some(NaN)
    ensures MaxEvOf(rows).NaN?
  {
    var init := rows[..|rows| - 1];
    if k < |rows| - 1 {
      assert init[k] == rows[k];
      MaxEvNaNAbsorbs(init, k);
    }
  }

  /**
   * Without a NaN EV, maxEv is the largest EV of the rows: at least every one,
   * equal to one of them, and -Infinity exactly when none is computed.
   */
  lemma {:induction false} MaxEvIsMaximum(rows: seq<CardRow>)
    requires EvsAtLeastMinusOne(rows)
    requires forall i :: 0 <= i < |rows| ==> rows[i].ev != Some(NaN)
    ensures MaxEvOf(rows).Val?
    ensures forall i :: 0 <= i < |rows| && rows[i].ev.Some? ==> AtLeast(MaxEvOf(rows).e, rows[i].ev.value.e)
    ensures MaxEvOf(rows).e.NegInf? || exists i :: 0 <= i < |rows| && rows[i].ev == Some(MaxEvOf(rows))
    ensures MaxEvOf(rows).e.NegInf? <==> NoEv(rows)
  {
    if rows != [] {
      var init := rows[..|rows| - 1];
      var last := rows[|rows| - 1];
      assert forall i :: 0 <= i < |init| ==> init[i] == rows[i];
      MaxEvIsMaximum(init);
      var m := MaxEvOf(init);
      var r := MaxEvOf(rows);
      if last.ev.Some? {
        forall i | 0 <= i < |rows| && rows[i].ev.Some?
          ensures AtLeast(r.e, rows[i].ev.value.e)
        {
          if i < |init| {
            AtLeastTransitive(r.e, m.e, rows[i].ev.value.e);
          }
        }
        if r.e == last.ev.value.e {
          assert rows[|rows| - 1].ev == Some(r);
        } else {
          assert r == m;
          if !m.e.NegInf? {
            var j :| 0 <= j < |init| && init[j].ev == Some(m);
            assert rows[j].ev == Some(r);
          }
        }
        assert !r.e.NegInf?;
        assert !NoEv(rows);
      } else {
        if !m.e.NegInf? {
          var j :| 0 <= j < |init| && init[j].ev == Some(m);
          assert rows[j].ev == Some(r);
        }
        assert NoEv(rows) <==> NoEv(init);
      }
    }
  }

  /** Rows that renderRow builds never carry an EV below -1. */
  lemma CardRowsAtLeastMinusOne(qs: seq<CardQuote>)
    ensures EvsAtLeastMinusOne(CardRowsFor(qs))
  {
  }

  lemma SpreadStep(c: CardContext, spreads: seq<JsValue>, i: nat)
    requires i < |spreads|
    ensures CardRowsFor(SpreadQuotes(c, spreads[..i + 1])) ==
      CardRowsFor(SpreadQuotes(c, spreads[..i])) + CardRowsFor(SpreadEntryQuotes(c, spreads[i]))
  {
    assert spreads[..i + 1][..i] == spreads[..i];
    CardRowsAppend(SpreadQuotes(c, spreads[..i]), SpreadEntryQuotes(c, spreads[i]));
  }

  lemma TotalStep(c: CardContext, totals: seq<JsValue>, i: nat)
    requires i < |totals|
    ensures CardRowsFor(TotalQuotes(c, totals[..i + 1])) ==
      CardRowsFor(TotalQuotes(c, totals[..i])) + CardRowsFor(TotalEntryQuotes(c, totals[i]))
  {
    assert totals[..i + 1][..i] == totals[..i];
    CardRowsAppend(TotalQuotes(c, totals[..i]), TotalEntryQuotes(c, totals[i]));
  }

  lemma CardRowsAssoc(a: seq<CardRow>, b: seq<CardRow>, c: seq<CardRow>)
    ensures a + b + c == a + (b + c)
  {
  }

  class CardBuilder {
    const ctx: CardContext
    var rows: seq<CardRow>
    var maxEv: JsNum

    constructor (ctx: CardContext)
      ensures this.ctx == ctx && rows == [] && maxEv == Val(NegInf)
    {
      this.ctx := ctx;
      rows := [];
      maxEv := Val(NegInf);
    }

    /** renderRow: appends the row and folds its EV, when computed, into maxEv. */
    method RenderRow(q: CardQuote)
      requires maxEv == MaxEvOf(rows)
      modifies this
      ensures rows == old(rows) + [CardRowFor(q)]
      ensures maxEv == MaxEvOf(rows)
    {
      var nvpShown := RealtimeView.OrElse(q.nvp, NA);
      var bckShown := RealtimeView.OrElse(q.bck, NA);
      var ev: Option<JsNum> := None;
      if nvpShown != NA && bckShown != NA {
        var nvpDec := CardDecimal(nvpShown);
        var bckDec := CardDecimal(q.bck);
        if NumTruthy(nvpDec) && NumTruthy(bckDec) && Exceeds(nvpDec, 1.0001) {
          var value := EvValue(bckDec.e, nvpDec.e);
          maxEv := JsMax(maxEv, value);
          ev := Some(value);
        }
      }
      var row := CardRow(q.market, q.selection, if Truthy(q.line) then Str(q.line) else "",
                         nvpShown, bckShown, ev, ClassOf(ev));
      assert row == CardRowFor(q);
      MaxEvStep(rows, row);
      rows := rows + [row];
    }

    /** A run of renderRow calls. */
    method RenderAll(qs: seq<CardQuote>)
      requires maxEv == MaxEvOf(rows)
      modifies this
      ensures rows == old(rows) + CardRowsFor(qs)
      ensures maxEv == MaxEvOf(rows)
    {
      var i := 0;
      while i < |qs|
        invariant 0 <= i <= |qs|
        invariant rows == old(rows) + CardRowsFor(qs[..i])
        invariant maxEv == MaxEvOf(rows)
      {
        CardRowsStep(old(rows), qs, i);
        RenderRow(qs[i]);
        i := i + 1;
      }
      assert qs[..i] == qs;
    }

    /** Object.values(spreads).forEach: the two rows of every spread, in order. */
    method AppendSpreads(spreads: seq<JsValue>)
      requires maxEv == MaxEvOf(rows)
      modifies this
      ensures rows == old(rows) + CardRowsFor(SpreadQuotes(ctx, spreads))
      ensures maxEv == MaxEvOf(rows)
    {
      var i := 0;
      while i < |spreads|
        invariant 0 <= i <= |spreads|
        invariant rows == old(rows) + CardRowsFor(SpreadQuotes(ctx, spreads[..i]))
        invariant maxEv == MaxEvOf(rows)
      {
        ghost var done := CardRowsFor(SpreadQuotes(ctx, spreads[..i]));
        ghost var added := CardRowsFor(SpreadEntryQuotes(ctx, spreads[i]));
        SpreadStep(ctx, spreads, i);
        RenderAll(SpreadEntryQuotes(ctx, spreads[i]));
        CardRowsAssoc(old(rows), done, added);
        i := i + 1;
      }
      assert spreads[..i] == spreads;
    }

    /** Object.values(totals).forEach: the over and under rows of every total, in order. */
    method AppendTotals(totals: seq<JsValue>)
      requires maxEv == MaxEvOf(rows)
      modifies this
      ensures rows == old(rows) + CardRowsFor(TotalQuotes(ctx, totals))
      ensures maxEv == MaxEvOf(rows)
    {
      var i := 0;
      while i < |totals|
        invariant 0 <= i <= |totals|
        invariant rows == old(rows) + CardRowsFor(TotalQuotes(ctx, totals[..i]))
        invariant maxEv == MaxEvOf(rows)
      {
        ghost var done := CardRowsFor(TotalQuotes(ctx, totals[..i]));
        ghost var added := CardRowsFor(TotalEntryQuotes(ctx, totals[i]));
        TotalStep(ctx, totals, i);
        RenderAll(TotalEntryQuotes(ctx, totals[i]));
        CardRowsAssoc(old(rows), done, added);
        i := i + 1;
      }
      assert totals[..i] == totals;
    }

    /** appendMarketRows for one period. */
    method AppendMarketRows(pd: JsValue)
      requires maxEv == MaxEvOf(rows)
      modifies this
      ensures rows == old(rows) + CardRowsFor(PeriodQuotes(ctx, pd))
      ensures maxEv == MaxEvOf(rows)
    {
      if !Truthy(pd) {
        return;
      }
      var ml := MoneylineQuotes(ctx, Member(pd, "money_line"));
      ghost var sp := SpreadQuotes(ctx, Listing(pd, "spreads"));
      ghost var tt := TotalQuotes(ctx, Listing(pd, "totals"));
      ghost var a, b, c := CardRowsFor(ml), CardRowsFor(sp), CardRowsFor(tt);
      RenderAll(ml);
      if Truthy(Member(pd, "spreads")) {
        AppendSpreads(ValuesOf(Member(pd, "spreads")));
      }
      assert rows == old(rows) + a + b;
      if Truthy(Member(pd, "totals")) {
        AppendTotals(ValuesOf(Member(pd, "totals")));
      }
      assert rows == old(rows) + a + b + c;
      CardRowsAppend(ml, sp);
      CardRowsAppend(ml + sp, tt);
      CardRowsAssoc(old(rows), a, b);
      CardRowsAssoc(old(rows), a + b, c);
    }
  }

  // ---------------------------------------------------------------- one card

  /** The scope of createOrUpdateEventCard: team names, with fallbacks, and BetBCK's payload. */
  function ContextFor(entry: JsValue): (r: CardContext)
    ensures Truthy(r.payload) ==>
      Member(RealtimeView.OrElse(Member(entry, "betbck_data"), JObj([])), "status") == JStr("success")
  {
    var pinnacle := PinnacleOf(entry);
    var alert := RealtimeView.OrElse(Member(entry, "alert_trigger_details"), JObj([]));
    var betbck := RealtimeView.OrElse(Member(entry, "betbck_data"), JObj([]));
    var payload := if Member(betbck, "status") == JStr("success") then Member(betbck, "data") else JNull;
    CardContext(RealtimeView.OrElse(RealtimeView.OrElse(Member(pinnacle, "home"), Member(alert, "homeTeam")), NA),
                RealtimeView.OrElse(RealtimeView.OrElse(Member(pinnacle, "away"), Member(alert, "awayTeam")), NA),
                payload)
  }

  /** pinnacle_data_processed?.data || {}. */
  function PinnacleOf(entry: JsValue): JsValue {
    RealtimeView.OrElse(Member(Member(entry, "pinnacle_data_processed"), "data"), JObj([]))
  }

  /** The renderRow calls of a card: the full game, then the first half. */
  function CardQuotes(entry: JsValue): seq<CardQuote> {
    var c := ContextFor(entry);
    var periods := Member(PinnacleOf(entry), "periods");
    PeriodQuotes(c, Member(periods, "num_0")) + PeriodQuotes(c, Member(periods, "num_1"))
  }

  /** The rows of a card's markets table and the maxEv stored on the card. */
  datatype Card = Card(rows: seq<CardRow>, maxEv: JsNum)

  function CardFor(entry: JsValue): Card {
    var rows := CardRowsFor(CardQuotes(entry));
    Card(rows, MaxEvOf(rows))
  }

  /** The markets table of createOrUpdateEventCard, built by renderRow calls. */
  method BuildCard(entry: JsValue) returns (card: Card)
    ensures card == CardFor(entry)
  {
    var c := ContextFor(entry);
    var periods := Member(PinnacleOf(entry), "periods");
    ghost var first := PeriodQuotes(c, Member(periods, "num_0"));
    ghost var second := PeriodQuotes(c, Member(periods, "num_1"));
    var builder := new CardBuilder(c);
    builder.AppendMarketRows(Member(periods, "num_0"));
    assert builder.rows == CardRowsFor(first);
    builder.AppendMarketRows(Member(periods, "num_1"));
    assert builder.rows == CardRowsFor(first) + CardRowsFor(second);
    CardRowsAppend(first, second);
    card := Card(builder.rows, builder.maxEv);
  }

  /** A NaN EV on any row of a card makes its maxEv NaN. */
  lemma CardMaxEvNaN(entry: JsValue, k: nat)
    requires k < |CardFor(entry).rows| && CardFor(entry).rows[k].ev == Some(NaN)
    ensures CardFor(entry).maxEv.NaN?
  {
    MaxEvNaNAbsorbs(CardFor(entry).rows, k);
  }

  /**
   * Without a NaN EV a card's maxEv is the largest EV of its rows, and
   * -Infinity exactly when no row has one.
   */
  lemma CardMaxEvIsMaximum(entry: JsValue)
    requires forall i :: 0 <= i < |CardFor(entry).rows| ==> CardFor(entry).rows[i].ev != Some(NaN)
    ensures var card := CardFor(entry);
      card.maxEv.Val? &&
      (forall i :: 0 <= i < |card.rows| && card.rows[i].ev.Some? ==> AtLeast(card.maxEv.e, card.rows[i].ev.value.e)) &&
      (card.maxEv.e.NegInf? <==> NoEv(card.rows)) &&
      (card.maxEv.e.NegInf? || exists i :: 0 <= i < |card.rows| && card.rows[i].ev == Some(card.maxEv))
  {
    CardRowsAtLeastMinusOne(CardQuotes(entry));
    MaxEvIsMaximum(CardFor(entry).rows);
  }

  /** Without a BetBCK payload object no row has an EV and maxEv stays -Infinity. */
  lemma NoPayloadCardHasNoEv(entry: JsValue)
    requires !ContextFor(entry).payload.JObj?
    ensures NoEv(CardFor(entry).rows) && CardFor(entry).maxEv == Val(NegInf)
  {
    var c := ContextFor(entry);
    var periods := Member(PinnacleOf(entry), "periods");
    UnpricedJoin(PeriodQuotes(c, Member(periods, "num_0")), PeriodQuotes(c, Member(periods, "num_1")));
    UnpricedRowsHaveNoEv(CardQuotes(entry));
    CardRowsAtLeastMinusOne(CardQuotes(entry));
    MaxEvIsMaximum(CardFor(entry).rows);
  }

  // ---------------------------------------------------------------- ordering

  /** parseFloat(card.dataset.maxEv) || -Infinity: NaN and zero rank as -Infinity. */
  function SortKey(m: JsNum): (r: Ext)
    ensures m.NaN? || m == Val(Fin(0.0)) ==> r == NegInf
    ensures m.Val? && m.e != Fin(0.0) ==> r == m.e
  {
    if NumTruthy(m) then m.e else NegInf
  }

  /** A card in the display area, with the maxEv stored on it. */
  datatype Placed = Placed(id: string, maxEv: JsNum, dismissed: bool)

  function Rank(p: Placed): Ext {
    SortKey(p.maxEv)
  }

  /** The cards sortCardsByEv selects: those not dismissed, in document order. */
  function Active(cs: seq<Placed>): (r: seq<Placed>)
    ensures forall p :: p in r <==> p in cs && !p.dismissed
  {
    if cs == [] then []
    else Active(cs[..|cs| - 1]) + (if cs[|cs| - 1].dismissed then [] else [cs[|cs| - 1]])
  }

  /** The dismissed cards, in document order. */
  function Dismissed(cs: seq<Placed>): (r: seq<Placed>)
    ensures forall p :: p in r <==> p in cs && p.dismissed
  {
    if cs == [] then []
    else Dismissed(cs[..|cs| - 1]) + (if cs[|cs| - 1].dismissed then [cs[|cs| - 1]] else [])
  }

  /** Splitting the cards into dismissed and active ones loses and duplicates nothing. */
  lemma {:induction false} SplitKeepsCards(cs: seq<Placed>)
    ensures multiset(Dismissed(cs)) + multiset(Active(cs)) == multiset(cs)
  {
    if cs != [] {
      var init := cs[..|cs| - 1];
      SplitKeepsCards(init);
      assert cs == init + [cs[|cs| - 1]];
    }
  }

  /** cards.sort((a, b) => evB - evA): descending by rank, a permutation of the active cards. */
  function SortCards(cs: seq<Placed>): (r: seq<Placed>)
    ensures multiset(r) == multiset(cs)
    ensures Descending(r, Rank)
  {
    SortDesc(cs, Rank)
  }

  /** Cards with the same rank stay in the order they had: the sort is stable. */
  lemma SortCardsStable(cs: seq<Placed>, k: Ext)
    ensures WithKey(SortCards(cs), Rank, k) == WithKey(cs, Rank, k)
  {
    SortDescStable(cs, Rank, k);
  }

  /** Cards without a usable maxEv come after every card with one. */
  lemma UnrankedCardsLast(cs: seq<Placed>)
    ensures var s := SortCards(cs);
      forall i, j :: 0 <= i < j < |s| && Rank(s[i]).NegInf? ==> Rank(s[j]).NegInf?
  {
    var s := SortCards(cs);
    forall i, j | 0 <= i < j < |s| && Rank(s[i]).NegInf?
      ensures Rank(s[j]).NegInf?
    {
      assert AtLeast(Rank(s[i]), Rank(s[j]));
    }
  }

  /** The order sortCardsByEv leaves the cards in is a permutation of them. */
  lemma RearrangedKeepsCards(cs: seq<Placed>)
    ensures multiset(Dismissed(cs) + SortCards(Active(cs))) == multiset(cs)
  {
    SplitKeepsCards(cs);
  }

  lemma PlacedAssoc(a: seq<Placed>, b: seq<Placed>, c: seq<Placed>)
    ensures a + b + c == a + (b + c)
  {
  }

  /** The children of oddsDisplayArea. */
  class CardArea {
    var cards: seq<Placed>

    constructor ()
      ensures cards == []
    {
      cards := [];
    }

    /** appendChild of each card in turn: each moves to the end. */
    method AppendEach(xs: seq<Placed>)
      modifies this
      ensures cards == old(cards) + xs
    {
      var i := 0;
      while i < |xs|
        invariant 0 <= i <= |xs|
        invariant cards == old(cards) + xs[..i]
      {
        assert xs[..i + 1] == xs[..i] + [xs[i]];
        PlacedAssoc(old(cards), xs[..i], [xs[i]]);
        cards := cards + [xs[i]];
        i := i + 1;
      }
      assert xs[..i] == xs;
    }

    /**
     * sortCardsByEv: the active cards are sorted and appended again in that
     * order, so the dismissed ones end up in front, in their order.
     */
    method SortByEv()
      modifies this
      ensures cards == Dismissed(old(cards)) + SortCards(Active(old(cards)))
    {
      var sorted := SortCards(Active(cards));
      cards := Dismissed(cards);
      AppendEach(sorted);
    }
  }
}
