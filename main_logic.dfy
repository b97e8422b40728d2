/**
 * The alert-processing logic (main_logic.py): American odds to decimal odds, the
 * expected value of a bet, the BetBCK search term derived from a POD alert, and the
 * pairing of the scraped BetBCK markets with Pinnacle's no-vig prices.
 */
module MainLogic {
  import opened Text
  import opened Numerals
  import opened Wrappers
  import opened Values
  import TeamNames

  // ---------------------------------------------------------------------------
  // american_to_decimal and calculate_ev
  // ---------------------------------------------------------------------------

  /** Decimal odds of a numeric American price; zero has none. */
  function DecimalOfAmerican(a: real): (r: Option<real>)
    ensures r.None? <==> a == 0.0
    ensures a > 0.0 ==> r == Some(a / 100.0 + 1.0)
    ensures a < 0.0 ==> r == Some(100.0 / -a + 1.0)
    ensures r.Some? ==> r.value > 1.0
  {
    if a == 0.0 then None
    else if a > 0.0 then Some(a / 100.0 + 1.0)
    else Some(100.0 / Abs(a) + 1.0)
  }

  /**
   * american_to_decimal: numbers are read directly, text through float() after "PK"
   * is replaced by "0".  None, containers, booleans (whose text "True"/"False" float()
   * rejects), unreadable text and zero give None.
   */
  function AmericanToDecimal(v: Value): (r: Option<real>)
    ensures r.Some? ==> r.value > 1.0
    ensures v.VNone? || v.VBool? || v.VList? || v.VDict? ==> r.None?
    ensures v.VInt? ==> r == DecimalOfAmerican(v.i as real)
    ensures v.VFloat? ==> r == DecimalOfAmerican(v.x)
    ensures r.Some? ==> Truthy(v)
  {
    match v
    case VInt(i) => DecimalOfAmerican(i as real)
    case VFloat(x) => DecimalOfAmerican(x)
    case VStr(s) =>
      (match PyFloat(ReplaceAll(s, "PK", "0"))
       case None => None
       case Some(a) => DecimalOfAmerican(a))
    case _ => None
  }

  /** "PK" reads as zero, so it has no decimal odds. */
  lemma PickEmHasNoOdds()
    ensures AmericanToDecimal(VStr("PK")) == None
  {
    assert "PK"[2..] == [];
    assert ReplaceAll("PK", "PK", "0") == "0";
    assert PyFloat("0") == Some(0.0) by {
      assert Strip("0") == "0";
      assert DigitRun("0") == 1;
    }
  }

  /** "N/A" is not a number. */
  lemma NotAvailableHasNoOdds()
    ensures AmericanToDecimal(VStr("N/A")) == None
  {
    assert ReplaceAll("N/A", "PK", "0") == "N/A" by {
      ReplaceAllSkip("N/A", [], "PK", "0");
      assert "N/A" + [] == "N/A";
    }
    assert Strip("N/A") == "N/A";
    assert DigitRun("N/A") == 0;
  }

  /** Text without a 'P' is left alone by the "PK" replacement. */
  lemma NoPickEm(o: string)
    requires 'P' !in o
    ensures ReplaceAll(o, "PK", "0") == o
  {
    ReplaceAllSkip(o, [], "PK", "0");
    assert o + [] == o;
  }

  lemma SignedDigitsRead(o: string)
    requires |o| >= 2 && (o[0] == '+' || o[0] == '-') && AllDigits(o[1..])
    ensures var mag := DigitsValue(o[1..]) as real;
      PyFloat(o) == Some(if o[0] == '-' then -mag else mag)
  {
    assert o[|o| - 1] == o[1..][|o| - 2];
    StrippedFloat(o);
    assert o == [o[0]] + o[1..];
    DigitRunAll(o[1..]);
    ParseSigned(o[0], o[1..]);
  }

  /** An odds token of the scraper ("+105", "-110") reads as its signed digits. */
  lemma OddsTokenDecimal(o: string)
    requires |o| >= 2 && (o[0] == '+' || o[0] == '-') && AllDigits(o[1..])
    ensures var mag := DigitsValue(o[1..]) as real;
      AmericanToDecimal(VStr(o)) == DecimalOfAmerican(if o[0] == '-' then -mag else mag)
  {
    assert 'P' !in o by {
      forall i | 0 <= i < |o| ensures o[i] != 'P' {
        if i > 0 { assert o[i] == o[1..][i - 1]; }
      }
    }
    NoPickEm(o);
    SignedDigitsRead(o);
  }

  /** calculate_ev: None unless both odds are present and nonzero and the true odds exceed 1.0001. */
  function CalculateEv(bet: Option<real>, fair: Option<real>): (r: Option<real>)
    ensures r.Some? <==> bet.Some? && bet.value != 0.0 && fair.Some? && fair.value > 1.0001
    ensures r.Some? ==> (r.value + 1.0) * fair.value == bet.value
    ensures r.Some? ==> (r.value > 0.0 <==> bet.value > fair.value)
  {
    if bet.None? || fair.None? || bet.value == 0.0 || fair.value == 0.0 || fair.value <= 1.0001 then None
    else
      var ev := bet.value / fair.value - 1.0;
      assert (ev + 1.0) * fair.value == bet.value;
      assert ev > 0.0 <==> bet.value > fair.value by {
        assert ev + 1.0 == bet.value / fair.value;
      }
      Some(ev)
  }

  /** An expected value as a percentage. */
  function Percentage(ev: real): real {
    ev * 100.0
  }

  /**
   * f"{ev*100:.2f}%": the figure before the '%' has two decimals and reads
   * back as ev * 100 rounded to hundredths.
   */
  function PercentText(ev: real): (s: string)
    ensures |s| >= 5 && s[|s| - 1] == '%'
    ensures s[0] == '-' <==> ev < 0.0
    ensures s[|s| - 4] == '.' && IsDigit(s[|s| - 3]) && IsDigit(s[|s| - 2])
    ensures PyFloat(s[..|s| - 1]) == Some(GridValue(Percentage(ev)))
  {
    var f := Fixed2(Percentage(ev));
    Fixed2Parses(Percentage(ev));
    DropPercent(f);
    f + "%"
  }

  /** Dropping the '%' again gives back the figure. */
  lemma DropPercent(f: string)
    ensures var s := f + "%"; |s| == |f| + 1 && s[..|s| - 1] == f && s[|f|] == '%'
    ensures forall i :: 0 <= i < |f| ==> (f + "%")[i] == f[i]
  {
    assert (f + "%")[..|f|] == f;
  }

  // ---------------------------------------------------------------------------
  // clean_pod_team_name_for_search
  // ---------------------------------------------------------------------------

  /** The suffixes the search cleaner tries, in order (leagues, countries, competitions). */
  function PodSuffixes(): seq<string> {
    ["mlb", "nba", "nfl", "nhl", "ncaaf", "ncaab"]
    + ["poland", "bulgaria", "uruguay", "colombia", "peru", "argentina", "sweden", "romania", "finland"]
    + ["liga 1", "serie a", "bundesliga", "la liga", "ligue 1", "premier league", "wnba"]
  }

  /** The name with its "(...)" groups removed and the surrounding whitespace stripped. */
  function Unbracketed(name: string): string {
    Strip(TeamNames.RemoveParens(name))
  }

  /** clean_pod_team_name_for_search with the suffix list sufs. */
  function CleanPodWith(name: string, sufs: seq<string>): (r: string)
    ensures |r| <= |Unbracketed(name)|
  {
    if name == [] then [] else Strip(TeamNames.StripSuffixes(Unbracketed(name), sufs))
  }

  /** What clean_pod_team_name_for_search returns. */
  function CleanPodSpec(name: string): string {
    CleanPodWith(name, PodSuffixes())
  }

  method CleanPodTeamName(name: string) returns (r: string)
    ensures r == CleanPodSpec(name)
  {
    if name == [] {
      return "";
    }
    var cleaned := Unbracketed(name);
    cleaned := TeamNames.StripSuffixesLoop(cleaned, PodSuffixes());
    r := Strip(cleaned);
  }

  /** The cleaned name is a prefix of the bracket-free name: its letters keep their case. */
  lemma CleanPodKeepsCase(name: string, sufs: seq<string>)
    ensures var base := Unbracketed(name); var r := CleanPodWith(name, sufs);
      r == base[..|r|]
  {
    var base := Unbracketed(name);
    if name != [] {
      TeamNames.StripSuffixesPrefix(base, sufs);
      var r0 := TeamNames.StripSuffixes(base, sufs);
      StripOfPrefix(r0, |r0|);
      assert r0[..|r0|] == r0;
      var r := Strip(r0);
      assert r == r0[..|r|];
      assert r0 == base[..|r0|];
    }
  }

  /** Suffixes the name does not end with leave it unchanged. */
  lemma {:induction false} StripSuffixesNoMatch(name: string, sufs: seq<string>)
    requires forall i :: 0 <= i < |sufs| ==> !EndsWith(Lower(name), sufs[i])
    ensures TeamNames.StripSuffixes(name, sufs) == name
    decreases |sufs|
  {
    if sufs != [] {
      StripSuffixesNoMatch(name, sufs[1..]);
    }
  }

  /** The suffix loop over a concatenated list runs over the first part, then the second. */
  lemma {:induction false} StripSuffixesAppend(name: string, a: seq<string>, b: seq<string>)
    ensures TeamNames.StripSuffixes(name, a + b) == TeamNames.StripSuffixes(TeamNames.StripSuffixes(name, a), b)
    decreases |a|
  {
    if a != [] {
      var next := TeamNames.StripSuffix(name, a[0]);
      assert (a + b)[0] == a[0] && (a + b)[1..] == a[1..] + b;
      assert TeamNames.StripSuffixes(name, a + b) == TeamNames.StripSuffixes(next, a[1..] + b);
      assert TeamNames.StripSuffixes(name, a) == TeamNames.StripSuffixes(next, a[1..]);
      StripSuffixesAppend(next, a[1..], b);
    } else {
      assert a + b == b;
    }
  }

  /** The loop over a list starting with suf tries suf first. */
  lemma StripSuffixesCons(name: string, suf: string, rest: seq<string>)
    ensures TeamNames.StripSuffixes(name, [suf] + rest) ==
      TeamNames.StripSuffixes(TeamNames.StripSuffix(name, suf), rest)
  {
    assert ([suf] + rest)[0] == suf && ([suf] + rest)[1..] == rest;
  }

  /** None of the first j suffixes ends the name. */
  lemma StripSuffixesNoMatchPrefix(name: string, sufs: seq<string>, j: nat)
    requires j <= |sufs|
    requires forall i :: 0 <= i < j ==> !EndsWith(Lower(name), sufs[i])
    ensures TeamNames.StripSuffixes(name, sufs[..j]) == name
  {
    var pre := sufs[..j];
    assert forall i :: 0 <= i < |pre| ==> pre[i] == sufs[i];
    StripSuffixesNoMatch(name, pre);
  }

  /** None of the suffixes after j ends the name. */
  lemma StripSuffixesNoMatchSuffix(name: string, sufs: seq<string>, j: nat)
    requires j < |sufs|
    requires forall i :: j < i < |sufs| ==> !EndsWith(Lower(name), sufs[i])
    ensures TeamNames.StripSuffixes(name, sufs[j + 1..]) == name
  {
    var post := sufs[j + 1..];
    assert forall i :: 0 <= i < |post| ==> post[i] == sufs[j + 1 + i];
    StripSuffixesNoMatch(name, post);
  }

  /** The suffix loop cuts sufs[j] when it is the first suffix the name ends with and no later one ends the rest. */
  lemma StripSuffixesDrops(base: string, sufs: seq<string>, j: nat)
    requires j < |sufs|
    requires forall i :: 0 <= i < j ==> !EndsWith(Lower(base), sufs[i])
    requires EndsWith(Lower(base), sufs[j]) && Strip(base[..|base| - |sufs[j]|]) != []
    requires forall i :: j < i < |sufs| ==> !EndsWith(Lower(Strip(base[..|base| - |sufs[j]|])), sufs[i])
    ensures TeamNames.StripSuffixes(base, sufs) == Strip(base[..|base| - |sufs[j]|])
  {
    var cut := Strip(base[..|base| - |sufs[j]|]);
    var pre, post := sufs[..j], sufs[j + 1..];
    assert sufs == pre + ([sufs[j]] + post);
    StripSuffixesAppend(base, pre, [sufs[j]] + post);
    StripSuffixesNoMatchPrefix(base, sufs, j);
    StripSuffixesCons(base, sufs[j], post);
    assert TeamNames.StripSuffix(base, sufs[j]) == cut;
    StripSuffixesNoMatchSuffix(cut, sufs, j);
  }

  /**
   * A listed trailing suffix is removed: when sufs[j] is the first suffix the
   * bracket-free name ends with (ignoring case), cutting it leaves a non-empty name,
   * and no later suffix ends that name, the cleaned name is the rest, stripped.
   */
  lemma CleanPodDropsSuffix(name: string, sufs: seq<string>, j: nat)
    requires name != [] && j < |sufs|
    requires forall i :: 0 <= i < j ==> !EndsWith(Lower(Unbracketed(name)), sufs[i])
    requires EndsWith(Lower(Unbracketed(name)), sufs[j])
    requires var base := Unbracketed(name); Strip(base[..|base| - |sufs[j]|]) != []
    requires var base := Unbracketed(name); var cut := Strip(base[..|base| - |sufs[j]|]);
      forall i :: j < i < |sufs| ==> !EndsWith(Lower(cut), sufs[i])
    ensures var base := Unbracketed(name); CleanPodWith(name, sufs) == Strip(base[..|base| - |sufs[j]|])
  {
    StripSuffixesDrops(Unbracketed(name), sufs, j);
  }

  lemma StripSuffixesStep(name: string, sufs: seq<string>, j: nat)
    requires j < |sufs|
    ensures TeamNames.StripSuffixes(name, sufs[..j + 1]) ==
      TeamNames.StripSuffixes(TeamNames.StripSuffix(name, sufs[0]), sufs[1..][..j])
  {
    assert sufs[..j + 1][0] == sufs[0] && sufs[..j + 1][1..] == sufs[1..][..j];
  }

  /** The suffix loop empties a name only when, at some step, the name is one of the suffixes. */
  lemma {:induction false} StripSuffixesEmpty(name: string, sufs: seq<string>)
    requires TeamNames.StripSuffixes(name, sufs) == []
    ensures name == [] || exists j :: 0 <= j < |sufs| && Lower(TeamNames.StripSuffixes(name, sufs[..j])) == sufs[j]
    decreases |sufs|
  {
    if sufs != [] && name != [] {
      var next := TeamNames.StripSuffix(name, sufs[0]);
      assert sufs[..0] == [];
      if Lower(name) != sufs[0] {
        assert next != [];
        StripSuffixesEmpty(next, sufs[1..]);
        var j :| 0 <= j < |sufs[1..]| && Lower(TeamNames.StripSuffixes(next, sufs[1..][..j])) == sufs[1..][j];
        StripSuffixesStep(name, sufs, j);
        assert Lower(TeamNames.StripSuffixes(name, sufs[..j + 1])) == sufs[j + 1];
      }
    }
  }

  /** A cleaned name is empty only when nothing but brackets and blanks was given or a suffix was the whole name. */
  lemma CleanPodEmpty(name: string, sufs: seq<string>)
    requires CleanPodWith(name, sufs) == []
    ensures var base := Unbracketed(name);
      base == [] || exists j :: 0 <= j < |sufs| && Lower(TeamNames.StripSuffixes(base, sufs[..j])) == sufs[j]
  {
    if name != [] {
      var base := Unbracketed(name);
      TeamNames.StripSuffixesPrefix(base, sufs);
      StripEmpty(TeamNames.StripSuffixes(base, sufs));
      StripSuffixesEmpty(base, sufs);
    }
  }

  // ---------------------------------------------------------------------------
  // determine_betbck_search_term
  // ---------------------------------------------------------------------------

  /** Hand-made search terms for names the site lists differently (key: the lowercased cleaned name). */
  const KnownTerms: map<string, string> := map[
    "inter milan" := "Inter", "paris sg" := "Paris", "boston red sox" := "Red Sox",
    "new york mets" := "Mets", "los angeles dodgers" := "Dodgers",
    "universitario de deportes" := "Universitario", "deportes tolima" := "Tolima",
    "llaneros" := "Llaneros", "patronato parana" := "Patronato", "los angeles angels" := "Angels",
    "athletics" := "Athletics", "mj\U{00E4}llby aif" := "Mjallby", "if brommapojkarna" := "Brommapojkarna",
    "rapid bucuresti" := "Rapid", "cfr cluj" := "Cluj", "slavia sofia" := "Sofia",
    "dallas wings" := "Wings", "seattle storm" := "Storm"]

  const GenericWords: seq<string> :=
    ["fc", "sc", "if", "bk", "aif", "ac", "as", "cd", "ca", "afc", "de", "do", "la", "san", "vina", "del", "mar", "st."]

  /** A token worth searching for: longer than two characters and not a generic club word. */
  predicate Significant(t: string) {
    |t| > 2 && Lower(t) !in GenericWords
  }

  /**
   * get_sig_term: the last token when there are several and it is significant,
   * otherwise the first token when it is significant, otherwise nothing.
   */
  function SigTerm(name: string): (r: Option<string>)
    ensures var parts := Split(name);
      r.Some? ==> Significant(r.value) && r.value in parts
    ensures var parts := Split(name);
      r.None? <==> (|parts| <= 1 || !Significant(parts[|parts| - 1])) && (parts == [] || !Significant(parts[0]))
    ensures var parts := Split(name);
      |parts| > 1 && Significant(parts[|parts| - 1]) ==> r == Some(parts[|parts| - 1])
    ensures var parts := Split(name);
      !(|parts| > 1 && Significant(parts[|parts| - 1])) && parts != [] && Significant(parts[0]) ==> r == Some(parts[0])
  {
    var parts := Split(name);
    if |parts| > 1 && Significant(parts[|parts| - 1]) then Some(parts[|parts| - 1])
    else if parts != [] && Significant(parts[0]) then Some(parts[0])
    else None
  }

  /** The choice of determine_betbck_search_term from the two cleaned names and the raw home name. */
  function SearchTermOf(home: string, away: string, homeRaw: string): (r: string)
    ensures Lower(home) in KnownTerms ==> r == KnownTerms[Lower(home)]
    ensures Lower(home) !in KnownTerms && Lower(away) in KnownTerms ==> r == KnownTerms[Lower(away)]
  {
    if Lower(home) in KnownTerms then KnownTerms[Lower(home)]
    else if Lower(away) in KnownTerms then KnownTerms[Lower(away)]
    else match SigTerm(home)
      case Some(t) => t
      case None =>
        match SigTerm(away)
        case Some(t) => t
        case None => if home != [] then home else homeRaw
  }

  /**
   * determine_betbck_search_term: a known term for the cleaned home name, then for the
   * cleaned away name; a significant token of the home name, then of the away name;
   * finally the cleaned home name, or the raw one when cleaning left nothing.
   */
  function DetermineSearchTerm(homeRaw: string, awayRaw: string): (r: string)
    ensures var home := CleanPodSpec(homeRaw);
      Lower(home) in KnownTerms ==> r == KnownTerms[Lower(home)]
    ensures var home, away := CleanPodSpec(homeRaw), CleanPodSpec(awayRaw);
      r in KnownTerms.Values || r in Split(home) || r in Split(away) || r == home || r == homeRaw
    ensures homeRaw != [] ==> r != []
  {
    var home, away := CleanPodSpec(homeRaw), CleanPodSpec(awayRaw);
    SearchTermOrigin(home, away, homeRaw);
    if homeRaw == [] then SearchTermOf(home, away, homeRaw)
    else
      SearchTermNonEmpty(home, away, homeRaw);
      SearchTermOf(home, away, homeRaw)
  }

  /** Without a known term, a significant token wins over the names themselves, home first. */
  lemma SearchTermTokens(home: string, away: string, homeRaw: string)
    requires Lower(home) !in KnownTerms && Lower(away) !in KnownTerms
    ensures SigTerm(home).Some? ==> SearchTermOf(home, away, homeRaw) == SigTerm(home).value
    ensures SigTerm(home).None? && SigTerm(away).Some? ==> SearchTermOf(home, away, homeRaw) == SigTerm(away).value
    ensures SigTerm(home).None? && SigTerm(away).None? ==>
      SearchTermOf(home, away, homeRaw) == if home != [] then home else homeRaw
  {
  }

  /** The search term comes from the table, from a token of either cleaned name, or is a home name itself. */
  lemma SearchTermOrigin(home: string, away: string, homeRaw: string)
    ensures var r := SearchTermOf(home, away, homeRaw);
      r in KnownTerms.Values || r in Split(home) || r in Split(away) || r == home || r == homeRaw
  {
  }

  /** Every known term is non-empty, so a non-empty home name never yields an empty search. */
  lemma SearchTermNonEmpty(home: string, away: string, homeRaw: string)
    requires home != [] || homeRaw != []
    ensures SearchTermOf(home, away, homeRaw) != []
  {
    assert forall k :: k in KnownTerms ==> KnownTerms[k] != [];
  }

  // ---------------------------------------------------------------------------
  // Pairing BetBCK markets with Pinnacle's no-vig prices
  // ---------------------------------------------------------------------------

  /** One spread alternative of the scraper: its canonical line text and its odds. */
  datatype BetSpread = BetSpread(line: string, odds: Value)

  /** The scraper's result for the matched game ("" stands for a missing total line). */
  datatype BetData = BetData(
    podHomeTeam: string, podAwayTeam: string,
    homeMoneyline: Value, awayMoneyline: Value, drawMoneyline: Value,
    homeSpreads: seq<BetSpread>, awaySpreads: seq<BetSpread>,
    totalLine: string, overOdds: Value, underOdds: Value)

  /** One entry of potential_bets_analyzed. */
  datatype PotentialBet = PotentialBet(market: string, sel: string, line: string, bckOdds: Value, pinNvp: Value, ev: string)

  /** A bet whose EV exists for its two prices and is the one its text shows. */
  predicate Justified(b: PotentialBet) {
    var e := CalculateEv(AmericanToDecimal(b.bckOdds), AmericanToDecimal(b.pinNvp));
    e.Some? && b.ev == PercentText(e.value)
  }

  /** The bet for one BetBCK price against one Pinnacle NVP, when calculate_ev gives a value. */
  function EvBet(market: string, sel: string, line: string, odds: Value, nvp: Value): (r: seq<PotentialBet>)
    ensures |r| <= 1
    ensures r != [] <==> CalculateEv(AmericanToDecimal(odds), AmericanToDecimal(nvp)).Some?
    ensures forall b :: b in r ==> Justified(b) && b == b.(market := market, sel := sel, line := line, bckOdds := odds, pinNvp := nvp)
  {
    match CalculateEv(AmericanToDecimal(odds), AmericanToDecimal(nvp))
    case None => []
    case Some(ev) => [PotentialBet(market, sel, line, odds, nvp, PercentText(ev))]
  }

  /** Two steps in sequence: the first exception ends the analysis. */
  function Then(a: Result<seq<PotentialBet>>, b: Result<seq<PotentialBet>>): (r: Result<seq<PotentialBet>>)
    ensures a.Raised? ==> r == a
    ensures a.Ok? && b.Raised? ==> r == b
    ensures a.Ok? && b.Ok? ==> r == Ok(a.value + b.value)
  {
    if a.Raised? then a else if b.Raised? then b else Ok(a.value + b.value)
  }

  /** Every bet of a successful step satisfies p. */
  predicate AllBets(r: Result<seq<PotentialBet>>, p: PotentialBet -> bool) {
    r.Ok? ==> forall b :: b in r.value ==> p(b)
  }

  lemma ThenAll(a: Result<seq<PotentialBet>>, b: Result<seq<PotentialBet>>, p: PotentialBet -> bool)
    requires AllBets(a, p) && AllBets(b, p)
    ensures AllBets(Then(a, b), p)
  {
  }

  /** A money-line side: an NVP lookup whenever the BetBCK price is truthy (lines 113-118). */
  function MoneylineSide(odds: Value, ml: Value, key: string, sel: string): (r: Result<seq<PotentialBet>>)
    ensures !Truthy(odds) ==> r == Ok([])
    ensures r.Raised? ==> !ml.VDict?
    ensures AllBets(r, b => Justified(b) && b.market == "ML" && b.sel == sel && b.line == "")
  {
    if !Truthy(odds) then Ok([])
    else match Get(ml, key)
      case Raised(e) => Raised(e)
      case Ok(nvp) => Ok(EvBet("ML", sel, "", odds, nvp))
  }

  /** A side that needs both a truthy BetBCK price and a truthy NVP (the draw and both totals). */
  function GuardedSide(market: string, sel: string, line: string, odds: Value, table: Value, key: string): (r: Result<seq<PotentialBet>>)
    ensures !Truthy(odds) ==> r == Ok([])
    ensures r.Raised? ==> !table.VDict?
    ensures r.Ok? && r.value != [] ==> Get(table, key).Ok? && Truthy(Get(table, key).value)
    ensures AllBets(r, b => Justified(b) && b.market == market && b.sel == sel && b.line == line)
  {
    if !Truthy(odds) then Ok([])
    else match Get(table, key)
      case Raised(e) => Raised(e)
      case Ok(nvp) => if Truthy(nvp) then Ok(EvBet(market, sel, line, odds, nvp)) else Ok([])
  }

  /**
   * The Pinnacle key of an away spread: "0.0" for the lines "0", "0.0" and "pk",
   * otherwise str(-float(line)) with "-0.0" written "0.0"; ValueError when the line
   * is not a number.
   */
  function AwayKey(line: string): (r: Result<string>)
    ensures line in ["0", "0.0", "pk"] ==> r == Ok("0.0")
    ensures r.Ok? ==> r.value != "-0.0" && r.value != [] && r.value[0] != '+'
    ensures line !in ["0", "0.0", "pk"] ==> (r.Raised? <==> PyFloat(line).None?)
  {
    if line in ["0", "0.0", "pk"] then Ok("0.0")
    else match PyFloat(line)
      case None => Raised("ValueError")
      case Some(x) => Ok(NegatedKey(x))
  }

  /** str(-x), with the negative zero written "0.0". */
  function NegatedKey(x: real): (r: string)
    ensures r != "-0.0" && r != [] && r[0] != '+'
  {
    ZeroKey(PyFloatRepr(Negated(x)))
  }

  function Negated(x: real): (r: real)
    ensures r + x == 0.0
  {
    -x
  }

  function ZeroKey(key: string): (r: string)
    requires key != [] && key[0] != '+'
    ensures r != "-0.0" && r != [] && r[0] != '+'
  {
    if key == "-0.0" then "0.0" else key
  }

  lemma IntZeroRead(s: string)
    requires s == "0"
    ensures PyFloat(s) == Some(0.0)
  {
    ParseNat(0);
    UnsignedFloat(s, 0.0);
  }

  lemma ZeroRead(s: string)
    requires s == "0.0"
    ensures PyFloat(s) == Some(0.0)
  {
    var body := ReprBody(0, 0);
    assert body == s;
    UnsignedFloat(body, 0.0);
  }

  lemma NegZeroRead(s: string)
    requires s == "-0.0"
    ensures PyFloat(s) == Some(0.0)
  {
    var body := ReprBody(0, 0);
    assert body == "0.0";
    assert s == ['-'] + body;
    NegatedFloat(body, 0.0);
  }

  /** Writing the negative zero as "0.0" does not change the value read back. */
  lemma ZeroKeyParses(key: string, g: real)
    requires key != [] && key[0] != '+'
    requires PyFloat(key) == Some(g)
    ensures PyFloat(ZeroKey(key)) == Some(g)
  {
    if key == "-0.0" {
      ZeroRead("0.0");
      NegZeroRead(key);
    }
  }

  lemma ReprKeyParses(y: real)
    ensures PyFloat(ZeroKey(PyFloatRepr(y))) == Some(GridValue(y))
  {
    PyFloatReprParses(y);
    ZeroKeyParses(PyFloatRepr(y), GridValue(y));
  }

  lemma NegatedKeyParses(x: real, y: real)
    requires y == -x
    ensures PyFloat(NegatedKey(x)) == Some(GridValue(y))
    ensures GridValue(x) == x ==> PyFloat(NegatedKey(x)) == Some(y)
  {
    ReprKeyParses(Negated(x));
    GridValueOnGrid(x);
  }

  /** A text that starts with a letter is not a float. */
  lemma LetterUnreadable(s: string)
    requires s != [] && 'a' <= s[0] <= 'z' && !IsSpace(s[|s| - 1])
    ensures PyFloat(s) == None
  {
    assert Strip(s) == s;
    assert DigitRun(s) == 0;
  }

  /**
   * The away key of a readable line reads back as the negated line, rounded to hundredths;
   * exactly the negated line when the line lies on the hundredths grid.
   */
  lemma AwayKeyNegates(line: string, x: real, y: real)
    requires PyFloat(line) == Some(x) && y == -x
    ensures AwayKey(line).Ok? && PyFloat(AwayKey(line).value) == Some(GridValue(y))
    ensures GridValue(x) == x ==> PyFloat(AwayKey(line).value) == Some(y)
  {
    GridValueOnGrid(x);
    if line in ["0", "0.0", "pk"] {
      AwayKeyOfZero(line, x, y);
    } else {
      AwayKeyOfOther(line, x);
      NegatedKeyParses(x, y);
    }
  }

  lemma AwayKeyOfZero(line: string, x: real, y: real)
    requires line in ["0", "0.0", "pk"] && PyFloat(line) == Some(x) && y == -x
    ensures AwayKey(line) == Ok("0.0") && PyFloat("0.0") == Some(GridValue(y))
  {
    ZeroLineValue(line, x);
    ZeroRead("0.0");
    GridZero();
  }

  lemma GridZero()
    ensures GridValue(0.0) == 0.0
  {
    ZeroRead("0.0");
    PyFloatReprZero();
    PyFloatReprParses(0.0);
  }

  lemma ZeroLineValue(line: string, x: real)
    requires line in ["0", "0.0", "pk"]
    requires PyFloat(line) == Some(x)
    ensures x == 0.0
  {
    if line == "pk" {
      LetterUnreadable(line);
    } else if line == "0" {
      IntZeroRead(line);
    } else {
      ZeroRead(line);
    }
  }

  lemma AwayKeyOfOther(line: string, x: real)
    requires line !in ["0", "0.0", "pk"] && PyFloat(line) == Some(x)
    ensures AwayKey(line) == Ok(NegatedKey(x))
  {
  }

  /** A spread market whose key maps to a truthy dict with a truthy NVP under nvpKey. */
  predicate Listed(spreads: Value, key: string, nvpKey: string) {
    spreads.VDict? && key in spreads.entries && Truthy(spreads.entries[key]) &&
    Get(spreads.entries[key], nvpKey).Ok? && Truthy(Get(spreads.entries[key], nvpKey).value)
  }

  /** The Pinnacle market of one spread alternative, looked up under key (lines 126-129, 134-137). */
  function SpreadMarketBets(s: BetSpread, key: string, spreads: Value, nvpKey: string, sel: string): (r: Result<seq<PotentialBet>>)
    ensures r.Ok? && r.value != [] ==> Listed(spreads, key, nvpKey)
    ensures AllBets(r, b => Justified(b) && b.market == "Spread" && b.sel == sel && b.line == s.line && b.bckOdds == s.odds)
  {
    match Get(spreads, key)
    case Raised(e) => Raised(e)
    case Ok(market) =>
      if !Truthy(market) then Ok([])
      else match Get(market, nvpKey)
        case Raised(e) => Raised(e)
        case Ok(nvp) => if Truthy(nvp) then Ok(EvBet("Spread", sel, s.line, s.odds, nvp)) else Ok([])
  }

  /** The lookup key of a spread: the line text itself for the home side, AwayKey for the away side. */
  function SpreadKey(line: string, away: bool): Result<string> {
    if away then AwayKey(line) else Ok(line)
  }

  function NvpKey(away: bool): string {
    if away then "nvp_american_away" else "nvp_american_home"
  }

  /** The bets of one spread alternative, when its key is listed. */
  predicate PairedSpread(b: PotentialBet, s: BetSpread, spreads: Value, away: bool) {
    var key := SpreadKey(s.line, away);
    b.line == s.line && b.bckOdds == s.odds && key.Ok? && Listed(spreads, key.value, NvpKey(away))
  }

  function SpreadBet(s: BetSpread, spreads: Value, sel: string, away: bool): (r: Result<seq<PotentialBet>>)
    ensures AllBets(r, b => Justified(b) && b.market == "Spread" && b.sel == sel && PairedSpread(b, s, spreads, away))
  {
    match SpreadKey(s.line, away)
    case Raised(e) => Raised(e)
    case Ok(key) => SpreadMarketBets(s, key, spreads, NvpKey(away), sel)
  }

  /** The spread loop over a list of alternatives, in order. */
  function SpreadBets(ss: seq<BetSpread>, spreads: Value, sel: string, away: bool): (r: Result<seq<PotentialBet>>)
    ensures AllBets(r, b => Justified(b) && b.market == "Spread" && b.sel == sel &&
      exists i :: 0 <= i < |ss| && PairedSpread(b, ss[i], spreads, away))
    decreases |ss|
  {
    if ss == [] then Ok([])
    else
      var front := SpreadBets(ss[..|ss| - 1], spreads, sel, away);
      var last := SpreadBet(ss[|ss| - 1], spreads, sel, away);
      var r := Then(front, last);
      assert AllBets(r, b => Justified(b) && b.market == "Spread" && b.sel == sel &&
        exists i :: 0 <= i < |ss| && PairedSpread(b, ss[i], spreads, away)) by {
        if r.Ok? {
          forall b | b in r.value
            ensures Justified(b) && b.market == "Spread" && b.sel == sel &&
              exists i :: 0 <= i < |ss| && PairedSpread(b, ss[i], spreads, away)
          {
            if b in front.value {
              var i :| 0 <= i < |ss| - 1 && PairedSpread(b, ss[..|ss| - 1][i], spreads, away);
              assert ss[..|ss| - 1][i] == ss[i];
            } else {
              assert b in last.value;
              assert PairedSpread(b, ss[|ss| - 1], spreads, away);
            }
          }
        }
      }
      r
  }

  /** Once a prefix of the loop raised, the whole loop raises the same exception. */
  lemma {:induction false} SpreadBetsRaised(ss: seq<BetSpread>, k: nat, spreads: Value, sel: string, away: bool)
    requires k <= |ss| && SpreadBets(ss[..k], spreads, sel, away).Raised?
    ensures SpreadBets(ss, spreads, sel, away) == SpreadBets(ss[..k], spreads, sel, away)
    decreases |ss|
  {
    if k < |ss| {
      var front := ss[..|ss| - 1];
      assert front[..k] == ss[..k];
      SpreadBetsRaised(front, k, spreads, sel, away);
    } else {
      assert ss[..k] == ss;
    }
  }

  /** One more spread extends the prefix loop by that spread's step. */
  lemma SpreadBetsStep(ss: seq<BetSpread>, i: nat, spreads: Value, sel: string, away: bool)
    requires i < |ss|
    ensures SpreadBets(ss[..i + 1], spreads, sel, away) ==
      Then(SpreadBets(ss[..i], spreads, sel, away), SpreadBet(ss[i], spreads, sel, away))
  {
    assert ss[..i + 1][..i] == ss[..i];
    assert ss[..i + 1][i] == ss[i];
  }

  method SpreadLoop(ss: seq<BetSpread>, spreads: Value, sel: string, away: bool) returns (r: Result<seq<PotentialBet>>)
    ensures r == SpreadBets(ss, spreads, sel, away)
  {
    var bets: seq<PotentialBet> := [];
    for i := 0 to |ss|
      invariant SpreadBets(ss[..i], spreads, sel, away) == Ok(bets)
    {
      SpreadBetsStep(ss, i, spreads, sel, away);
      var step := SpreadBet(ss[i], spreads, sel, away);
      if step.Raised? {
        SpreadBetsRaised(ss, i + 1, spreads, sel, away);
        return step;
      }
      bets := bets + step.value;
    }
    assert ss[..|ss|] == ss;
    return Ok(bets);
  }

  /** The totals: keyed by the BetBCK total line text exactly as scraped (lines 140-149). */
  function TotalBets(bet: BetData, totals: Value): (r: Result<seq<PotentialBet>>)
    ensures bet.totalLine == [] ==> r == Ok([])
    ensures AllBets(r, b => Justified(b) && b.market == "Total" && b.line == bet.totalLine &&
      totals.VDict? && bet.totalLine in totals.entries)
  {
    if bet.totalLine == [] then Ok([])
    else match Get(totals, bet.totalLine)
      case Raised(e) => Raised(e)
      case Ok(m) =>
        if !Truthy(m) then Ok([])
        else
          var over := GuardedSide("Total", "Over", bet.totalLine, bet.overOdds, m, "nvp_american_over");
          var under := GuardedSide("Total", "Under", bet.totalLine, bet.underOdds, m, "nvp_american_under");
          ThenAll(over, under, b => Justified(b) && b.market == "Total" && b.line == bet.totalLine);
          Then(over, under)
  }

  /** The "Match" period of the processed Pinnacle data: a missing key gives None, and a level that is not a dict reads as {}. */
  function FullGame(pin: Value): Value {
    Child(Child(Child(pin, "data"), "periods"), "num_0")
  }

  /** The markets the analysis may produce: the money line, spreads and the total. */
  predicate Paired(b: PotentialBet, bet: BetData, pin: Value) {
    var full := FullGame(pin);
    Justified(b) &&
    (b.market == "ML" || b.market == "Spread" || b.market == "Total") &&
    (b.market == "Total" ==> b.line == bet.totalLine && Child(full, "totals").VDict? && bet.totalLine in Child(full, "totals").entries) &&
    (b.market == "Spread" ==>
      (b.sel == bet.podHomeTeam && exists i :: 0 <= i < |bet.homeSpreads| && PairedSpread(b, bet.homeSpreads[i], Child(full, "spreads"), false)) ||
      (b.sel == bet.podAwayTeam && exists i :: 0 <= i < |bet.awaySpreads| && PairedSpread(b, bet.awaySpreads[i], Child(full, "spreads"), true)))
  }

  /** The EV section of process_alert_and_scrape_betbck (lines 104-149), in its order. */
  function Pairing(bet: BetData, pin: Value): (r: Result<seq<PotentialBet>>)
    ensures AllBets(r, b => Paired(b, bet, pin))
  {
    var full := FullGame(pin);
    var ml, spreads, totals := Child(full, "money_line"), Child(full, "spreads"), Child(full, "totals");
    var p := b => Paired(b, bet, pin);
    var home := MoneylineSide(bet.homeMoneyline, ml, "nvp_american_home", bet.podHomeTeam);
    var away := MoneylineSide(bet.awayMoneyline, ml, "nvp_american_away", bet.podAwayTeam);
    var draw := GuardedSide("ML", "Draw", "", bet.drawMoneyline, ml, "nvp_american_draw");
    var hs := SpreadBets(bet.homeSpreads, spreads, bet.podHomeTeam, false);
    var aws := SpreadBets(bet.awaySpreads, spreads, bet.podAwayTeam, true);
    var tot := TotalBets(bet, totals);
    assert AllBets(home, p) && AllBets(away, p) && AllBets(draw, p);
    assert AllBets(hs, p) && AllBets(aws, p) && AllBets(tot, p);
    ThenAll(home, away, p);
    ThenAll(Then(home, away), draw, p);
    ThenAll(Then(Then(home, away), draw), hs, p);
    ThenAll(Then(Then(Then(home, away), draw), hs), aws, p);
    ThenAll(Then(Then(Then(Then(home, away), draw), hs), aws), tot, p);
    Then(Then(Then(Then(Then(home, away), draw), hs), aws), tot)
  }

  /** The EV section as the source runs it: one list, appended to step by step. */
  method PairMarkets(bet: BetData, pin: Value) returns (r: Result<seq<PotentialBet>>)
    ensures r == Pairing(bet, pin)
  {
    var full := FullGame(pin);
    var ml, spreads, totals := Child(full, "money_line"), Child(full, "spreads"), Child(full, "totals");
    // acc is the outcome so far; an exception in some later step is all that can change it
    ghost var acc: Result<seq<PotentialBet>> := Ok([]);
    var potentialBets: seq<PotentialBet> := [];
    var step := MoneylineSide(bet.homeMoneyline, ml, "nvp_american_home", bet.podHomeTeam);
    acc := step;
    if step.Raised? { return step; }
    potentialBets := potentialBets + step.value;
    assert potentialBets == step.value;
    step := MoneylineSide(bet.awayMoneyline, ml, "nvp_american_away", bet.podAwayTeam);
    acc := Then(acc, step);
    if step.Raised? { return step; }
    potentialBets := potentialBets + step.value;
    assert acc == Ok(potentialBets);
    step := GuardedSide("ML", "Draw", "", bet.drawMoneyline, ml, "nvp_american_draw");
    acc := Then(acc, step);
    if step.Raised? { return step; }
    potentialBets := potentialBets + step.value;
    assert acc == Ok(potentialBets);
    step := SpreadLoop(bet.homeSpreads, spreads, bet.podHomeTeam, false);
    acc := Then(acc, step);
    if step.Raised? { return step; }
    potentialBets := potentialBets + step.value;
    assert acc == Ok(potentialBets);
    step := SpreadLoop(bet.awaySpreads, spreads, bet.podAwayTeam, true);
    acc := Then(acc, step);
    if step.Raised? { return step; }
    potentialBets := potentialBets + step.value;
    assert acc == Ok(potentialBets);
    step := TotalBets(bet, totals);
    acc := Then(acc, step);
    if step.Raised? { return step; }
    potentialBets := potentialBets + step.value;
    assert acc == Ok(potentialBets);
    return Ok(potentialBets);
  }

  /** Every analysed bet has an NVP that converts, hence a truthy one, and a computed EV. */
  lemma PairedBetsHaveNvp(bet: BetData, pin: Value)
    ensures var r := Pairing(bet, pin);
      r.Ok? ==> forall b :: b in r.value ==>
        AmericanToDecimal(b.pinNvp).Some? && Truthy(b.pinNvp) &&
        CalculateEv(AmericanToDecimal(b.bckOdds), AmericanToDecimal(b.pinNvp)).Some?
  {
    var r := Pairing(bet, pin);
    if r.Ok? {
      forall b | b in r.value
        ensures AmericanToDecimal(b.pinNvp).Some? && Truthy(b.pinNvp)
      {
        assert Paired(b, bet, pin);
      }
    }
  }

  /** A home spread line with a '+' sign never meets a Pinnacle key written as str(float). */
  lemma PlusHomeLineUnpaired(s: BetSpread, spreads: Value)
    requires s.line != [] && s.line[0] == '+'
    requires spreads.VDict? && forall k :: k in spreads.entries ==> exists y :: k == PyFloatRepr(y)
    ensures !PairedSpread(PotentialBet("Spread", "", s.line, s.odds, VNone, ""), s, spreads, false)
  {
  }

  // ---------------------------------------------------------------------------
  // process_alert_and_scrape_betbck
  // ---------------------------------------------------------------------------

  /** What the scraper handed back: None, something other than a dict, or a dict. */
  datatype ScrapeResponse =
    | NoResponse
    | NotADict
    | ScrapeDict(source: Value, message: Option<string>, data: BetData)

  /** The returned dict (the event id is passed through unchanged and not modelled). */
  datatype AlertOutcome = AlertOutcome(status: string, message: string, data: Option<BetData>, bets: seq<PotentialBet>)

  predicate FromBetBck(response: ScrapeResponse) {
    response.ScrapeDict? && response.source == VStr("betbck.com")
  }

  function ScrapeFailureMessage(response: ScrapeResponse): string {
    if response.ScrapeDict? && response.message.Some? then response.message.value
    else if response.NoResponse? then "Scraper returned no data."
    else "Scraper error."
  }

  /**
   * process_alert_and_scrape_betbck with the scraper's response as a parameter:
   * scraperLoaded tells whether the scraper module imported, importError is its
   * message.  Raised stands for an exception that escapes the function.
   */
  function ProcessAlert(scraperLoaded: bool, importError: string, homeRaw: string, awayRaw: string,
                        response: ScrapeResponse, pin: Value): (r: Result<AlertOutcome>)
    ensures !scraperLoaded ==> r.Ok? && r.value.status == "error_scraper_module_unavailable_at_runtime" && r.value.bets == []
    ensures scraperLoaded && (homeRaw == [] || awayRaw == []) ==>
      r == Ok(AlertOutcome("error_missing_pod_team_names", "Essential team names missing.", None, []))
    ensures scraperLoaded && homeRaw != [] && awayRaw != [] && !FromBetBck(response) ==>
      r.Ok? && r.value.status == "error_betbck_scrape_failed" && r.value.bets == [] && r.value.data == None &&
      EndsWith(r.value.message, " (Searched: '" + DetermineSearchTerm(homeRaw, awayRaw) + "')")
    ensures r.Ok? && r.value.bets != [] ==> r.value.status == "success" && FromBetBck(response)
    ensures r.Ok? && r.value.status == "success" ==>
      r.value.data == Some(response.data) && forall b :: b in r.value.bets ==> Paired(b, response.data, pin)
    ensures r.Raised? ==> FromBetBck(response) && Pairing(response.data, pin).Raised?
  {
    if !scraperLoaded then
      Ok(AlertOutcome("error_scraper_module_unavailable_at_runtime",
        "BetBCK scraper not loaded: " + (if importError != [] then importError else "Unknown import error"), None, []))
    else if homeRaw == [] || awayRaw == [] then
      Ok(AlertOutcome("error_missing_pod_team_names", "Essential team names missing.", None, []))
    else
      var query := DetermineSearchTerm(homeRaw, awayRaw);
      if FromBetBck(response) then Analysed(response.data, pin)
      else Ok(ScrapeFailed(response, query))
  }

  /** The outcome once BetBCK odds are in hand: the pairing's bets, or its exception. */
  function Analysed(data: BetData, pin: Value): (r: Result<AlertOutcome>)
    ensures r.Raised? <==> Pairing(data, pin).Raised?
    ensures r.Ok? ==> (r.value.status == "success" && r.value.data == Some(data) &&
                       r.value.bets == Pairing(data, pin).value)
  {
    match Pairing(data, pin)
    case Raised(e) => Raised(e)
    case Ok(bets) => Ok(AlertOutcome("success", "BetBCK odds analyzed.", Some(data), bets))
  }

  /** The outcome of a failed scrape: its message names the search term. */
  function ScrapeFailed(response: ScrapeResponse, query: string): (r: AlertOutcome)
    ensures r.status == "error_betbck_scrape_failed" && r.bets == [] && r.data == None
    ensures EndsWith(r.message, " (Searched: '" + query + "')")
  {
    var suffix := " (Searched: '" + query + "')";
    var message := ScrapeFailureMessage(response) + suffix;
    assert message[|message| - |suffix|..] == suffix;
    AlertOutcome("error_betbck_scrape_failed", message, None, [])
  }
}
