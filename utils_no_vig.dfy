/**
 * The no-vig utilities of utils.py, the later revision of server.py's: the "N/A" floor of
 * decimal_to_american is 1.001, adjust_power_probabilities needs two positive
 * probabilities and does not map its result back to the input's slots, a fair market
 * keeps its odds unrounded, and the display walk leaves a malformed feed as it is.
 * pow answers None where math.pow raises OverflowError, which this revision does not
 * catch; math.pow of a positive base never raises ValueError, so the ValueError handlers
 * of the power loop are never reached.
 */
module UtilsNoVig {
  import opened Wrappers
  import opened Values
  import opened Numerals
  import opened Sums
  import opened Markets
  import OddsDisplay
  import ServerNoVig

  /** Below 1.001 decimal_to_american answers "N/A". */
  const AmericanFloor: real := 1.001
  /** The default tolerance 1e-4 and iteration bound 100 of adjust_power_probabilities. */
  const Tolerance: real := 0.0001
  const MaxIterations: nat := 100
  /** A market whose implied probabilities sum to at most 1.0001 is taken as fair. */
  const FairBook: real := 1.0001
  /** Adjusted probabilities at or below 1e-9 have no NVP. */
  const Tiny: real := 0.000000001

  /** decimal_to_american: "N/A" unless a number above 1.001. */
  function DecimalToAmerican(v: Value): (r: string)
    ensures r == "N/A" <==> Numeric(v).None? || Numeric(v).value <= AmericanFloor
    ensures r != "N/A" ==> r == AmericanText(Numeric(v).value)
  {
    DecimalToAmericanAbove(AmericanFloor, v)
  }

  /**
   * Every integer American price a with 100 <= |a| < 100000 comes back from its decimal
   * odds, except -100, which comes back as "+100".
   */
  lemma AmericanRoundTrip(a: int)
    requires a >= 100 || -100000 < a <= -100
    ensures MainLogic.AmericanToDecimal(VInt(a)).Some?
    ensures DecimalToAmerican(VFloat(MainLogic.AmericanToDecimal(VInt(a)).value)) ==
      if a > 0 then "+" + IntToString(a) else if a == -100 then "+100" else IntToString(a)
  {
    if a < 0 {
      var m := (-a) as real;
      assert 100.0 / m > 0.001 by {
        assert m < 100000.0;
        assert (100.0 / m) * m == 100.0;
      }
    }
    Markets.AmericanRoundTrip(AmericanFloor, a);
  }

  /** A price that the server revision converts but this one does not: 1.0005 is between the two floors. */
  lemma FloorsDiffer()
    ensures DecimalToAmerican(VFloat(1.0005)) == "N/A"
    ensures ServerNoVig.DecimalToAmerican(VFloat(1.0005)) != "N/A"
  {
  }

  // ---------------------------------------------------------------------------
  // adjust_power_probabilities
  // ---------------------------------------------------------------------------

  /** Where the Newton iteration on the exponent k stops. */
  datatype PowerEnd = Overflowed | Settled(k: real)

  /**
   * At most n more iterations from exponent k: stop when the powered sum is exactly 0, when
   * it is within tol of 1 or when the derivative is about 0; otherwise move k by Newton's step.
   */
  function PowerSteps(valid: seq<real>, k: real, n: nat, tol: real,
                      pow: (real, real) -> Option<real>, log: real -> real): PowerEnd
    decreases n
  {
    if n == 0 then Settled(k)
    else
      match Powered(valid, k, pow)
      case None => Overflowed
      case Some(powered) =>
        var s := Sum(powered);
        if s == 0.0 then Settled(k)
        else if Abs(s - 1.0) < tol then Settled(k)
        else
          var d := Derivative(valid, powered, log);
          if Abs(d) < Tiny then Settled(k)
          else PowerSteps(valid, k - (s - 1.0) / d, n - 1, tol, pow, log)
  }

  /** The result of adjust_power_probabilities; None when math.pow overflows. */
  function Adjust(probs: seq<real>, tol: real, maxIter: nat,
                  pow: (real, real) -> Option<real>, log: real -> real): (r: Option<seq<real>>)
    ensures r.Some? ==> |r.value| == |Above(probs, 0.0)|
  {
    var valid := Above(probs, 0.0);
    if |valid| < 2 then Some(Constant(|valid|, 0.0))
    else
      match PowerSteps(valid, 1.0, maxIter, tol, pow, log)
      case Overflowed => None
      case Settled(k) =>
        match Powered(valid, k, pow)
        case None => None
        case Some(powered) =>
          var s := Sum(powered);
          if s == 0.0 then Some(Constant(|valid|, 1.0 / |valid| as real))
          else Some(Divided(powered, s))
  }

  /** With fewer than two positive probabilities the result is zeros, one per positive probability. */
  lemma AdjustFewValid(probs: seq<real>, tol: real, maxIter: nat,
                       pow: (real, real) -> Option<real>, log: real -> real)
    requires |Above(probs, 0.0)| < 2
    ensures var r := Adjust(probs, tol, maxIter, pow, log);
      r.Some? && |r.value| == |Above(probs, 0.0)| && forall i :: 0 <= i < |r.value| ==> r.value[i] == 0.0
  {
  }

  /** With two or more, a result that is not an overflow sums to 1. */
  lemma AdjustSumsToOne(probs: seq<real>, tol: real, maxIter: nat,
                        pow: (real, real) -> Option<real>, log: real -> real)
    requires |Above(probs, 0.0)| >= 2
    requires Adjust(probs, tol, maxIter, pow, log).Some?
    ensures Sum(Adjust(probs, tol, maxIter, pow, log).value) == 1.0
  {
    var valid := Above(probs, 0.0);
    match PowerSteps(valid, 1.0, maxIter, tol, pow, log)
    case Settled(k) =>
      var powered := Powered(valid, k, pow).value;
      var s := Sum(powered);
      if s == 0.0 {
        Uniform(|valid|);
      } else {
        Normalises(powered, s);
      }
  }

  /** current_powered_probs, built one pow at a time; None when a pow overflows. */
  method PowerAll(valid: seq<real>, k: real, pow: (real, real) -> Option<real>) returns (r: Option<seq<real>>)
    ensures r == Powered(valid, k, pow)
  {
    var powered: seq<real> := [];
    for j := 0 to |valid|
      invariant |powered| == j
      invariant forall t :: 0 <= t < j ==> pow(valid[t], k) == Some(powered[t])
    {
      var x := pow(valid[j], k);
      if x.None? {
        return None;
      }
      powered := powered + [x.value];
    }
    r := Some(powered);
    assert Powered(valid, k, pow).Some?;
    assert Powered(valid, k, pow).value == powered;
  }

  /** derivative_terms and their sum (the pow of each term is the one just computed). */
  method DerivativeOf(valid: seq<real>, powered: seq<real>, log: real -> real) returns (d: real)
    requires |powered| == |valid|
    ensures d == Derivative(valid, powered, log)
  {
    var terms: seq<real> := [];
    for j := 0 to |valid|
      invariant |terms| == j && forall i :: 0 <= i < j ==> terms[i] == powered[i] * log(valid[i])
    {
      terms := terms + [powered[j] * log(valid[j])];
    }
    assert terms == DerivativeTerms(valid, powered, log);
    d := Sum(terms);
  }

  /** How one pass of the loop body ends: pow raised, the loop breaks, or k moves. */
  datatype Iteration = PowRaised | Stopped | Moved(next: real)

  /**
   * One pass of the loop body at exponent k, with n passes still allowed: where it
   * leaves the iteration is where PowerSteps says it goes.
   */
  method PowerIteration(valid: seq<real>, k: real, ghost n: nat, tol: real,
                        pow: (real, real) -> Option<real>, log: real -> real) returns (it: Iteration)
    requires n > 0
    ensures PowerSteps(valid, k, n, tol, pow, log) ==
      match it
      case PowRaised => Overflowed
      case Stopped => Settled(k)
      case Moved(next) => PowerSteps(valid, next, n - 1, tol, pow, log)
  {
    var powered := PowerAll(valid, k, pow);
    if powered.None? {
      return PowRaised;
    }
    var s := Sum(powered.value);
    if s == 0.0 {
      return Stopped;
    }
    var overround := s - 1.0;
    if Abs(overround) < tol {
      return Stopped;
    }
    var derivative := DerivativeOf(valid, powered.value, log);
    if Abs(derivative) < Tiny {
      return Stopped;
    }
    return Moved(k - overround / derivative);
  }

  /** The iteration loop of adjust_power_probabilities: where it stops. */
  method PowerLoop(valid: seq<real>, tol: real, maxIter: nat,
                   pow: (real, real) -> Option<real>, log: real -> real) returns (end: PowerEnd)
    ensures end == PowerSteps(valid, 1.0, maxIter, tol, pow, log)
  {
    var k := 1.0;
    var i := 0;
    while i < maxIter
      invariant 0 <= i <= maxIter
      invariant PowerSteps(valid, 1.0, maxIter, tol, pow, log) == PowerSteps(valid, k, maxIter - i, tol, pow, log)
      decreases maxIter - i
    {
      var it := PowerIteration(valid, k, maxIter - i, tol, pow, log);
      if it == PowRaised {
        return Overflowed;
      }
      if it == Stopped {
        break;
      }
      k := it.next;
      i := i + 1;
    }
    return Settled(k);
  }

  /** adjust_power_probabilities. */
  method AdjustPowerProbabilities(probs: seq<real>, tol: real, maxIter: nat,
                                  pow: (real, real) -> Option<real>, log: real -> real) returns (r: Option<seq<real>>)
    ensures r == Adjust(probs, tol, maxIter, pow, log)
  {
    var valid := Above(probs, 0.0);
    if |valid| < 2 {
      return Some(Constant(|valid|, 0.0));
    }
    var end := PowerLoop(valid, tol, maxIter, pow, log);
    if end.Overflowed? {
      return None;
    }
    var final := PowerAll(valid, end.k, pow);
    if final.None? {
      return None;
    }
    var sumFinal := Sum(final.value);
    if sumFinal == 0.0 {
      return Some(Constant(|valid|, 1.0 / |valid| as real));
    }
    r := Some(Divided(final.value, sumFinal));
  }

  // ---------------------------------------------------------------------------
  // calculate_nvp_for_market
  // ---------------------------------------------------------------------------

  /** The implied probabilities of a market's usable odds. */
  function ImpliedOf(odds: seq<Value>): (r: seq<real>)
    ensures |r| == |ValidIndices(odds)|
    ensures forall i :: 0 <= i < |r| ==> r[i] > 0.0
  {
    Implied(ValidOdds(odds, ValidIndices(odds)))
  }

  /** nvps_for_valid: the odds themselves for a fair market, else the inverted adjusted probabilities. */
  function NvpsForValid(odds: seq<Value>, pow: (real, real) -> Option<real>, log: real -> real): Option<seq<Value>> {
    var idxs := ValidIndices(odds);
    if Sum(ImpliedOf(odds)) <= FairBook then Some(seq(|idxs|, i requires 0 <= i < |idxs| => odds[idxs[i]]))
    else
      match Adjust(ImpliedOf(odds), Tolerance, MaxIterations, pow, log)
      case None => None
      case Some(t) => Some(NvpsOf(t))
  }

  /**
   * The result of calculate_nvp_for_market, None when math.pow overflows: one slot per
   * odd, None where the odd is not usable.
   */
  function NvpOf(odds: seq<Value>, pow: (real, real) -> Option<real>, log: real -> real): (r: Option<seq<Value>>)
    ensures r.Some? ==> |r.value| == |odds|
    ensures r.Some? ==> forall j :: 0 <= j < |odds| && !ValidOdd(odds[j]) ==> r.value[j] == VNone
    ensures r.None? ==> Sum(ImpliedOf(odds)) > FairBook
  {
    var idxs := ValidIndices(odds);
    if |idxs| < 2 then Some(Nones(|odds|))
    else
      match NvpsForValid(odds, pow, log)
      case None => None
      case Some(nvps) => Some(Filled(|odds|, idxs, nvps))
  }

  /** Fewer than two usable odds give None everywhere. */
  lemma NvpFewValid(odds: seq<Value>, pow: (real, real) -> Option<real>, log: real -> real)
    requires |ValidIndices(odds)| < 2
    ensures NvpOf(odds, pow, log) == Some(Nones(|odds|))
  {
  }

  /** A fair market's NVPs are its usable odds themselves, unrounded. */
  lemma NvpFairBook(odds: seq<Value>, pow: (real, real) -> Option<real>, log: real -> real)
    requires Sum(ImpliedOf(odds)) <= FairBook
    ensures NvpOf(odds, pow, log).Some?
    ensures forall j :: 0 <= j < |odds| ==>
      NvpOf(odds, pow, log).value[j] == if ValidOdd(odds[j]) && |ValidIndices(odds)| >= 2 then odds[j] else VNone
  {
    var idxs := ValidIndices(odds);
    forall j | 0 <= j < |odds| && ValidOdd(odds[j]) && |idxs| >= 2
      ensures NvpOf(odds, pow, log).value[j] == odds[j]
    {
      var i :| 0 <= i < |idxs| && idxs[i] == j;
    }
  }

  /**
   * Otherwise a result that is not an overflow gives each usable slot, in order, the NVP
   * of its adjusted probability, and those probabilities sum to 1.
   */
  lemma NvpAdjusted(odds: seq<Value>, pow: (real, real) -> Option<real>, log: real -> real)
    requires Sum(ImpliedOf(odds)) > FairBook && |ValidIndices(odds)| >= 2
    requires NvpOf(odds, pow, log).Some?
    ensures Adjust(ImpliedOf(odds), Tolerance, MaxIterations, pow, log).Some?
    ensures var idxs, t := ValidIndices(odds), Adjust(ImpliedOf(odds), Tolerance, MaxIterations, pow, log).value;
      |t| == |idxs| && Sum(t) == 1.0 &&
      forall i :: 0 <= i < |idxs| ==> NvpOf(odds, pow, log).value[idxs[i]] == NvpFromProb(t[i])
  {
    var implied := ImpliedOf(odds);
    NvpAdjustedSlots(odds, pow, log);
    AboveAll(implied, 0.0);
    assert |Adjust(implied, Tolerance, MaxIterations, pow, log).value| == |implied|;
    AdjustSumsToOne(implied, Tolerance, MaxIterations, pow, log);
  }

  lemma NvpAdjustedSlots(odds: seq<Value>, pow: (real, real) -> Option<real>, log: real -> real)
    requires Sum(ImpliedOf(odds)) > FairBook && |ValidIndices(odds)| >= 2
    requires NvpOf(odds, pow, log).Some?
    ensures Adjust(ImpliedOf(odds), Tolerance, MaxIterations, pow, log).Some?
    ensures var idxs, t := ValidIndices(odds), Adjust(ImpliedOf(odds), Tolerance, MaxIterations, pow, log).value;
      forall i :: 0 <= i < |idxs| && i < |t| ==> NvpOf(odds, pow, log).value[idxs[i]] == NvpFromProb(t[i])
  {
    var a := Adjust(ImpliedOf(odds), Tolerance, MaxIterations, pow, log);
    assert NvpsForValid(odds, pow, log) == if a.None? then None else Some(NvpsOf(a.value));
  }

  /** calculate_nvp_for_market, with its fill loop. */
  method CalculateNvpForMarket(odds: seq<Value>, pow: (real, real) -> Option<real>, log: real -> real)
    returns (r: Option<seq<Value>>)
    ensures r == NvpOf(odds, pow, log)
  {
    var idxs := ValidIndices(odds);
    if |idxs| < 2 {
      return Some(Nones(|odds|));
    }
    var implied := Implied(ValidOdds(odds, idxs));
    var nvps: seq<Value>;
    if Sum(implied) <= FairBook {
      nvps := seq(|idxs|, i requires 0 <= i < |idxs| => odds[idxs[i]]);
    } else {
      var t := AdjustPowerProbabilities(implied, Tolerance, MaxIterations, pow, log);
      if t.None? {
        return None;
      }
      nvps := NvpsOf(t.value);
    }
    var filled := FillNvps(|odds|, idxs, nvps);
    r := Some(filled);
  }

  // ---------------------------------------------------------------------------
  // process_event_odds_for_display
  // ---------------------------------------------------------------------------

  /** This revision's NVP computation as the walk takes it. */
  function UtilsNvp(pow: (real, real) -> Option<real>, log: real -> real): (f: seq<Value> -> Option<seq<Value>>)
    ensures forall odds :: f(odds) == NvpOf(odds, pow, log)
  {
    odds => NvpOf(odds, pow, log)
  }

  /**
   * The feed process_event_odds_for_display returns, or the exception it raises: a feed
   * without a dict 'data' holding a dict 'periods' comes back unchanged.
   */
  function ProcessEventOddsForDisplay(json: Value, pow: (real, real) -> Option<real>, log: real -> real): (r: Result<Value>)
    ensures !Truthy(json) ==> r == Ok(json)
    ensures json.VDict? && "data" !in json.entries ==> r == Ok(json)
    ensures json.VDict? && "data" in json.entries && !json.entries["data"].VDict? ==> r == Ok(json)
    ensures (json.VDict? && "data" in json.entries && json.entries["data"].VDict? &&
      "periods" !in json.entries["data"].entries) ==> r == Ok(json)
    ensures (json.VDict? && "data" in json.entries && json.entries["data"].VDict? &&
      "periods" in json.entries["data"].entries && !json.entries["data"].entries["periods"].VDict?) ==> r == Ok(json)
  {
    if !Truthy(json) then Ok(json)
    else
      match In("data", json)
      case Raised(e) => Raised(e)
      case Ok(present) =>
        if !present then Ok(json)
        else if !json.VDict? then Raised("TypeError")
        else
          var detail := json.entries["data"];
          if !detail.VDict? || "periods" !in detail.entries || !detail.entries["periods"].VDict? then Ok(json)
          else
            match OddsDisplay.AnnotatePeriods(detail.entries["periods"].entries, true, UtilsNvp(pow, log), DecimalToAmerican)
            case None => Raised("OverflowError")
            case Some(walked) => Ok(VDict(json.entries["data" := VDict(detail.entries["periods" := VDict(walked)])]))
  }

  /**
   * A dict feed with a dict 'data' and a dict 'periods' either raises OverflowError (an
   * NVP computation overflowed) or comes back with the same keys at every level, each
   * period annotated by the walk.
   */
  lemma DisplayAnnotates(json: Value, pow: (real, real) -> Option<real>, log: real -> real)
    requires json.VDict? && "data" in json.entries && json.entries["data"].VDict?
    requires "periods" in json.entries["data"].entries && json.entries["data"].entries["periods"].VDict?
    ensures var r := ProcessEventOddsForDisplay(json, pow, log);
      var periods := json.entries["data"].entries["periods"].entries;
      r.Raised? <==> exists key :: key in periods && OddsDisplay.AnnotatePeriod(periods[key], true, UtilsNvp(pow, log), DecimalToAmerican).None?
    ensures var r := ProcessEventOddsForDisplay(json, pow, log);
      var detail := json.entries["data"].entries;
      var periods := detail["periods"].entries;
      r.Ok? ==>
        r.value.VDict? && r.value.entries.Keys == json.entries.Keys &&
        r.value.entries["data"].VDict? && r.value.entries["data"].entries.Keys == detail.Keys &&
        (forall key :: key in json.entries && key != "data" ==> r.value.entries[key] == json.entries[key]) &&
        (forall key :: key in detail && key != "periods" ==> r.value.entries["data"].entries[key] == detail[key]) &&
        r.value.entries["data"].entries["periods"].VDict? &&
        r.value.entries["data"].entries["periods"].entries.Keys == periods.Keys &&
        forall key :: key in periods ==>
          r.value.entries["data"].entries["periods"].entries[key] ==
            OddsDisplay.AnnotatePeriod(periods[key], true, UtilsNvp(pow, log), DecimalToAmerican).value
  {
    assert Truthy(json) && In("data", json) == Ok(true);
  }

  /** The NVP list of every market has one entry per side, so the walk always writes the nvp_ keys. */
  lemma NvpListsFull(d: map<string, Value>, sides: seq<string>, pow: (real, real) -> Option<real>, log: real -> real)
    requires UtilsNvp(pow, log)(OddsDisplay.MarketOdds(d, sides)).Some?
    ensures |UtilsNvp(pow, log)(OddsDisplay.MarketOdds(d, sides)).value| == |sides|
  {
  }
}
