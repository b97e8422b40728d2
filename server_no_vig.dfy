/**
 * The no-vig (NVP) utilities of server.py: decimal_to_american, the power method of
 * adjust_power_probabilities, calculate_nvp_for_market and process_event_odds_for_display.
 * math.pow and math.log are parameters: pow answers None where math.pow raises
 * ValueError or OverflowError, both of which this revision catches.
 */
module ServerNoVig {
  import opened Wrappers
  import opened Values
  import opened Numerals
  import opened Sums
  import opened Markets
  import OddsDisplay

  /** Probabilities at or below 1e-9 are left out of the power method. */
  const Tiny: real := 0.000000001
  /** The default tolerance 1e-6 and iteration bound 100 of adjust_power_probabilities. */
  const Tolerance: real := 0.000001
  const MaxIterations: nat := 100
  /** A market whose implied probabilities sum to at most 1.0001 + 1e-5 is taken as fair. */
  const FairBook: real := 1.00011

  /** decimal_to_american: "N/A" unless a number above 1.0001. */
  function DecimalToAmerican(v: Value): (r: string)
    ensures r == "N/A" <==> Numeric(v).None? || Numeric(v).value <= OddFloor
    ensures r != "N/A" ==> r == AmericanText(Numeric(v).value)
  {
    DecimalToAmericanAbove(OddFloor, v)
  }

  /**
   * Every integer American price a with 100 <= |a| < 1000000 comes back from its decimal
   * odds, except -100, which comes back as "+100".
   */
  lemma AmericanRoundTrip(a: int)
    requires a >= 100 || -1000000 < a <= -100
    ensures MainLogic.AmericanToDecimal(VInt(a)).Some?
    ensures DecimalToAmerican(VFloat(MainLogic.AmericanToDecimal(VInt(a)).value)) ==
      if a > 0 then "+" + IntToString(a) else if a == -100 then "+100" else IntToString(a)
  {
    if a < 0 {
      var m := (-a) as real;
      assert 100.0 / m > 0.0001 by {
        assert m < 1000000.0;
        assert (100.0 / m) * m == 100.0;
      }
    }
    Markets.AmericanRoundTrip(OddFloor, a);
  }

  // ---------------------------------------------------------------------------
  // adjust_power_probabilities
  // ---------------------------------------------------------------------------

  /** Where the Newton iteration on the exponent k stops. */
  datatype PowerEnd = PowFailed | Settled(k: real)

  /**
   * At most n more iterations from exponent k: stop when the powered sum is about 0, when
   * it is within tol of 1 or when the derivative is about 0; otherwise move k by Newton's
   * step.  A pow that raises ends the method.
   */
  function PowerSteps(valid: seq<real>, k: real, n: nat, tol: real,
                      pow: (real, real) -> Option<real>, log: real -> real): PowerEnd
    decreases n
  {
    if n == 0 then Settled(k)
    else
      match Powered(valid, k, pow)
      case None => PowFailed
      case Some(powered) =>
        var s := Sum(powered);
        if Abs(s) < Tiny then Settled(k)
        else if Abs(s - 1.0) < tol then Settled(k)
        else
          var d := Derivative(valid, powered, log);
          if Abs(d) < Tiny then Settled(k)
          else PowerSteps(valid, k - (s - 1.0) / d, n - 1, tol, pow, log)
  }

  /** p / sum(valid) for every valid p: the fallback when pow raises. */
  function Normalised(valid: seq<real>): (r: seq<real>)
    requires valid != [] && forall i :: 0 <= i < |valid| ==> valid[i] > 0.0
    ensures |r| == |valid| && Sum(r) == 1.0
  {
    SumPositive(valid);
    Normalises(valid, Sum(valid));
    Divided(valid, Sum(valid))
  }

  /** The result of adjust_power_probabilities. */
  function Adjust(probs: seq<real>, tol: real, maxIter: nat,
                  pow: (real, real) -> Option<real>, log: real -> real): (r: seq<real>)
    ensures |r| == |probs| || |r| == |Above(probs, Tiny)|
  {
    var valid := Above(probs, Tiny);
    if valid == [] then Constant(|probs|, 0.0)
    else
      match PowerSteps(valid, 1.0, maxIter, tol, pow, log)
      case PowFailed => Normalised(valid)
      case Settled(k) =>
        match Powered(valid, k, pow)
        case None => Normalised(valid)
        case Some(powered) =>
          var s := Sum(powered);
          if Abs(s) < Tiny then Constant(|valid|, 1.0 / |valid| as real)
          else MapBack(probs, Tiny, Divided(powered, s))
  }

  /** Whenever some probability exceeds 1e-9, every return path gives probabilities summing to 1. */
  lemma AdjustSumsToOne(probs: seq<real>, tol: real, maxIter: nat,
                        pow: (real, real) -> Option<real>, log: real -> real)
    requires exists j :: 0 <= j < |probs| && probs[j] > Tiny
    ensures Sum(Adjust(probs, tol, maxIter, pow, log)) == 1.0
  {
    var valid := Above(probs, Tiny);
    match PowerSteps(valid, 1.0, maxIter, tol, pow, log)
    case PowFailed =>
    case Settled(k) =>
      match Powered(valid, k, pow)
      case None =>
      case Some(powered) =>
        var s := Sum(powered);
        if Abs(s) < Tiny {
          Uniform(|valid|);
        } else {
          Normalises(powered, s);
        }
  }

  /** With no probability above 1e-9 the result is one zero per input. */
  lemma AdjustNoneValid(probs: seq<real>, tol: real, maxIter: nat,
                        pow: (real, real) -> Option<real>, log: real -> real)
    requires forall j :: 0 <= j < |probs| ==> probs[j] <= Tiny
    ensures var r := Adjust(probs, tol, maxIter, pow, log);
      |r| == |probs| && forall j :: 0 <= j < |probs| ==> r[j] == 0.0
  {
  }

  /** When every probability exceeds 1e-9, the result has one entry per input on every path. */
  lemma AdjustLength(probs: seq<real>, tol: real, maxIter: nat,
                     pow: (real, real) -> Option<real>, log: real -> real)
    requires forall j :: 0 <= j < |probs| ==> probs[j] > Tiny
    ensures |Adjust(probs, tol, maxIter, pow, log)| == |probs|
  {
    AboveAll(probs, Tiny);
  }

  /**
   * On the main path (the iteration settles on k, the final pow succeeds and the powered
   * sum is not about 0) the powered values divided by their sum go back to the slots of
   * their probabilities, and every slot holding 1e-9 or less gets 0.
   */
  lemma AdjustMainPath(probs: seq<real>, tol: real, maxIter: nat,
                       pow: (real, real) -> Option<real>, log: real -> real, k: real, powered: seq<real>)
    requires Above(probs, Tiny) != []
    requires PowerSteps(Above(probs, Tiny), 1.0, maxIter, tol, pow, log) == Settled(k)
    requires Powered(Above(probs, Tiny), k, pow) == Some(powered)
    requires Abs(Sum(powered)) >= Tiny
    ensures var r := Adjust(probs, tol, maxIter, pow, log);
      |r| == |probs| &&
      (forall j :: 0 <= j < |probs| && probs[j] <= Tiny ==> r[j] == 0.0) &&
      Picked(probs, Tiny, r) == Divided(powered, Sum(powered))
  {
    var vals := Divided(powered, Sum(powered));
    MapBackZeros(probs, Tiny, vals);
    MapBackPicks(probs, Tiny, vals);
  }

  /** How one pass of the loop body ends: pow raised, the loop breaks, or k moves. */
  datatype Iteration = PowRaised | Stopped | Moved(next: real)

  /**
   * One pass of the loop body at exponent k, with n passes still allowed: where it
   * leaves the iteration is where PowerSteps says it goes.
   */
  method PowerIteration(valid: seq<real>, k: real, ghost n: nat, tol: real,
                        pow: (real, real) -> Option<real>, log: real -> real) returns (it: Iteration)
    requires n > 0
    ensures PowerSteps(valid, k, n, tol, pow, log) ==
      match it
      case PowRaised => PowFailed
      case Stopped => Settled(k)
      case Moved(next) => PowerSteps(valid, next, n - 1, tol, pow, log)
  {
    var powered := Powered(valid, k, pow);
    if powered.None? {
      return PowRaised;
    }
    var s := Sum(powered.value);
    if Abs(s) < Tiny {
      return Stopped;
    }
    var overround := s - 1.0;
    if Abs(overround) < tol {
      return Stopped;
    }
    var derivative := Derivative(valid, powered.value, log);
    if Abs(derivative) < Tiny {
      return Stopped;
    }
    return Moved(k - overround / derivative);
  }

  /** The iteration loop of adjust_power_probabilities: where it stops. */
  method PowerLoop(valid: seq<real>, tol: real, maxIter: nat,
                   pow: (real, real) -> Option<real>, log: real -> real) returns (end: PowerEnd)
    ensures end == PowerSteps(valid, 1.0, maxIter, tol, pow, log)
  {
    var k := 1.0;
    var i := 0;
    while i < maxIter
      invariant 0 <= i <= maxIter
      invariant PowerSteps(valid, 1.0, maxIter, tol, pow, log) == PowerSteps(valid, k, maxIter - i, tol, pow, log)
      decreases maxIter - i
    {
      var it := PowerIteration(valid, k, maxIter - i, tol, pow, log);
      if it == PowRaised {
        return PowFailed;
      }
      if it == Stopped {
        break;
      }
      k := it.next;
      i := i + 1;
    }
    return Settled(k);
  }

  /** The remapping loop: each probability above 1e-9 takes the next adjusted value, the others 0. */
  method Remap(probs: seq<real>, trueProbs: seq<real>) returns (r: seq<real>)
    requires |trueProbs| == |Above(probs, Tiny)|
    ensures r == MapBack(probs, Tiny, trueProbs)
  {
    r := [];
    var counter := 0;
    for j := 0 to |probs|
      invariant counter == |Above(probs[..j], Tiny)| <= |trueProbs|
      invariant r == MapBack(probs[..j], Tiny, trueProbs[..counter])
    {
      MapBackStep(probs, Tiny, trueProbs, j, counter);
      if probs[j] > Tiny {
        r := r + [if counter < |trueProbs| then trueProbs[counter] else 0.0];
        counter := counter + 1;
      } else {
        r := r + [0.0];
      }
    }
    assert probs[..|probs|] == probs;
    assert trueProbs[..counter] == trueProbs;
  }

  /** adjust_power_probabilities. */
  method AdjustPowerProbabilities(probs: seq<real>, tol: real, maxIter: nat,
                                  pow: (real, real) -> Option<real>, log: real -> real) returns (r: seq<real>)
    ensures r == Adjust(probs, tol, maxIter, pow, log)
  {
    var valid := Above(probs, Tiny);
    if valid == [] {
      return Constant(|probs|, 0.0);
    }
    var end := PowerLoop(valid, tol, maxIter, pow, log);
    if end.PowFailed? {
      return Normalised(valid);
    }
    var final := Powered(valid, end.k, pow);
    if final.None? {
      return Normalised(valid);
    }
    var sumFinal := Sum(final.value);
    if Abs(sumFinal) < Tiny {
      return Constant(|valid|, 1.0 / |valid| as real);
    }
    r := Remap(probs, Divided(final.value, sumFinal));
  }

  // ---------------------------------------------------------------------------
  // calculate_nvp_for_market
  // ---------------------------------------------------------------------------

  /** round(odd, 3): a float is rounded, an int comes back as it is. */
  function RoundedOdd(v: Value): (r: Value)
    ensures v.VFloat? ==> r == VFloat(Round3(v.x))
    ensures !v.VFloat? ==> r == v
  {
    match v
    case VFloat(x) => VFloat(Round3(x))
    case _ => v
  }

  /** The implied probabilities of a market's usable odds. */
  function ImpliedOf(odds: seq<Value>): (r: seq<real>)
    ensures |r| == |ValidIndices(odds)|
  {
    Implied(ValidOdds(odds, ValidIndices(odds)))
  }

  /** The power-adjusted probabilities of a market's usable odds. */
  function TrueProbs(odds: seq<Value>, pow: (real, real) -> Option<real>, log: real -> real): seq<real> {
    Adjust(ImpliedOf(odds), Tolerance, MaxIterations, pow, log)
  }

  /** nvps_for_valid: the rounded odds of a fair market, else the inverted adjusted probabilities. */
  function NvpsForValid(odds: seq<Value>, pow: (real, real) -> Option<real>, log: real -> real): (r: seq<Value>) {
    var idxs := ValidIndices(odds);
    if Sum(ImpliedOf(odds)) <= FairBook then seq(|idxs|, i requires 0 <= i < |idxs| => RoundedOdd(odds[idxs[i]]))
    else
      var t := TrueProbs(odds, pow, log);
      NvpsOf(t)
  }

  /** The result of calculate_nvp_for_market: one slot per odd, None where the odd is not usable. */
  function NvpOf(odds: seq<Value>, pow: (real, real) -> Option<real>, log: real -> real): (r: seq<Value>)
    ensures |r| == |odds|
    ensures forall j :: 0 <= j < |odds| && !ValidOdd(odds[j]) ==> r[j] == VNone
  {
    var idxs := ValidIndices(odds);
    if idxs == [] then Nones(|odds|) else Filled(|odds|, idxs, NvpsForValid(odds, pow, log))
  }

  /** No usable odd gives None everywhere. */
  lemma NvpNoValidOdds(odds: seq<Value>, pow: (real, real) -> Option<real>, log: real -> real)
    requires forall j :: 0 <= j < |odds| ==> !ValidOdd(odds[j])
    ensures NvpOf(odds, pow, log) == Nones(|odds|)
  {
  }

  /** A fair market's NVPs are its usable odds rounded to 3 places; no power adjustment is made. */
  lemma NvpFairBook(odds: seq<Value>, pow: (real, real) -> Option<real>, log: real -> real)
    requires Sum(ImpliedOf(odds)) <= FairBook
    ensures forall j :: 0 <= j < |odds| && ValidOdd(odds[j]) ==> NvpOf(odds, pow, log)[j] == RoundedOdd(odds[j])
  {
    var idxs := ValidIndices(odds);
    forall j | 0 <= j < |odds| && ValidOdd(odds[j])
      ensures NvpOf(odds, pow, log)[j] == RoundedOdd(odds[j])
    {
      var i :| 0 <= i < |idxs| && idxs[i] == j;
    }
  }

  /**
   * Otherwise the usable slots get the inverted adjusted probabilities, in order; these
   * sum to 1 as soon as one usable odd is below 1e9 (so its implied probability exceeds 1e-9).
   */
  lemma NvpAdjusted(odds: seq<Value>, pow: (real, real) -> Option<real>, log: real -> real)
    requires Sum(ImpliedOf(odds)) > FairBook
    ensures var idxs, t := ValidIndices(odds), TrueProbs(odds, pow, log);
      forall i :: 0 <= i < |idxs| ==>
        NvpOf(odds, pow, log)[idxs[i]] == if i < |t| then NvpFromProb(t[i]) else VNone
    ensures (exists i :: 0 <= i < |ImpliedOf(odds)| && ImpliedOf(odds)[i] > Tiny) ==>
      Sum(TrueProbs(odds, pow, log)) == 1.0
  {
    if exists i :: 0 <= i < |ImpliedOf(odds)| && ImpliedOf(odds)[i] > Tiny {
      AdjustSumsToOne(ImpliedOf(odds), Tolerance, MaxIterations, pow, log);
    }
  }

  /** calculate_nvp_for_market, with its fill loop. */
  method CalculateNvpForMarket(odds: seq<Value>, pow: (real, real) -> Option<real>, log: real -> real)
    returns (r: seq<Value>)
    ensures r == NvpOf(odds, pow, log)
  {
    var idxs := ValidIndices(odds);
    if idxs == [] {
      return Nones(|odds|);
    }
    var implied := Implied(ValidOdds(odds, idxs));
    var nvps: seq<Value>;
    if Sum(implied) <= FairBook {
      nvps := seq(|idxs|, i requires 0 <= i < |idxs| => RoundedOdd(odds[idxs[i]]));
    } else {
      var t := AdjustPowerProbabilities(implied, Tolerance, MaxIterations, pow, log);
      nvps := NvpsOf(t);
    }
    r := FillNvps(|odds|, idxs, nvps);
  }

  // ---------------------------------------------------------------------------
  // process_event_odds_for_display
  // ---------------------------------------------------------------------------

  const MissingData: string := "Invalid or missing 'data'"
  const DataNotDict: string := "'data' field not a dict"
  const PeriodsNote: string := "Periods data missing/invalid"

  /** {"error": message, "success": False, "data": {}}. */
  function ErrorReply(message: string): Value {
    VDict(map["error" := VStr(message), "success" := VBool(false), "data" := VDict(map[])])
  }

  /** This revision's NVP computation as the walk takes it; it never raises. */
  function ServerNvp(pow: (real, real) -> Option<real>, log: real -> real): (f: seq<Value> -> Option<seq<Value>>)
    ensures OddsDisplay.NeverRaises(f)
  {
    odds => Some(NvpOf(odds, pow, log))
  }

  /**
   * data.setdefault('processing_notes', []).append(...): the note joins the list (a new
   * one when absent); notes that are not a list have no append.
   */
  function Noted(json: map<string, Value>, detail: map<string, Value>): (r: Result<Value>)
  {
    var notes := if "processing_notes" in detail then detail["processing_notes"] else VList([]);
    if notes.VList? then
      Ok(VDict(json["data" := VDict(detail["processing_notes" := VList(notes.items + [VStr(PeriodsNote)])])]))
    else Raised("AttributeError")
  }

  /** The feed process_event_odds_for_display returns, or the exception it raises. */
  function ProcessEventOddsForDisplay(json: Value, pow: (real, real) -> Option<real>, log: real -> real): (r: Result<Value>)
    ensures !Truthy(json) ==> r == Ok(ErrorReply(MissingData))
    ensures json.VDict? && "data" !in json.entries ==> r == Ok(ErrorReply(MissingData))
    ensures json.VDict? && "data" in json.entries && !json.entries["data"].VDict? ==> r == Ok(ErrorReply(DataNotDict))
  {
    if !Truthy(json) then Ok(ErrorReply(MissingData))
    else
      match In("data", json)
      case Raised(e) => Raised(e)
      case Ok(present) =>
        if !present then Ok(ErrorReply(MissingData))
        else if !json.VDict? then Raised("TypeError")
        else
          var detail := json.entries["data"];
          if !detail.VDict? then Ok(ErrorReply(DataNotDict))
          else if "periods" !in detail.entries then Ok(json)
          else
            var periods := detail.entries["periods"];
            if !periods.VDict? then Noted(json.entries, detail.entries)
            else
              OddsDisplay.NeverRaisingWalk(periods.entries, false, ServerNvp(pow, log), DecimalToAmerican);
              var walked := OddsDisplay.AnnotatePeriods(periods.entries, false, ServerNvp(pow, log), DecimalToAmerican).value;
              Ok(VDict(json.entries["data" := VDict(detail.entries["periods" := VDict(walked)])]))
  }

  /**
   * A dict feed with a dict 'data' and a dict 'periods' comes back with the same keys at
   * every level, each period annotated by the walk (with None-padded NVP lists).
   */
  lemma DisplayAnnotates(json: Value, pow: (real, real) -> Option<real>, log: real -> real)
    requires json.VDict? && "data" in json.entries && json.entries["data"].VDict?
    requires "periods" in json.entries["data"].entries && json.entries["data"].entries["periods"].VDict?
    ensures var r := ProcessEventOddsForDisplay(json, pow, log);
      var detail := json.entries["data"].entries;
      var periods := detail["periods"].entries;
      r.Ok? && r.value.VDict? && r.value.entries.Keys == json.entries.Keys &&
      r.value.entries["data"].VDict? && r.value.entries["data"].entries.Keys == detail.Keys &&
      (forall key :: key in json.entries && key != "data" ==> r.value.entries[key] == json.entries[key]) &&
      (forall key :: key in detail && key != "periods" ==> r.value.entries["data"].entries[key] == detail[key]) &&
      r.value.entries["data"].entries["periods"].VDict? &&
      r.value.entries["data"].entries["periods"].entries.Keys == periods.Keys &&
      forall key :: key in periods ==>
        r.value.entries["data"].entries["periods"].entries[key] ==
          OddsDisplay.AnnotatePeriod(periods[key], false, ServerNvp(pow, log), DecimalToAmerican).value
  {
    OddsDisplay.NeverRaisingWalk(json.entries["data"].entries["periods"].entries, false, ServerNvp(pow, log), DecimalToAmerican);
  }

  /** A 'periods' entry that is not a dict gets the note appended to data.processing_notes. */
  lemma DisplayNotesBadPeriods(json: Value, pow: (real, real) -> Option<real>, log: real -> real)
    requires json.VDict? && "data" in json.entries && json.entries["data"].VDict?
    requires "periods" in json.entries["data"].entries && !json.entries["data"].entries["periods"].VDict?
    ensures var detail := json.entries["data"].entries;
      var r := ProcessEventOddsForDisplay(json, pow, log);
      if "processing_notes" !in detail then
        r == Ok(VDict(json.entries["data" := VDict(detail["processing_notes" := VList([VStr(PeriodsNote)])])]))
      else if detail["processing_notes"].VList? then
        r == Ok(VDict(json.entries["data" := VDict(detail["processing_notes" :=
          VList(detail["processing_notes"].items + [VStr(PeriodsNote)])])]))
      else r == Raised("AttributeError")
  {
    assert Truthy(json) && In("data", json) == Ok(true);
    assert [] + [VStr(PeriodsNote)] == [VStr(PeriodsNote)];
  }
}
