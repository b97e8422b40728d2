/**
 * The pieces of the no-vig computation that server.py and utils.py write identically:
 * which odds of a market are usable, the placement of the per-valid-odd NVPs back into
 * a list with one slot per side, the powering of probabilities, the mapping of adjusted
 * probabilities back to their slots, and decimal-to-American conversion above a floor.
 */
module Markets {
  import opened Wrappers
  import opened Values
  import opened Numerals
  import opened Sums
  import MainLogic

  /** Odds at or below this are not usable (both revisions). */
  const OddFloor: real := 1.0001

  /** odd is not None and isinstance(odd, (int, float)) and odd > 1.0001. */
  predicate ValidOdd(v: Value) {
    Numeric(v).Some? && Numeric(v).value > OddFloor
  }

  predicate Increasing(idxs: seq<nat>) {
    forall i, j :: 0 <= i < j < |idxs| ==> idxs[i] < idxs[j]
  }

  /** valid_odds_indices: the positions of the usable odds, in order, each once. */
  function ValidIndices(odds: seq<Value>): (r: seq<nat>)
    ensures Increasing(r)
    ensures forall i :: 0 <= i < |r| ==> r[i] < |odds| && ValidOdd(odds[r[i]])
    ensures forall j :: 0 <= j < |odds| && ValidOdd(odds[j]) ==> j in r
  {
    if odds == [] then []
    else
      var n := |odds| - 1;
      var front := ValidIndices(odds[..n]);
      assert forall i :: 0 <= i < |front| ==> odds[..n][front[i]] == odds[front[i]];
      if ValidOdd(odds[n]) then front + [n] else front
  }

  /** current_valid_odds: the usable odds as numbers. */
  function ValidOdds(odds: seq<Value>, idxs: seq<nat>): (r: seq<real>)
    requires forall i :: 0 <= i < |idxs| ==> idxs[i] < |odds| && ValidOdd(odds[idxs[i]])
    ensures |r| == |idxs|
    ensures forall i :: 0 <= i < |idxs| ==> r[i] > OddFloor && Numeric(odds[idxs[i]]) == Some(r[i])
  {
    seq(|idxs|, i requires 0 <= i < |idxs| && idxs[i] < |odds| && ValidOdd(odds[idxs[i]]) => Numeric(odds[idxs[i]]).value)
  }

  /** The implied probability 1 / odd of each odd. */
  function Implied(xs: seq<real>): (r: seq<real>)
    requires forall i :: 0 <= i < |xs| ==> xs[i] > OddFloor
    ensures |r| == |xs|
    ensures forall i :: 0 <= i < |xs| ==> 0.0 < r[i] < 1.0 && r[i] * xs[i] == 1.0
  {
    seq(|xs|, i requires 0 <= i < |xs| => 1.0 / xs[i])
  }

  /** [None] * n. */
  function Nones(n: nat): (r: seq<Value>)
    ensures |r| == n && forall j :: 0 <= j < n ==> r[j] == VNone
  {
    seq(n, _ => VNone)
  }

  /**
   * final_nvp_list after the fill loop: slot idxs[i] gets nvps[i] when the NVP list is
   * long enough, and every other slot keeps None.
   */
  function Filled(n: nat, idxs: seq<nat>, nvps: seq<Value>): (r: seq<Value>)
    requires Increasing(idxs) && forall i :: 0 <= i < |idxs| ==> idxs[i] < n
    ensures |r| == n
    ensures forall i :: 0 <= i < |idxs| ==> r[idxs[i]] == if i < |nvps| then nvps[i] else VNone
    ensures forall j :: 0 <= j < n && j !in idxs ==> r[j] == VNone
  {
    if idxs == [] then Nones(n)
    else
      var m := |idxs| - 1;
      var front := idxs[..m];
      var f := Filled(n, front, nvps);
      assert forall i :: 0 <= i < m ==> front[i] == idxs[i] && idxs[i] != idxs[m];
      assert forall j :: j in idxs && j != idxs[m] ==> j in front;
      if m < |nvps| then f[idxs[m] := nvps[m]] else f
  }

  /** The fill loop of calculate_nvp_for_market. */
  method FillNvps(n: nat, idxs: seq<nat>, nvps: seq<Value>) returns (final: seq<Value>)
    requires Increasing(idxs) && forall i :: 0 <= i < |idxs| ==> idxs[i] < n
    ensures final == Filled(n, idxs, nvps)
  {
    final := Nones(n);
    for i := 0 to |idxs|
      invariant final == Filled(n, idxs[..i], nvps)
    {
      assert idxs[..i + 1][..i] == idxs[..i];
      if i < |nvps| {
        final := final[idxs[i] := nvps[i]];
      }
    }
    assert idxs[..|idxs|] == idxs;
  }

  /** round(1.0 / p, 3) if p > 1e-9 else None: the NVP of an adjusted probability (both revisions). */
  function NvpFromProb(p: real): (r: Value)
    ensures r.VFloat? <==> p > 0.000000001
  {
    if p > 0.000000001 then VFloat(Round3(1.0 / p)) else VNone
  }

  /** [prob_to_nvp(p) for p in t]: the NVP of each adjusted probability, in order. */
  function NvpsOf(t: seq<real>): (r: seq<Value>)
    ensures |r| == |t| && forall i :: 0 <= i < |t| ==> r[i] == NvpFromProb(t[i])
  {
    seq(|t|, i requires 0 <= i < |t| => NvpFromProb(t[i]))
  }

  /**
   * [math.pow(p, k) for p in valid]: None when some pow raises (pow answers None for
   * the ValueError/OverflowError of math.pow).
   */
  function Powered(valid: seq<real>, k: real, pow: (real, real) -> Option<real>): (r: Option<seq<real>>)
    ensures r.None? <==> exists i :: 0 <= i < |valid| && pow(valid[i], k).None?
    ensures r.Some? ==> |r.value| == |valid| && forall i :: 0 <= i < |valid| ==> pow(valid[i], k) == Some(r.value[i])
  {
    if exists i :: 0 <= i < |valid| && pow(valid[i], k).None? then None
    else Some(seq(|valid|, i requires 0 <= i < |valid| => pow(valid[i], k).value))
  }

  /** sum(p^k * log(p) for each valid p): the derivative of the powered sum in k. */
  function Derivative(valid: seq<real>, powered: seq<real>, log: real -> real): real
    requires |powered| == |valid|
  {
    Sum(DerivativeTerms(valid, powered, log))
  }

  /** derivative_terms: p^k * log(p) for each valid p. */
  function DerivativeTerms(valid: seq<real>, powered: seq<real>, log: real -> real): (r: seq<real>)
    requires |powered| == |valid|
    ensures |r| == |valid| && forall i :: 0 <= i < |valid| ==> r[i] == powered[i] * log(valid[i])
  {
    seq(|valid|, i requires 0 <= i < |valid| => powered[i] * log(valid[i]))
  }

  /** [p for p in probs if p > floor]. */
  function Above(probs: seq<real>, floor: real): (r: seq<real>)
    ensures |r| <= |probs|
    ensures forall i :: 0 <= i < |r| ==> r[i] > floor
    ensures r == [] <==> forall j :: 0 <= j < |probs| ==> probs[j] <= floor
  {
    if probs == [] then []
    else
      var n := |probs| - 1;
      var front := Above(probs[..n], floor);
      assert forall j :: 0 <= j < n ==> probs[..n][j] == probs[j];
      if probs[n] > floor then front + [probs[n]] else front
  }

  /** Above keeps a sequence whose every element is over the floor. */
  lemma {:induction false} AboveAll(probs: seq<real>, floor: real)
    requires forall j :: 0 <= j < |probs| ==> probs[j] > floor
    ensures Above(probs, floor) == probs
  {
    if probs != [] {
      var n := |probs| - 1;
      AboveAll(probs[..n], floor);
      assert probs[..n] + [probs[n]] == probs;
    }
  }

  /** A prefix keeps no more values than the whole. */
  lemma {:induction false} AbovePrefix(probs: seq<real>, floor: real, j: nat)
    requires j <= |probs|
    ensures |Above(probs[..j], floor)| <= |Above(probs, floor)|
    decreases |probs| - j
  {
    if j < |probs| {
      AbovePrefix(probs, floor, j + 1);
      assert probs[..j + 1][..j] == probs[..j];
    } else {
      assert probs[..j] == probs;
    }
  }

  /**
   * result_mapped: the k-th value above the floor goes to the k-th such slot, the other
   * slots get 0; the sum is kept.
   */
  function MapBack(probs: seq<real>, floor: real, vals: seq<real>): (r: seq<real>)
    requires |vals| == |Above(probs, floor)|
    ensures |r| == |probs|
    ensures Sum(r) == Sum(vals)
  {
    if probs == [] then []
    else
      var n := |probs| - 1;
      if probs[n] > floor then
        var m := |vals| - 1;
        var r := MapBack(probs[..n], floor, vals[..m]) + [vals[m]];
        assert r[..n] == MapBack(probs[..n], floor, vals[..m]);
        r
      else
        var r := MapBack(probs[..n], floor, vals) + [0.0];
        assert r[..n] == MapBack(probs[..n], floor, vals);
        r
  }

  /** Extending the slots by one: MapBack takes one more value when the new slot is above the floor. */
  lemma MapBackStep(probs: seq<real>, floor: real, vals: seq<real>, j: nat, counter: nat)
    requires j < |probs| && |vals| == |Above(probs, floor)|
    requires counter == |Above(probs[..j], floor)|
    ensures var next := if probs[j] > floor then counter + 1 else counter;
      && next == |Above(probs[..j + 1], floor)| <= |vals|
      && MapBack(probs[..j + 1], floor, vals[..next]) ==
         MapBack(probs[..j], floor, vals[..counter]) + [if probs[j] > floor then vals[counter] else 0.0]
  {
    var front := probs[..j + 1];
    assert front[..j] == probs[..j];
    AbovePrefix(probs, floor, j + 1);
    if probs[j] > floor {
      assert vals[..counter + 1][..counter] == vals[..counter];
    }
  }

  /** Slots at or below the floor get 0. */
  lemma {:induction false} MapBackZeros(probs: seq<real>, floor: real, vals: seq<real>)
    requires |vals| == |Above(probs, floor)|
    ensures forall j :: 0 <= j < |probs| && probs[j] <= floor ==> MapBack(probs, floor, vals)[j] == 0.0
  {
    if probs != [] {
      var n := |probs| - 1;
      var front := probs[..n];
      var r := MapBack(probs, floor, vals);
      var vs;
      if probs[n] > floor {
        vs := vals[..|vals| - 1];
        assert |Above(probs, floor)| == |Above(front, floor)| + 1;
        assert r == MapBack(front, floor, vs) + [vals[|vals| - 1]];
      } else {
        vs := vals;
        assert |Above(probs, floor)| == |Above(front, floor)|;
        assert r == MapBack(front, floor, vs) + [0.0];
      }
      MapBackZeros(front, floor, vs);
      forall j | 0 <= j < n && probs[j] <= floor
        ensures r[j] == 0.0
      {
        assert front[j] == probs[j];
      }
    }
  }

  /** The entries of xs at the slots where probs is above the floor, in order. */
  function Picked(probs: seq<real>, floor: real, xs: seq<real>): seq<real>
    requires |xs| == |probs|
  {
    if probs == [] then []
    else
      var n := |probs| - 1;
      Picked(probs[..n], floor, xs[..n]) + if probs[n] > floor then [xs[n]] else []
  }

  /** The slots above the floor hold the values, in order. */
  lemma {:induction false} MapBackPicks(probs: seq<real>, floor: real, vals: seq<real>)
    requires |vals| == |Above(probs, floor)|
    ensures Picked(probs, floor, MapBack(probs, floor, vals)) == vals
  {
    if probs != [] {
      var n := |probs| - 1;
      var front := probs[..n];
      var r := MapBack(probs, floor, vals);
      if probs[n] > floor {
        var m := |vals| - 1;
        MapBackPicks(front, floor, vals[..m]);
        assert r[..n] == MapBack(front, floor, vals[..m]);
        assert vals[..m] + [vals[m]] == vals;
      } else {
        MapBackPicks(front, floor, vals);
        assert r[..n] == MapBack(front, floor, vals);
      }
    }
  }

  // ---------------------------------------------------------------------------
  // decimal_to_american
  // ---------------------------------------------------------------------------

  /** The American figure of decimal odds d > 1: (d-1)*100 rounded for d >= 2, -100/(d-1) rounded below. */
  function AmericanFigure(d: real): (r: int)
    requires d > 1.0
    ensures d >= 2.0 ==> r >= 100
    ensures d < 2.0 ==> r <= -100
  {
    if d >= 2.0 then RoundHalfEven((d - 1.0) * 100.0)
    else
      assert -100.0 / (d - 1.0) < -100.0 by {
        assert 100.0 / (d - 1.0) * (d - 1.0) == 100.0;
      }
      RoundHalfEven(-100.0 / (d - 1.0))
  }

  /** The text decimal_to_american gives past its guards: a '+' before positive figures. */
  function AmericanText(d: real): (r: string)
    requires d > 1.0
    ensures d >= 2.0 ==> r == "+" + IntToString(AmericanFigure(d))
    ensures d < 2.0 ==> r == IntToString(AmericanFigure(d)) && r[0] == '-'
  {
    if d >= 2.0 then "+" + IntToString(AmericanFigure(d)) else IntToString(AmericanFigure(d))
  }

  /** decimal_to_american with its "N/A" floor as a parameter: "N/A" unless a number above the floor. */
  function DecimalToAmericanAbove(floor: real, v: Value): (r: string)
    requires floor >= 1.0
    ensures r == "N/A" <==> Numeric(v).None? || Numeric(v).value <= floor
    ensures r != "N/A" ==> r == AmericanText(Numeric(v).value)
  {
    match Numeric(v)
    case None => "N/A"
    case Some(d) => if d <= floor then "N/A" else AmericanText(d)
  }

  /** A positive integer price survives the trip through its decimal odds. */
  lemma FigureOfPositive(a: int)
    requires a >= 100
    ensures AmericanFigure(a as real / 100.0 + 1.0) == a
  {
    var d := a as real / 100.0 + 1.0;
    assert (d - 1.0) * 100.0 == a as real;
    RoundInteger(a);
  }

  /** So does a negative one. */
  lemma FigureOfNegative(a: int)
    requires a <= -100
    ensures 100.0 / (-a) as real + 1.0 < 2.0 ==> AmericanFigure(100.0 / (-a) as real + 1.0) == a
  {
    var m := (-a) as real;
    var d := 100.0 / m + 1.0;
    if d < 2.0 {
      assert -100.0 / (d - 1.0) == a as real by {
        assert d - 1.0 == 100.0 / m;
        assert (100.0 / m) * m == 100.0;
      }
      RoundInteger(a);
    }
  }

  /**
   * decimal_to_american(american_to_decimal(a)) gives back an integer American price a
   * whose decimal odds lie above the floor, except -100, whose decimal odds are 2.0.
   */
  lemma AmericanRoundTrip(floor: real, a: int)
    requires 1.0 <= floor < 2.0
    requires a >= 100 || (a <= -100 && 100.0 / (-a) as real + 1.0 > floor)
    ensures MainLogic.AmericanToDecimal(VInt(a)).Some?
    ensures DecimalToAmericanAbove(floor, VFloat(MainLogic.AmericanToDecimal(VInt(a)).value)) ==
      if a > 0 then "+" + IntToString(a) else if a == -100 then "+100" else IntToString(a)
  {
    if a > 0 {
      var d := a as real / 100.0 + 1.0;
      assert MainLogic.AmericanToDecimal(VInt(a)) == Some(d);
      FigureOfPositive(a);
    } else {
      var d := 100.0 / (-a) as real + 1.0;
      assert MainLogic.AmericanToDecimal(VInt(a)) == Some(d);
      FigureOfNegative(a);
      if a == -100 {
        assert d == 2.0;
        assert AmericanFigure(d) == 100 by { RoundInteger(100); }
      }
    }
  }
}
