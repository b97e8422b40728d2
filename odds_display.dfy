/**
 * The walk that process_event_odds_for_display makes over a Pinnacle event feed
 * (server.py and utils.py share it): every money-line, spread and total dict of
 * every period gets an nvp_<side> entry per side and, for each side, the American
 * form of its odds (american_<side>) and of its NVP (nvp_american_<side>).
 * The feed is a value: the new feed is returned instead of being updated in place.
 */
module OddsDisplay {
  import opened Wrappers
  import opened Values

  function NvpKey(side: string): string { "nvp_" + side }
  function AmericanKey(side: string): string { "american_" + side }
  function NvpAmericanKey(side: string): string { "nvp_american_" + side }

  /** d.get(key) on a dict. */
  function Lookup(d: map<string, Value>, key: string): Value {
    if key in d then d[key] else VNone
  }

  const MoneylineSides: seq<string> := ["home", "draw", "away"]
  const SpreadSides: seq<string> := ["home", "away"]
  const TotalSides: seq<string> := ["over", "under"]

  predicate Distinct(keys: seq<string>) {
    forall i, j :: 0 <= i < j < |keys| ==> keys[i] != keys[j]
  }

  /** d[keys[0]] = vals[0]; d[keys[1]] = vals[1]; ... in order. */
  function Assign(d: map<string, Value>, keys: seq<string>, vals: seq<Value>): (r: map<string, Value>)
    requires |vals| == |keys| && Distinct(keys)
    ensures r.Keys == d.Keys + (set k | k in keys)
    ensures forall key :: key in d && key !in keys ==> r[key] == d[key]
    ensures forall i :: 0 <= i < |keys| ==> r[keys[i]] == vals[i]
  {
    if keys == [] then d
    else
      var n := |keys| - 1;
      var front := keys[..n];
      assert forall i :: 0 <= i < n ==> front[i] == keys[i];
      var e := Assign(d, front, vals[..n]);
      assert forall i :: 0 <= i < n ==> e[keys[i]] == vals[i] by {
        forall i | 0 <= i < n
          ensures e[keys[i]] == vals[i]
        {
          assert e[front[i]] == vals[..n][i];
        }
      }
      AssignLast(d, keys, front, vals, e);
      e[keys[n] := vals[n]]
  }

  /** The last assignment of Assign, given what the earlier ones left. */
  lemma AssignLast(d: map<string, Value>, keys: seq<string>, front: seq<string>, vals: seq<Value>, e: map<string, Value>)
    requires |vals| == |keys| && keys != [] && Distinct(keys)
    requires front == keys[..|keys| - 1] && e.Keys == d.Keys + (set k | k in front)
    requires forall key :: key in d && key !in keys ==> e[key] == d[key]
    requires forall i :: 0 <= i < |keys| - 1 ==> e[keys[i]] == vals[i]
    ensures var r := e[keys[|keys| - 1] := vals[|keys| - 1]];
      r.Keys == d.Keys + (set k | k in keys) &&
      (forall key :: key in d && key !in keys ==> r[key] == d[key]) &&
      (forall i :: 0 <= i < |keys| ==> r[keys[i]] == vals[i])
  {
    var n := |keys| - 1;
    var last := keys[n];
    var r := e[last := vals[n]];
    assert keys == front + [last];
    forall i | 0 <= i < n
      ensures r[keys[i]] == vals[i]
    {
      assert keys[i] != last;
    }
  }

  /** The nvp_ keys of the sides, in order. */
  function NvpKeyList(sides: seq<string>): (r: seq<string>)
    ensures |r| == |sides| && forall i :: 0 <= i < |sides| ==> r[i] == NvpKey(sides[i])
  {
    seq(|sides|, i requires 0 <= i < |sides| => NvpKey(sides[i]))
  }

  /** american_<side>, nvp_american_<side> for each side, in the order the source writes them. */
  function AmericanKeyList(sides: seq<string>): (r: seq<string>)
    ensures |r| == 2 * |sides|
    ensures forall i :: 0 <= i < |sides| ==> r[2 * i] == AmericanKey(sides[i]) && r[2 * i + 1] == NvpAmericanKey(sides[i])
  {
    if sides == [] then []
    else
      var n := |sides| - 1;
      var front := AmericanKeyList(sides[..n]);
      assert forall i :: 0 <= i < n ==> sides[..n][i] == sides[i];
      front + [AmericanKey(sides[n]), NvpAmericanKey(sides[n])]
  }

  /**
   * The values written under AmericanKeyList(sides): the American form of each side's odds
   * and of its NVP, read from the market after its NVPs are set.
   */
  function AmericanValues(d: map<string, Value>, sides: seq<string>, toAmerican: Value -> string): (r: seq<Value>)
    ensures |r| == 2 * |sides|
    ensures forall i :: 0 <= i < |sides| ==>
      r[2 * i] == VStr(toAmerican(Lookup(d, sides[i]))) && r[2 * i + 1] == VStr(toAmerican(Lookup(d, NvpKey(sides[i]))))
  {
    if sides == [] then []
    else
      var n := |sides| - 1;
      var front := AmericanValues(d, sides[..n], toAmerican);
      assert forall i :: 0 <= i < n ==> sides[..n][i] == sides[i];
      front + [VStr(toAmerican(Lookup(d, sides[n]))), VStr(toAmerican(Lookup(d, NvpKey(sides[n]))))]
  }

  /** nvps[i] if len(nvps) > i else None, for each of n sides. */
  function Padded(nvps: seq<Value>, n: nat): (r: seq<Value>)
    ensures |r| == n && forall i :: 0 <= i < n ==> r[i] == if i < |nvps| then nvps[i] else VNone
  {
    seq(n, i requires 0 <= i < n => if i < |nvps| then nvps[i] else VNone)
  }

  /**
   * The keys written for distinct sides are distinct, none is a side name, and the
   * american_ keys never overwrite an nvp_ key.
   */
  predicate Apart(sides: seq<string>) {
    var nvpKeys, americanKeys := NvpKeyList(sides), AmericanKeyList(sides);
    Distinct(nvpKeys) && Distinct(americanKeys) &&
    (forall i :: 0 <= i < |sides| ==> sides[i] !in nvpKeys && sides[i] !in americanKeys) &&
    (forall i :: 0 <= i < |nvpKeys| ==> nvpKeys[i] !in americanKeys)
  }

  /** A side name that cannot collide with an annotation key: it does not start with 'n' and is short. */
  predicate PlainSide(side: string) {
    side != [] && side[0] != 'n' && |side| < 9
  }

  lemma PrefixInjective(prefix: string, a: string, b: string)
    requires prefix + a == prefix + b
    ensures a == b
  {
    assert (prefix + a)[|prefix|..] == a;
    assert (prefix + b)[|prefix|..] == b;
  }

  /** Slot p of the annotation key list, read by the side it belongs to. */
  lemma AmericanKeyAt(sides: seq<string>, p: nat)
    requires p < |AmericanKeyList(sides)|
    ensures p / 2 < |sides|
    ensures AmericanKeyList(sides)[p] ==
      if p % 2 == 0 then AmericanKey(sides[p / 2]) else NvpAmericanKey(sides[p / 2])
  {
    var i := p / 2;
    assert p == 2 * i || p == 2 * i + 1;
  }

  /** Two different slots of the annotation key list of distinct sides hold different keys. */
  lemma AmericanKeysDiffer(sides: seq<string>, p: nat, q: nat)
    requires Distinct(sides)
    requires p < q < |AmericanKeyList(sides)|
    ensures AmericanKeyList(sides)[p] != AmericanKeyList(sides)[q]
  {
    var keys := AmericanKeyList(sides);
    var i, j := p / 2, q / 2;
    AmericanKeyAt(sides, p);
    AmericanKeyAt(sides, q);
    if p % 2 != q % 2 {
      assert keys[p][0] != keys[q][0];
    } else {
      assert i < j by {
        assert p == 2 * i + p % 2 && q == 2 * j + q % 2;
      }
      assert sides[i] != sides[j];
      if p % 2 == 0 {
        if keys[p] == keys[q] {
          PrefixInjective("american_", sides[i], sides[j]);
        }
      } else {
        if keys[p] == keys[q] {
          PrefixInjective("nvp_american_", sides[i], sides[j]);
        }
      }
    }
  }

  lemma {:induction false} PlainSidesApart(sides: seq<string>)
    requires Distinct(sides) && forall i :: 0 <= i < |sides| ==> PlainSide(sides[i])
    ensures Apart(sides)
  {
    var nvpKeys, americanKeys := NvpKeyList(sides), AmericanKeyList(sides);
    forall i, j | 0 <= i < j < |nvpKeys|
      ensures nvpKeys[i] != nvpKeys[j]
    {
      if nvpKeys[i] == nvpKeys[j] {
        PrefixInjective("nvp_", sides[i], sides[j]);
      }
    }
    forall p, q | 0 <= p < q < |americanKeys|
      ensures americanKeys[p] != americanKeys[q]
    {
      AmericanKeysDiffer(sides, p, q);
    }
    forall i | 0 <= i < |sides|
      ensures sides[i] !in nvpKeys && sides[i] !in americanKeys
    {
      forall p | 0 <= p < |americanKeys|
        ensures americanKeys[p] != sides[i]
      {
        AmericanKeyAt(sides, p);
        assert |americanKeys[p]| >= 9;
      }
    }
    forall i | 0 <= i < |nvpKeys|
      ensures nvpKeys[i] !in americanKeys
    {
      forall p | 0 <= p < |americanKeys|
        ensures americanKeys[p] != nvpKeys[i]
      {
        AmericanKeyAt(sides, p);
        if p % 2 == 0 {
          assert americanKeys[p][0] == 'a';
        } else {
          assert |americanKeys[p]| >= 13;
        }
      }
    }
  }

  lemma SidesApart()
    ensures Apart(MoneylineSides) && Apart(SpreadSides) && Apart(TotalSides)
  {
    PlainSidesApart(MoneylineSides);
    PlainSidesApart(SpreadSides);
    PlainSidesApart(TotalSides);
  }

  /**
   * One market dict annotated: nvp_<side> from the market's NVP list (skipped when
   * fullOnly and the list does not have one entry per side), then american_<side> and
   * nvp_american_<side>.  The source writes these one by one and reads each side's odds
   * and nvp_ entry just before; no write touches a key read later (Apart), so reading
   * them all from the market as it stands after the nvp_ step is the same.
   */
  function AnnotateMarket(d: map<string, Value>, sides: seq<string>, nvps: seq<Value>, fullOnly: bool,
                          toAmerican: Value -> string): map<string, Value>
    requires Apart(sides)
  {
    var withNvps := if fullOnly && |nvps| != |sides| then d else Assign(d, NvpKeyList(sides), Padded(nvps, |sides|));
    Assign(withNvps, AmericanKeyList(sides), AmericanValues(withNvps, sides, toAmerican))
  }

  /** The market after its nvp_ step. */
  function WithNvps(d: map<string, Value>, sides: seq<string>, nvps: seq<Value>, fullOnly: bool): map<string, Value>
    requires Apart(sides)
  {
    if fullOnly && |nvps| != |sides| then d else Assign(d, NvpKeyList(sides), Padded(nvps, |sides|))
  }

  lemma AnnotateInTwoSteps(d: map<string, Value>, sides: seq<string>, nvps: seq<Value>, fullOnly: bool,
                           toAmerican: Value -> string)
    requires Apart(sides)
    ensures var m := WithNvps(d, sides, nvps, fullOnly);
      AnnotateMarket(d, sides, nvps, fullOnly, toAmerican) ==
      Assign(m, AmericanKeyList(sides), AmericanValues(m, sides, toAmerican))
  {
  }

  /** The side odds and every key the annotation does not write keep their values. */
  lemma MarketKeepsOthers(d: map<string, Value>, sides: seq<string>, nvps: seq<Value>, fullOnly: bool,
                          toAmerican: Value -> string)
    requires Apart(sides)
    ensures var r := AnnotateMarket(d, sides, nvps, fullOnly, toAmerican);
      (forall key :: key in d && key !in NvpKeyList(sides) && key !in AmericanKeyList(sides) ==> key in r && r[key] == d[key]) &&
      forall i :: 0 <= i < |sides| ==> Lookup(r, sides[i]) == Lookup(d, sides[i])
  {
    AnnotateInTwoSteps(d, sides, nvps, fullOnly, toAmerican);
    var m := WithNvps(d, sides, nvps, fullOnly);
    var nvpKeys, keys := NvpKeyList(sides), AmericanKeyList(sides);
    var r := Assign(m, keys, AmericanValues(m, sides, toAmerican));
    assert forall key :: key in d && key !in nvpKeys ==> key in m && m[key] == d[key];
    assert forall key :: key in m && key !in keys ==> key in r && r[key] == m[key];
    forall i | 0 <= i < |sides|
      ensures Lookup(r, sides[i]) == Lookup(d, sides[i])
    {
      var side := sides[i];
      assert side !in nvpKeys && side !in keys;
      assert (side in d <==> side in m) && (side in m <==> side in r);
    }
  }

  /** No key appears but the american_ keys and, unless skipped, the nvp_ keys. */
  lemma MarketKeys(d: map<string, Value>, sides: seq<string>, nvps: seq<Value>, fullOnly: bool,
                   toAmerican: Value -> string)
    requires Apart(sides)
    ensures AnnotateMarket(d, sides, nvps, fullOnly, toAmerican).Keys ==
      d.Keys + (set k | k in AmericanKeyList(sides)) +
      (if fullOnly && |nvps| != |sides| then {} else set k | k in NvpKeyList(sides))
  {
    AnnotateInTwoSteps(d, sides, nvps, fullOnly, toAmerican);
  }

  /** Unless skipped, nvp_<side> holds the side's NVP, or None past the end of the list. */
  lemma MarketNvps(d: map<string, Value>, sides: seq<string>, nvps: seq<Value>, fullOnly: bool,
                   toAmerican: Value -> string)
    requires Apart(sides) && !(fullOnly && |nvps| != |sides|)
    ensures var r := AnnotateMarket(d, sides, nvps, fullOnly, toAmerican);
      forall i :: 0 <= i < |sides| ==> NvpKey(sides[i]) in r && r[NvpKey(sides[i])] == if i < |nvps| then nvps[i] else VNone
  {
    AnnotateInTwoSteps(d, sides, nvps, fullOnly, toAmerican);
    var m := WithNvps(d, sides, nvps, fullOnly);
    forall i | 0 <= i < |sides|
      ensures NvpKey(sides[i]) in m && m[NvpKey(sides[i])] == if i < |nvps| then nvps[i] else VNone
      ensures NvpKey(sides[i]) !in AmericanKeyList(sides)
    {
      assert NvpKeyList(sides)[i] == NvpKey(sides[i]);
    }
  }

  lemma AmericanSlot(m: map<string, Value>, sides: seq<string>, toAmerican: Value -> string, i: nat)
    requires Apart(sides) && i < |sides|
    ensures var r := Assign(m, AmericanKeyList(sides), AmericanValues(m, sides, toAmerican));
      AmericanKey(sides[i]) in r && r[AmericanKey(sides[i])] == VStr(toAmerican(Lookup(m, sides[i]))) &&
      NvpAmericanKey(sides[i]) in r && r[NvpAmericanKey(sides[i])] == VStr(toAmerican(Lookup(m, NvpKey(sides[i]))))
  {
    var keys, vals := AmericanKeyList(sides), AmericanValues(m, sides, toAmerican);
    AssignedAt(m, keys, vals, 2 * i);
    AssignedAt(m, keys, vals, 2 * i + 1);
  }

  lemma AssignedAt(d: map<string, Value>, keys: seq<string>, vals: seq<Value>, p: nat)
    requires |vals| == |keys| && Distinct(keys) && p < |keys|
    ensures keys[p] in Assign(d, keys, vals) && Assign(d, keys, vals)[keys[p]] == vals[p]
  {
  }

  /** american_<side> is the American form of the side's odds, nvp_american_<side> that of its nvp_ entry. */
  lemma MarketAmericans(d: map<string, Value>, sides: seq<string>, nvps: seq<Value>, fullOnly: bool,
                        toAmerican: Value -> string)
    requires Apart(sides)
    ensures var r := AnnotateMarket(d, sides, nvps, fullOnly, toAmerican);
      forall i :: 0 <= i < |sides| ==>
        AmericanKey(sides[i]) in r && r[AmericanKey(sides[i])] == VStr(toAmerican(Lookup(d, sides[i]))) &&
        NvpAmericanKey(sides[i]) in r && r[NvpAmericanKey(sides[i])] == VStr(toAmerican(Lookup(r, NvpKey(sides[i]))))
  {
    AnnotateInTwoSteps(d, sides, nvps, fullOnly, toAmerican);
    var m := WithNvps(d, sides, nvps, fullOnly);
    var keys, vals := AmericanKeyList(sides), AmericanValues(m, sides, toAmerican);
    var r := Assign(m, keys, vals);
    MarketKeepsOthers(d, sides, nvps, fullOnly, toAmerican);
    forall i | 0 <= i < |sides|
      ensures AmericanKey(sides[i]) in r && r[AmericanKey(sides[i])] == VStr(toAmerican(Lookup(d, sides[i])))
      ensures NvpAmericanKey(sides[i]) in r && r[NvpAmericanKey(sides[i])] == VStr(toAmerican(Lookup(r, NvpKey(sides[i]))))
    {
      AmericanSlot(m, sides, toAmerican, i);
      var nk := NvpKeyList(sides)[i];
      assert nk !in keys;
      assert (nk in m <==> nk in r) && (nk in m ==> r[nk] == m[nk]);
    }
  }

  /** The odds of a market's sides, d.get(side) each. */
  function MarketOdds(d: map<string, Value>, sides: seq<string>): (r: seq<Value>)
    ensures |r| == |sides| && forall i :: 0 <= i < |sides| ==> r[i] == Lookup(d, sides[i])
  {
    seq(|sides|, i requires 0 <= i < |sides| => Lookup(d, sides[i]))
  }

  /** An NVP computation that never raises. */
  ghost predicate NeverRaises(nvp: seq<Value> -> Option<seq<Value>>) {
    forall odds :: nvp(odds).Some?
  }

  /**
   * One market dict annotated with the NVPs nvp computes from its odds; None when the
   * NVP computation raises (ValueError: only the utils.py version can).
   */
  function AnnotateDict(d: map<string, Value>, sides: seq<string>, fullOnly: bool,
                        nvp: seq<Value> -> Option<seq<Value>>, toAmerican: Value -> string): (r: Option<map<string, Value>>)
    requires Apart(sides)
    ensures r.None? <==> nvp(MarketOdds(d, sides)).None?
    ensures r.Some? ==> r.value == AnnotateMarket(d, sides, nvp(MarketOdds(d, sides)).value, fullOnly, toAmerican)
  {
    match nvp(MarketOdds(d, sides))
    case None => None
    case Some(nvps) => Some(AnnotateMarket(d, sides, nvps, fullOnly, toAmerican))
  }

  /** for _, details in group.items(): if isinstance(details, dict): annotate details. */
  function AnnotateEach(group: map<string, Value>, sides: seq<string>, fullOnly: bool,
                        nvp: seq<Value> -> Option<seq<Value>>, toAmerican: Value -> string): (r: Option<map<string, Value>>)
    requires Apart(sides)
    ensures r.None? <==> exists key :: key in group && group[key].VDict? && AnnotateDict(group[key].entries, sides, fullOnly, nvp, toAmerican).None?
    ensures r.Some? ==> r.value.Keys == group.Keys
    ensures r.Some? ==> forall key :: key in group ==>
      r.value[key] == if group[key].VDict? then VDict(AnnotateDict(group[key].entries, sides, fullOnly, nvp, toAmerican).value) else group[key]
  {
    if exists key :: key in group && group[key].VDict? && AnnotateDict(group[key].entries, sides, fullOnly, nvp, toAmerican).None? then None
    else Some(map key | key in group ::
      if group[key].VDict? then VDict(AnnotateDict(group[key].entries, sides, fullOnly, nvp, toAmerican).value) else group[key])
  }

  /** The money-line step of a period: annotate p[key] when it is a non-empty dict. */
  function MarketStep(p: map<string, Value>, key: string, sides: seq<string>, fullOnly: bool,
                      nvp: seq<Value> -> Option<seq<Value>>, toAmerican: Value -> string): (r: Option<map<string, Value>>)
    requires Apart(sides)
    ensures r.Some? ==> r.value.Keys == p.Keys
    ensures r.Some? ==> forall k :: k in p && k != key ==> r.value[k] == p[k]
    ensures var market := Lookup(p, key);
      r.Some? && Truthy(market) && market.VDict? ==>
        AnnotateDict(market.entries, sides, fullOnly, nvp, toAmerican).Some? &&
        r.value[key] == VDict(AnnotateDict(market.entries, sides, fullOnly, nvp, toAmerican).value)
  {
    var market := Lookup(p, key);
    if Truthy(market) && market.VDict? then
      match AnnotateDict(market.entries, sides, fullOnly, nvp, toAmerican)
      case None => None
      case Some(annotated) => Some(p[key := VDict(annotated)])
    else Some(p)
  }

  /** The spreads or totals step of a period: annotate each dict in p[key] when it is a non-empty dict. */
  function GroupStep(p: map<string, Value>, key: string, sides: seq<string>, fullOnly: bool,
                     nvp: seq<Value> -> Option<seq<Value>>, toAmerican: Value -> string): (r: Option<map<string, Value>>)
    requires Apart(sides)
    ensures r.Some? ==> r.value.Keys == p.Keys
    ensures r.Some? ==> forall k :: k in p && k != key ==> r.value[k] == p[k]
    ensures var group := Lookup(p, key);
      r.Some? && Truthy(group) && group.VDict? ==>
        AnnotateEach(group.entries, sides, fullOnly, nvp, toAmerican).Some? &&
        r.value[key] == VDict(AnnotateEach(group.entries, sides, fullOnly, nvp, toAmerican).value)
  {
    var group := Lookup(p, key);
    if Truthy(group) && group.VDict? then
      match AnnotateEach(group.entries, sides, fullOnly, nvp, toAmerican)
      case None => None
      case Some(annotated) => Some(p[key := VDict(annotated)])
    else Some(p)
  }

  /** One period: a non-dict period is skipped; a dict gets its money line, spreads and totals annotated. */
  function AnnotatePeriod(period: Value, fullOnly: bool,
                          nvp: seq<Value> -> Option<seq<Value>>, toAmerican: Value -> string): (r: Option<Value>)
    ensures !period.VDict? ==> r == Some(period)
    ensures r.Some? ==> r.value.VDict? == period.VDict?
    ensures r.Some? && period.VDict? ==> r.value.entries.Keys == period.entries.Keys
  {
    if !period.VDict? then Some(period)
    else
      SidesApart();
      match MarketStep(period.entries, "money_line", MoneylineSides, fullOnly, nvp, toAmerican)
      case None => None
      case Some(p1) =>
        match GroupStep(p1, "spreads", SpreadSides, fullOnly, nvp, toAmerican)
        case None => None
        case Some(p2) =>
          match GroupStep(p2, "totals", TotalSides, fullOnly, nvp, toAmerican)
          case None => None
          case Some(p3) => Some(VDict(p3))
  }

  /** for period_key, period_data in periods.items(): every period annotated; None if one raises. */
  function AnnotatePeriods(periods: map<string, Value>, fullOnly: bool,
                           nvp: seq<Value> -> Option<seq<Value>>, toAmerican: Value -> string): (r: Option<map<string, Value>>)
    ensures r.None? <==> exists key :: key in periods && AnnotatePeriod(periods[key], fullOnly, nvp, toAmerican).None?
    ensures r.Some? ==> r.value.Keys == periods.Keys
    ensures r.Some? ==> forall key :: key in periods ==> r.value[key] == AnnotatePeriod(periods[key], fullOnly, nvp, toAmerican).value
  {
    if exists key :: key in periods && AnnotatePeriod(periods[key], fullOnly, nvp, toAmerican).None? then None
    else Some(map key | key in periods :: AnnotatePeriod(periods[key], fullOnly, nvp, toAmerican).value)
  }

  /** With an NVP computation that never raises, the walk never fails. */
  lemma NeverRaisingWalk(periods: map<string, Value>, fullOnly: bool,
                         nvp: seq<Value> -> Option<seq<Value>>, toAmerican: Value -> string)
    requires NeverRaises(nvp)
    ensures AnnotatePeriods(periods, fullOnly, nvp, toAmerican).Some?
  {
    forall key | key in periods
      ensures AnnotatePeriod(periods[key], fullOnly, nvp, toAmerican).Some?
    {
      NeverRaisingPeriod(periods[key], fullOnly, nvp, toAmerican);
    }
  }

  /** With an NVP computation that never raises, annotating one period never fails. */
  lemma NeverRaisingPeriod(period: Value, fullOnly: bool,
                           nvp: seq<Value> -> Option<seq<Value>>, toAmerican: Value -> string)
    requires NeverRaises(nvp)
    ensures AnnotatePeriod(period, fullOnly, nvp, toAmerican).Some?
  {
    if period.VDict? {
      SidesApart();
      var p1 := MarketStep(period.entries, "money_line", MoneylineSides, fullOnly, nvp, toAmerican);
      assert p1.Some?;
      var p2 := GroupStep(p1.value, "spreads", SpreadSides, fullOnly, nvp, toAmerican);
      assert p2.Some?;
      assert GroupStep(p2.value, "totals", TotalSides, fullOnly, nvp, toAmerican).Some?;
    }
  }

  /**
   * What annotating a dict period does: its money line becomes the annotated market, each
   * dict in its spreads and totals the annotated market, and every other entry is kept.
   */
  lemma PeriodAnnotated(period: Value, fullOnly: bool,
                        nvp: seq<Value> -> Option<seq<Value>>, toAmerican: Value -> string)
    requires period.VDict?
    requires AnnotatePeriod(period, fullOnly, nvp, toAmerican).Some?
    ensures var q := AnnotatePeriod(period, fullOnly, nvp, toAmerican).value.entries;
      forall key :: key in period.entries && key !in ["money_line", "spreads", "totals"] ==>
        q[key] == period.entries[key]
    ensures var q := AnnotatePeriod(period, fullOnly, nvp, toAmerican).value.entries;
      var ml := Lookup(period.entries, "money_line");
      Truthy(ml) && ml.VDict? ==>
        nvp(MarketOdds(ml.entries, MoneylineSides)).Some? && Apart(MoneylineSides) &&
        q["money_line"] == VDict(AnnotateMarket(ml.entries, MoneylineSides, nvp(MarketOdds(ml.entries, MoneylineSides)).value, fullOnly, toAmerican))
    ensures var q := AnnotatePeriod(period, fullOnly, nvp, toAmerican).value.entries;
      var sp := Lookup(period.entries, "spreads");
      Truthy(sp) && sp.VDict? ==>
        Apart(SpreadSides) && AnnotateEach(sp.entries, SpreadSides, fullOnly, nvp, toAmerican).Some? &&
        q["spreads"] == VDict(AnnotateEach(sp.entries, SpreadSides, fullOnly, nvp, toAmerican).value)
    ensures var q := AnnotatePeriod(period, fullOnly, nvp, toAmerican).value.entries;
      var tt := Lookup(period.entries, "totals");
      Truthy(tt) && tt.VDict? ==>
        Apart(TotalSides) && AnnotateEach(tt.entries, TotalSides, fullOnly, nvp, toAmerican).Some? &&
        q["totals"] == VDict(AnnotateEach(tt.entries, TotalSides, fullOnly, nvp, toAmerican).value)
  {
    SidesApart();
    var p := period.entries;
    var p1 := MarketStep(p, "money_line", MoneylineSides, fullOnly, nvp, toAmerican).value;
    var p2 := GroupStep(p1, "spreads", SpreadSides, fullOnly, nvp, toAmerican).value;
    var p3 := GroupStep(p2, "totals", TotalSides, fullOnly, nvp, toAmerican).value;
    assert AnnotatePeriod(period, fullOnly, nvp, toAmerican).value.entries == p3;
    assert Lookup(p1, "spreads") == Lookup(p, "spreads");
    assert Lookup(p2, "totals") == Lookup(p, "totals");
  }
}
