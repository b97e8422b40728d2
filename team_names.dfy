/**
 * Team-name canonicalisation, the game-match decision and the search-query
 * derivation of the BetBCK scraper (betbck_scraper.py).
 */
module TeamNames {
  import opened Text
  import opened Wrappers

  // ---------------------------------------------------------------------------
  // Parenthetical groups (the regex \s*\([^)]*\) replaced by nothing)
  // ---------------------------------------------------------------------------

  function FirstIndexOf(s: string, c: char): (k: nat)
    ensures k <= |s|
    ensures forall i :: 0 <= i < k ==> s[i] != c
    ensures k < |s| ==> s[k] == c
  {
    if s == [] || s[0] == c then 0 else 1 + FirstIndexOf(s[1..], c)
  }

  /**
   * Length of the "(...)" group, with its leading whitespace, that starts s: the
   * whitespace run, a '(' and everything up to the first ')' after it.  0 when s
   * does not start that way or no ')' follows the '('.
   */
  function GroupEnd(s: string): (n: nat)
    ensures n <= |s|
    ensures n > 0 ==> s[n - 1] == ')' && '(' in s
    ensures s != [] && s[0] == '(' && n == 0 ==> ')' !in s[1..]
  {
    var j := SpaceRun(s);
    if j < |s| && s[j] == '(' then
      var k := FirstIndexOf(s[j + 1..], ')');
      if k < |s| - (j + 1) then j + 1 + k + 1
      else
        assert s != [] && s[0] == '(' ==> j == 0;
        0
    else 0
  }

  /**
   * Scanning left to right, every '(' that has a ')' somewhere after it is deleted
   * up to and including the first such ')', together with the whitespace run just
   * before the '('.  A '(' with no ')' after it stays.
   */
  function RemoveParens(s: string): (r: string)
    ensures forall c :: c in r ==> c in s
    ensures '(' !in s ==> r == s
    decreases |s|
  {
    if s == [] then []
    else if GroupEnd(s) > 0 then
      var rest := s[GroupEnd(s)..];
      assert forall c :: c in rest ==> c in s;
      RemoveParens(rest)
    else
      var rest := s[1..];
      assert forall c :: c in rest ==> c in s;
      assert s == [s[0]] + rest;
      [s[0]] + RemoveParens(rest)
  }

  /** r is what remains of s after deleting some of its characters, the rest kept in order. */
  predicate IsSubsequence(r: string, s: string)
    decreases |s|
  {
    r == [] || (s != [] && ((r[0] == s[0] && IsSubsequence(r[1..], s[1..])) || IsSubsequence(r, s[1..])))
  }

  lemma {:induction false} SubsequenceOfSuffix(r: string, s: string, k: nat)
    requires k <= |s| && IsSubsequence(r, s[k..])
    ensures IsSubsequence(r, s)
    decreases k
  {
    if k > 0 {
      assert s[1..][k - 1..] == s[k..];
      SubsequenceOfSuffix(r, s[1..], k - 1);
    }
  }

  /** The removal only deletes characters: the result is a subsequence of the name. */
  lemma {:induction false} RemoveParensSubsequence(s: string)
    ensures IsSubsequence(RemoveParens(s), s)
    decreases |s|
  {
    if s != [] {
      if GroupEnd(s) > 0 {
        RemoveParensSubsequence(s[GroupEnd(s)..]);
        SubsequenceOfSuffix(RemoveParens(s), s, GroupEnd(s));
      } else {
        RemoveParensSubsequence(s[1..]);
        var r := RemoveParens(s);
        assert r[0] == s[0] && r[1..] == RemoveParens(s[1..]);
      }
    }
  }

  lemma GroupEndPlain(s: string, m: nat)
    requires m < |s| && !IsSpace(s[m])
    requires forall i :: 0 <= i <= m ==> s[i] != '('
    ensures GroupEnd(s) == 0
  {
    assert SpaceRun(s) <= m;
  }

  lemma RemoveParensCons(s: string)
    requires s != [] && GroupEnd(s) == 0
    ensures RemoveParens(s) == [s[0]] + RemoveParens(s[1..])
  {
  }

  lemma ConsConcat(u: string, w: string)
    requires u != []
    ensures [u[0]] + (u[1..] + w) == u + w
  {
    assert [u[0]] + u[1..] == u;
  }

  lemma PlainStep(u: string, v: string)
    requires u != [] && !IsSpace(u[|u| - 1])
    requires forall i :: 0 <= i < |u| ==> u[i] != '('
    ensures RemoveParens(u + v) == [u[0]] + RemoveParens(u[1..] + v)
  {
    var s := u + v;
    GroupEndPlain(s, |u| - 1);
    RemoveParensCons(s);
    assert s[1..] == u[1..] + v;
  }

  /** Text before any '(' is kept as it is, when it does not end in whitespace. */
  lemma {:induction false} RemoveParensKeepsPlain(u: string, v: string)
    requires forall i :: 0 <= i < |u| ==> u[i] != '('
    requires u == [] || !IsSpace(u[|u| - 1])
    ensures RemoveParens(u + v) == u + RemoveParens(v)
    decreases |u|
  {
    if u != [] {
      assert u[1..] == [] || u[1..][|u| - 2] == u[|u| - 1];
      RemoveParensKeepsPlain(u[1..], v);
      PlainStep(u, v);
      ConsConcat(u, RemoveParens(v));
    } else {
      assert u + v == v;
    }
  }

  /** A group "(g)" and the whitespace before it go, and what follows is treated on its own. */
  lemma RemoveParensDropsGroup(w: string, g: string, v: string)
    requires forall i :: 0 <= i < |w| ==> IsSpace(w[i])
    requires ')' !in g
    ensures RemoveParens(w + "(" + g + ")" + v) == RemoveParens(v)
  {
    var s := w + "(" + g + ")" + v;
    assert s[|w|] == '(';
    assert SpaceRun(s) == |w| by {
      var j := SpaceRun(s);
      assert !(j > |w|);
    }
    var t := s[|w| + 1..];
    assert t == g + ")" + v;
    assert FirstIndexOf(t, ')') == |g| by {
      var k := FirstIndexOf(t, ')');
      assert t[|g|] == ')';
    }
    assert GroupEnd(s) == |w| + |g| + 2;
    assert s[|w| + |g| + 2..] == v;
  }

  /** No '(' is followed, anywhere later, by a ')'. */
  predicate NoClosedGroup(r: string) {
    forall i, k :: 0 <= i < k < |r| && r[i] == '(' ==> r[k] != ')'
  }

  lemma NoClosedGroupCons(c: char, t: string)
    requires NoClosedGroup(t) && (c == '(' ==> ')' !in t)
    ensures NoClosedGroup([c] + t)
  {
    var r := [c] + t;
    forall i, k | 0 <= i < k < |r| && r[i] == '(' ensures r[k] != ')' {
      assert r[k] == t[k - 1];
      if i > 0 {
        assert r[i] == t[i - 1];
      }
    }
  }

  /** After the removal no "(...)" group is left. */
  lemma {:induction false} RemoveParensNoGroup(s: string)
    ensures NoClosedGroup(RemoveParens(s))
    decreases |s|
  {
    if s != [] {
      if GroupEnd(s) > 0 {
        RemoveParensNoGroup(s[GroupEnd(s)..]);
        assert RemoveParens(s) == RemoveParens(s[GroupEnd(s)..]);
      } else {
        RemoveParensNoGroup(s[1..]);
        var t := RemoveParens(s[1..]);
        assert RemoveParens(s) == [s[0]] + t;
        if s[0] == '(' {
          assert ')' !in s[1..];
          assert ')' !in t;
        }
        NoClosedGroupCons(s[0], t);
      }
    }
  }

  // ---------------------------------------------------------------------------
  // League and country suffixes (the regex (\s+suf|suf)$, case-insensitive)
  // ---------------------------------------------------------------------------

  /** The league and country suffixes in the order the loop tries them (leagues, countries, competitions). */
  function LeagueSuffixes(): seq<string> {
    ["mlb", "nba", "nfl", "nhl", "ncaaf", "ncaab"]
    + ["poland", "bulgaria", "uruguay", "colombia", "peru", "argentina", "sweden", "romania", "finland", "fifa"]
    + ["liga 1", "serie a", "bundesliga", "la liga", "ligue 1", "premier league", "wnba", "england"]
  }

  /**
   * One pass of the suffix loop: when the name ends with the suffix (ignoring case)
   * it is cut off and the rest stripped, unless that would leave nothing of a name
   * longer than the suffix.
   */
  function StripSuffix(name: string, suf: string): (r: string)
    ensures |r| <= |name|
    ensures !EndsWith(Lower(name), suf) ==> r == name
    ensures r == [] ==> name == [] || Lower(name) == suf
    ensures EndsWith(Lower(name), suf) && (Strip(name[..|name| - |suf|]) != [] || |name| == |suf|) ==>
      r == Strip(name[..|name| - |suf|])
    ensures EndsWith(Lower(name), suf) && Strip(name[..|name| - |suf|]) == [] && |name| != |suf| ==> r == name
  {
    if EndsWith(Lower(name), suf) then
      var temp := Strip(name[..|name| - |suf|]);
      if temp != [] || |name| == |suf| then
        assert temp == [] ==> Lower(name)[|name| - |suf|..] == Lower(name);
        temp
      else name
    else name
  }

  /** On a name without leading whitespace a suffix is only ever cut from the end. */
  lemma StripSuffixPrefix(name: string, suf: string)
    requires name == [] || !IsSpace(name[0])
    ensures var r := StripSuffix(name, suf); r == name[..|r|] && (r == [] || !IsSpace(r[0]))
  {
    if EndsWith(Lower(name), suf) {
      StripOfPrefix(name, |name| - |suf|);
    }
  }

  /** The whole suffix loop: every suffix is tried once, in list order. */
  function StripSuffixes(name: string, sufs: seq<string>): (r: string)
    ensures |r| <= |name|
    decreases |sufs|
  {
    if sufs == [] then name else StripSuffixes(StripSuffix(name, sufs[0]), sufs[1..])
  }

  /** On a name without leading whitespace the suffix loop only ever cuts from the end. */
  lemma {:induction false} StripSuffixesPrefix(name: string, sufs: seq<string>)
    requires name == [] || !IsSpace(name[0])
    ensures var r := StripSuffixes(name, sufs); r == name[..|r|]
    ensures var r := StripSuffixes(name, sufs); r == [] || !IsSpace(r[0])
    decreases |sufs|
  {
    if sufs != [] {
      var next := StripSuffix(name, sufs[0]);
      StripSuffixPrefix(name, sufs[0]);
      StripSuffixesPrefix(next, sufs[1..]);
      var r := StripSuffixes(next, sufs[1..]);
      assert next == name[..|next|];
      assert r == next[..|r|];
    }
  }

  method StripSuffixesLoop(name: string, sufs: seq<string>) returns (r: string)
    ensures r == StripSuffixes(name, sufs)
  {
    r := name;
    for i := 0 to |sufs|
      invariant StripSuffixes(r, sufs[i..]) == StripSuffixes(name, sufs)
    {
      assert sufs[i..][1..] == sufs[i + 1..];
      r := StripSuffix(r, sufs[i]);
    }
    assert sufs[|sufs|..] == [];
  }

  // ---------------------------------------------------------------------------
  // Club prefixes: only the first listed prefix that matches is removed
  // ---------------------------------------------------------------------------

  const ClubPrefixes: seq<string> :=
    ["if ", "fc ", "sc ", "bk ", "sk ", "ac ", "as ", "fk ", "cd ", "ca ", "afc ", "cfr "]

  /** Index of the first prefix in list order that s starts with (|prefixes| when none does). */
  function FirstMatchingPrefix(s: string, prefixes: seq<string>): (k: nat)
    ensures k <= |prefixes|
    ensures forall j :: 0 <= j < k ==> !StartsWith(s, prefixes[j])
    ensures k < |prefixes| ==> StartsWith(s, prefixes[k])
    ensures k == |prefixes| <==> forall j :: 0 <= j < |prefixes| ==> !StartsWith(s, prefixes[j])
  {
    if prefixes == [] then 0
    else if StartsWith(s, prefixes[0]) then 0
    else
      var k := 1 + FirstMatchingPrefix(s, prefixes[1..]);
      assert forall j :: 1 <= j < |prefixes| ==> prefixes[j] == prefixes[1..][j - 1];
      k
  }

  function StripClubPrefix(s: string, prefixes: seq<string>): string
  {
    var k := FirstMatchingPrefix(s, prefixes);
    if k < |prefixes| then Strip(s[|prefixes[k]|..]) else s
  }

  /** The prefix loop; it leaves at the first prefix that matches. */
  method StripClubPrefixLoop(s: string, prefixes: seq<string>) returns (r: string)
    ensures r == StripClubPrefix(s, prefixes)
  {
    var k := 0;
    while k < |prefixes|
      invariant k <= |prefixes|
      invariant forall j :: 0 <= j < k ==> !StartsWith(s, prefixes[j])
    {
      if StartsWith(s, prefixes[k]) {
        assert FirstMatchingPrefix(s, prefixes) == k by {
          var m := FirstMatchingPrefix(s, prefixes);
          assert !(m < k) && !(k < m);
        }
        return Strip(s[|prefixes[k]|..]);
      }
      k := k + 1;
    }
    return s;
  }

  /** Only one prefix goes even when what is left starts with another one. */
  lemma OnePrefixOnly()
    ensures StripClubPrefix("fc sc dnipro", ClubPrefixes) == "sc dnipro"
  {
    assert StartsWith("fc sc dnipro", "fc ");
    assert !StartsWith("fc sc dnipro", "if ");
    assert FirstMatchingPrefix("fc sc dnipro", ClubPrefixes) == 1;
    assert "fc sc dnipro"[3..] == "sc dnipro";
  }

  // ---------------------------------------------------------------------------
  // Aliases, trailing club tag, edge trim, character filter
  // ---------------------------------------------------------------------------

  /** The alias rules, tried in order; the first that applies is the only one applied. */
  function ApplyAlias(s: string): (r: string)
    ensures s == "tottenham hotspur" ==> r == "tottenham"
    ensures s != "tottenham hotspur" && Contains(s, "paris saint germain") ==> r == "psg"
    ensures s != "tottenham hotspur" && !Contains(s, "paris saint germain") && Contains(s, "czechia")
      ==> r == "czech republic"
    ensures (s != "tottenham hotspur" && !Contains(s, "paris saint germain") && !Contains(s, "czechia")
      && Contains(s, "new york")) ==> r == ReplaceAll(s, "new york", "ny")
    ensures (s != "tottenham hotspur" && !Contains(s, "paris saint germain") && !Contains(s, "czechia")
      && !Contains(s, "new york")) ==> r == s
    ensures '\n' !in s ==> '\n' !in r
  {
    if s == "tottenham hotspur" then "tottenham"
    else if Contains(s, "paris saint germain") then "psg"
    else if Contains(s, "czechia") then "czech republic"
    else if Contains(s, "new york") then
      ReplaceAllChars(s, "new york", "ny");
      ReplaceAll(s, "new york", "ny")
    else s
  }

  predicate IsClubTag(t: string) {
    t == "fc" || t == "sc" || t == "cf"
  }

  /** The regex \s+(fc|sc|cf)$ removed, then the name stripped. */
  function DropClubTag(s: string): (r: string)
    ensures forall c :: c in r ==> c in s
  {
    if |s| >= 3 && IsClubTag(s[|s| - 2..]) && IsSpace(s[|s| - 3]) then
      assert forall c :: c in s[..|s| - 2] ==> c in s;
      Strip(s[..|s| - 2])
    else Strip(s)
  }

  function FirstWordIndex(s: string): (k: nat)
    ensures k <= |s|
    ensures forall i :: 0 <= i < k ==> !IsWordChar(s[i])
    ensures k < |s| ==> IsWordChar(s[k])
  {
    if s == [] || IsWordChar(s[0]) then 0 else 1 + FirstWordIndex(s[1..])
  }

  function LastWordEnd(s: string): (e: nat)
    ensures e <= |s|
    ensures forall i :: e <= i < |s| ==> !IsWordChar(s[i])
    ensures e > 0 ==> IsWordChar(s[e - 1])
  {
    if s == [] || IsWordChar(s[|s| - 1]) then |s| else LastWordEnd(s[..|s| - 1])
  }

  /**
   * The regex ^[^\w]*(.*?)[^\w]*$ replaced by its group: the non-word characters at
   * both ends go.  '.' does not cross a newline, so with a '\n' between the first and
   * the last word character the regex fails and the name is kept as it is; with no
   * word character at all the name becomes empty.
   */
  function EdgeTrim(s: string): (r: string)
    ensures r == [] <==> forall i :: 0 <= i < |s| ==> !IsWordChar(s[i])
    ensures r != [] && '\n' !in r ==> IsWordChar(r[0]) && IsWordChar(r[|r| - 1])
    ensures forall c :: c in r ==> c in s
  {
    var f := FirstWordIndex(s);
    if f == |s| then []
    else
      var e := LastWordEnd(s);
      if '\n' in s[f..e] then s
      else
        assert forall c :: c in s[f..e] ==> c in s;
        s[f..e]
  }

  /** Characters kept by re.sub(r'[^\w\s\.\-\+]', '', ...). */
  predicate AllowedChar(c: char) {
    IsWordChar(c) || IsSpace(c) || c == '.' || c == '-' || c == '+'
  }

  // ---------------------------------------------------------------------------
  // normalize_team_name_for_matching
  // ---------------------------------------------------------------------------

  /** Lower-cased, "(...)" groups removed, stripped: the first rewrites of the chain. */
  function LowerNoParens(name: string): string
  {
    Strip(RemoveParens(Lower(name)))
  }

  /** Suffixes, one club prefix, aliases and the trailing club tag. */
  function RewriteWords(s: string): string
  {
    var afterSuffixes := StripSuffixes(s, LeagueSuffixes());
    var afterPrefix := StripClubPrefix(afterSuffixes, ClubPrefixes);
    var afterAlias := ApplyAlias(afterPrefix);
    DropClubTag(afterAlias)
  }

  /** Edge trim, character filter and whitespace collapse. */
  function TidyCharacters(s: string): (r: string)
    ensures r == [] || (!IsSpace(r[0]) && !IsSpace(r[|r| - 1]))
  {
    CollapseSpaces(Filter(EdgeTrim(s), AllowedChar))
  }

  /** The cleaning chain after the lower-casing and the removal of "(...)" groups. */
  function CleanAfterParens(s: string): (r: string)
    ensures r == [] || (!IsSpace(r[0]) && !IsSpace(r[|r| - 1]))
  {
    TidyCharacters(RewriteWords(s))
  }

  /** The cleaned name, or the lower-cased, stripped original when the cleaning left nothing. */
  function OrFallback(cleaned: string, name: string): (r: string)
    requires cleaned == [] || (!IsSpace(cleaned[0]) && !IsSpace(cleaned[|cleaned| - 1]))
    ensures r == [] || (!IsSpace(r[0]) && !IsSpace(r[|r| - 1]))
  {
    if cleaned != [] then cleaned else Strip(Lower(name))
  }

  function NormalizeSpec(name: string): (r: string)
    ensures r == [] || (!IsSpace(r[0]) && !IsSpace(r[|r| - 1]))
  {
    if name == [] then [] else OrFallback(CleanAfterParens(LowerNoParens(name)), name)
  }

  /** normalize_team_name_for_matching, with its two list loops. */
  method NormalizeTeamName(name: string) returns (r: string)
    ensures r == NormalizeSpec(name)
    ensures name == [] ==> r == []
  {
    if name == [] {
      return [];
    }
    var norm := LowerNoParens(name);
    norm := StripSuffixesLoop(norm, LeagueSuffixes());
    norm := StripClubPrefixLoop(norm, ClubPrefixes);
    norm := ApplyAlias(norm);
    norm := DropClubTag(norm);
    norm := EdgeTrim(norm);
    norm := Filter(norm, AllowedChar);
    var final := CollapseSpaces(norm);
    r := if final != [] then final else Strip(Lower(name));
  }

  lemma LowerNewline(s: string)
    requires '\n' !in s
    ensures '\n' !in Lower(s)
  {
    assert forall i :: 0 <= i < |s| ==> Lower(s)[i] != '\n';
  }

  lemma {:induction false} StripSuffixesChars(name: string, sufs: seq<string>)
    ensures forall c :: c in StripSuffixes(name, sufs) ==> c in name
    decreases |sufs|
  {
    if sufs != [] {
      var next := StripSuffix(name, sufs[0]);
      StripSuffixesChars(next, sufs[1..]);
      if EndsWith(Lower(name), sufs[0]) {
        assert forall c :: c in name[..|name| - |sufs[0]|] ==> c in name;
      }
    }
  }

  lemma RewriteWordsNewline(s: string)
    requires '\n' !in s
    ensures '\n' !in RewriteWords(s)
  {
    var afterSuffixes := StripSuffixes(s, LeagueSuffixes());
    StripSuffixesChars(s, LeagueSuffixes());
    var k := FirstMatchingPrefix(afterSuffixes, ClubPrefixes);
    if k < |ClubPrefixes| {
      assert forall c :: c in afterSuffixes[|ClubPrefixes[k]|..] ==> c in afterSuffixes;
    }
  }

  /**
   * Either nothing, or a name that starts and ends with a word character, holds
   * only word characters, whitespace, '.', '-' and '+', and has single spaces
   * between words and no other whitespace.
   */
  predicate CleanShape(c: string) {
    && (forall i :: 0 <= i < |c| ==> AllowedChar(c[i]))
    && (forall i :: 0 <= i < |c| && IsSpace(c[i]) ==> c[i] == ' ')
    && (forall i :: 0 <= i < |c| - 1 && c[i] == ' ' ==> c[i + 1] != ' ')
    && (c != [] ==> IsWordChar(c[0]) && IsWordChar(c[|c| - 1]))
  }

  lemma TidyShape(s: string)
    requires '\n' !in s
    ensures CleanShape(TidyCharacters(s))
  {
    var trimmed := EdgeTrim(s);
    var filtered := Filter(trimmed, AllowedChar);
    var c := CollapseSpaces(filtered);
    CollapseChars(filtered);
    forall i | 0 <= i < |c| ensures AllowedChar(c[i]) {
      assert c[i] in c;
    }
    if c != [] {
      assert filtered != [];
      assert '\n' !in trimmed;
      CollapseEnds(filtered);
    }
  }

  /** What the cleaning path yields when the name holds no newline has the clean shape. */
  lemma CleanedShape(name: string)
    requires '\n' !in name
    ensures CleanShape(CleanAfterParens(LowerNoParens(name)))
  {
    var lowered := Lower(name);
    LowerNewline(name);
    var p := LowerNoParens(name);
    assert '\n' !in p by {
      var q := RemoveParens(lowered);
      assert '\n' !in q;
      assert forall c :: c in Strip(q) ==> c in q;
    }
    var w := RewriteWords(p);
    RewriteWordsNewline(p);
    TidyShape(w);
  }

  /** When the cleaning path leaves nothing, the lower-cased, stripped original is returned. */
  lemma NormalizeFallback(name: string)
    requires name != [] && CleanAfterParens(LowerNoParens(name)) == []
    ensures NormalizeSpec(name) == Strip(Lower(name))
  {
  }

  // ---------------------------------------------------------------------------
  // The game-match decision of parse_specific_game_from_search_html
  // ---------------------------------------------------------------------------

  const SkipIndicators: seq<string> :=
    ["1H", "1st Half", "First Half", "1st 5 Innings", "First Five Innings", "1st Period",
     "2nd Period", "3rd Period", "hits+runs+errors", "h+r+e", "hre", "corners", "series"]

  /** Some skip indicator occurs in the name, ignoring case. */
  predicate HasSkipIndicator(raw: string) {
    exists i :: 0 <= i < |SkipIndicators| && Contains(Lower(raw), Lower(SkipIndicators[i]))
  }

  const FuzzyMatchThreshold: int := 80

  /** A fuzzy scorer (token_set_ratio), absent when the library is not installed. */
  type Scorer = Option<(string, string) -> int>

  /** The scorer is present and rates home against local and away against visitor at the threshold or above. */
  predicate FuzzyAgree(scorer: Scorer, home: string, away: string, local: string, visitor: string) {
    scorer.Some? && scorer.value(home, local) >= FuzzyMatchThreshold && scorer.value(away, visitor) >= FuzzyMatchThreshold
  }

  /**
   * The orientation decision for normalised names: Some(true) when the BetBCK local
   * team is the POD home team, Some(false) when it is the POD away team, None when
   * the game does not match.
   */
  function MatchDecision(home: string, away: string, local: string, visitor: string, scorer: Scorer): (r: Option<bool>)
    ensures home == local && away == visitor ==> r == Some(true)
    ensures !(home == local && away == visitor) && home == visitor && away == local ==> r == Some(false)
    ensures !(home == local && away == visitor) && !(home == visitor && away == local) ==>
      (FuzzyAgree(scorer, home, away, local, visitor) ==> r == Some(true))
    ensures !(home == local && away == visitor) && !(home == visitor && away == local) ==>
      (!FuzzyAgree(scorer, home, away, local, visitor) && FuzzyAgree(scorer, home, away, visitor, local) ==> r == Some(false))
    ensures r.Some? <==>
      (home == local && away == visitor) || (home == visitor && away == local) ||
      FuzzyAgree(scorer, home, away, local, visitor) || FuzzyAgree(scorer, home, away, visitor, local)
    ensures r == Some(true) && !(home == local && away == visitor) ==> FuzzyAgree(scorer, home, away, local, visitor)
    ensures r == Some(false) && !(home == visitor && away == local) ==> FuzzyAgree(scorer, home, away, visitor, local)
  {
    if home == local && away == visitor then Some(true)
    else if home == visitor && away == local then Some(false)
    else if FuzzyAgree(scorer, home, away, local, visitor) then Some(true)
    else if FuzzyAgree(scorer, home, away, visitor, local) then Some(false)
    else None
  }

  /** Without a scorer a game matches only exactly, and swapping its two teams flips the orientation. */
  lemma ExactMatchSymmetric(home: string, away: string, local: string, visitor: string)
    requires home != away
    ensures MatchDecision(home, away, local, visitor, None) ==
      match MatchDecision(home, away, visitor, local, None)
      case None => None
      case Some(b) => Some(!b)
    ensures MatchDecision(home, away, local, visitor, None).Some? <==>
      (home == local && away == visitor) || (home == visitor && away == local)
  {
  }

  /** An exact match is decided before, and independently of, the fuzzy scorer. */
  lemma ExactMatchIgnoresScorer(home: string, away: string, local: string, visitor: string, s1: Scorer, s2: Scorer)
    requires (home == local && away == visitor) || (home == visitor && away == local)
    ensures MatchDecision(home, away, local, visitor, s1) == MatchDecision(home, away, local, visitor, s2)
  {
  }

  /** What the parser sees of one game wrapper table. Missing team cells give empty names. */
  datatype GameWrapper = GameWrapper(rawLocal: string, rawVisitor: string, hasOddsTable: bool, dataRowCount: nat)

  /** The per-wrapper outcome of the matching loop: the orientation flag when this game is taken. */
  function WrapperDecision(w: GameWrapper, normHome: string, normAway: string, scorer: Scorer): (r: Option<bool>)
    ensures r.Some? ==> w.rawLocal != [] && w.rawVisitor != []
    ensures r.Some? ==> !HasSkipIndicator(w.rawLocal) && !HasSkipIndicator(w.rawVisitor)
    ensures r.Some? ==> w.hasOddsTable && w.dataRowCount >= 2
    ensures r.Some? ==> r == MatchDecision(normHome, normAway, NormalizeSpec(w.rawLocal), NormalizeSpec(w.rawVisitor), scorer)
  {
    if w.rawLocal == [] || w.rawVisitor == [] then None
    else if HasSkipIndicator(w.rawLocal) || HasSkipIndicator(w.rawVisitor) then None
    else
      match MatchDecision(normHome, normAway, NormalizeSpec(w.rawLocal), NormalizeSpec(w.rawVisitor), scorer)
      case None => None
      case Some(b) => if !w.hasOddsTable || w.dataRowCount < 2 then None else Some(b)
  }

  method HasSkipIndicatorLoop(raw: string) returns (skip: bool)
    ensures skip == HasSkipIndicator(raw)
  {
    var l := Lower(raw);
    for i := 0 to |SkipIndicators|
      invariant forall j :: 0 <= j < i ==> !Contains(l, Lower(SkipIndicators[j]))
    {
      if Contains(l, Lower(SkipIndicators[i])) {
        return true;
      }
    }
    return false;
  }

  /** One iteration of the wrapper loop, with its four `continue` exits. */
  method DecideWrapper(w: GameWrapper, normHome: string, normAway: string, scorer: Scorer) returns (d: Option<bool>)
    ensures d == WrapperDecision(w, normHome, normAway, scorer)
  {
    if w.rawLocal == [] || w.rawVisitor == [] {
      return None;
    }
    var skipLocal := HasSkipIndicatorLoop(w.rawLocal);
    var skipVisitor := HasSkipIndicatorLoop(w.rawVisitor);
    if skipLocal || skipVisitor {
      return None;
    }
    var normLocal := NormalizeTeamName(w.rawLocal);
    var normVisitor := NormalizeTeamName(w.rawVisitor);
    var decision := MatchDecision(normHome, normAway, normLocal, normVisitor, scorer);
    if decision.None? {
      return None;
    }
    if !w.hasOddsTable || w.dataRowCount < 2 {
      return None;
    }
    return decision;
  }

  /** The decision for every wrapper, in page order. */
  function Decisions(wrappers: seq<GameWrapper>, normHome: string, normAway: string, scorer: Scorer): (ds: seq<Option<bool>>)
    ensures |ds| == |wrappers|
    ensures forall i :: 0 <= i < |wrappers| ==> ds[i] == WrapperDecision(wrappers[i], normHome, normAway, scorer)
  {
    seq(|wrappers|, i requires 0 <= i < |wrappers| => WrapperDecision(wrappers[i], normHome, normAway, scorer))
  }

  /** The first position at or after `from` holding a decision, with the decision. */
  function FirstSome(ds: seq<Option<bool>>, from: nat): Option<(nat, bool)>
    decreases |ds| - from
  {
    if from >= |ds| then None
    else if ds[from].Some? then Some((from, ds[from].value))
    else FirstSome(ds, from + 1)
  }

  /** FirstSome is a first-match search: the position it names holds its decision, and none before it does. */
  lemma {:induction false} FirstSomeIsFirst(ds: seq<Option<bool>>, from: nat)
    ensures FirstSome(ds, from).None? ==> forall i :: from <= i < |ds| ==> ds[i].None?
    ensures FirstSome(ds, from).Some? ==> from <= FirstSome(ds, from).value.0 < |ds|
    ensures FirstSome(ds, from).Some? ==> ds[FirstSome(ds, from).value.0] == Some(FirstSome(ds, from).value.1)
    ensures FirstSome(ds, from).Some? ==> forall i :: from <= i < FirstSome(ds, from).value.0 ==> ds[i].None?
    decreases |ds| - from
  {
    if from < |ds| && ds[from].None? {
      FirstSomeIsFirst(ds, from + 1);
    }
  }

  /** The loop over the game wrappers: the first one that is taken, or None. */
  method ScanWrappers(wrappers: seq<GameWrapper>, normHome: string, normAway: string, scorer: Scorer)
    returns (found: Option<(nat, bool)>)
    ensures found == FirstSome(Decisions(wrappers, normHome, normAway, scorer), 0)
  {
    ghost var ds := Decisions(wrappers, normHome, normAway, scorer);
    for idx := 0 to |wrappers|
      invariant FirstSome(ds, idx) == FirstSome(ds, 0)
    {
      var decision := DecideWrapper(wrappers[idx], normHome, normAway, scorer);
      if decision.Some? {
        return Some((idx, decision.value));
      }
    }
    return None;
  }

  /**
   * The matching part of parse_specific_game_from_search_html: the POD teams are
   * normalised and the first wrapper whose decision is Some is taken.
   */
  method FindMatchingGame(wrappers: seq<GameWrapper>, podHome: string, podAway: string, scorer: Scorer)
    returns (found: Option<(nat, bool)>)
    ensures var ds := Decisions(wrappers, NormalizeSpec(podHome), NormalizeSpec(podAway), scorer);
      found.None? ==> forall i :: 0 <= i < |ds| ==> ds[i].None?
    ensures var ds := Decisions(wrappers, NormalizeSpec(podHome), NormalizeSpec(podAway), scorer);
      found.Some? ==> found.value.0 < |ds| && ds[found.value.0] == Some(found.value.1)
    ensures var ds := Decisions(wrappers, NormalizeSpec(podHome), NormalizeSpec(podAway), scorer);
      found.Some? ==> forall i :: 0 <= i < found.value.0 ==> ds[i].None?
  {
    var normHome := NormalizeTeamName(podHome);
    var normAway := NormalizeTeamName(podAway);
    found := ScanWrappers(wrappers, normHome, normAway, scorer);
    FirstSomeIsFirst(Decisions(wrappers, normHome, normAway, scorer), 0);
  }

  // ---------------------------------------------------------------------------
  // The search query of scrape_betbck_for_game
  // ---------------------------------------------------------------------------

  const LastTokenStopWords: seq<string> := ["fc", "sc", "united", "city", "club", "de", "do", "ac", "if", "bk", "aif", "kc"]
  const FirstTokenStopWords: seq<string> := ["fc", "sc", "ac", "if", "bk", "de", "do", "aif", "kc"]

  /**
   * The query sent to the BetBCK search: the given one when non-empty; otherwise a
   * distinctive word of the normalised home name (its last word when it is longer
   * than 3 characters and not a stop word, else its first word when longer than 2
   * and not a stop word), else the whole normalised name, else the raw home name.
   */
  function DeriveSearchQuery(podHome: string, given: string): (q: string)
    ensures given != [] ==> q == given
    ensures given == [] ==>
      (q == podHome || q == NormalizeSpec(podHome) || (q in Split(NormalizeSpec(podHome)) && |q| > 2))
    ensures given == [] ==> QueryRule(NormalizeSpec(podHome), podHome, q)
  {
    if given != [] then given else QueryFromCleaned(NormalizeSpec(podHome), podHome)
  }

  /** The last word is used when there are several and it is longer than 3 and not a stop word. */
  predicate LastTokenUsable(parts: seq<string>) {
    |parts| > 1 && |parts[|parts| - 1]| > 3 && Lower(parts[|parts| - 1]) !in LastTokenStopWords
  }

  /** The first word is used when it is longer than 2 and not a stop word. */
  predicate FirstTokenUsable(parts: seq<string>) {
    parts != [] && |parts[0]| > 2 && Lower(parts[0]) !in FirstTokenStopWords
  }

  /**
   * The query rule for a cleaned home name: the last word when usable, else the first
   * word when usable, else the cleaned name; the raw name when cleaning left no word.
   */
  predicate QueryRule(cleaned: string, podHome: string, q: string) {
    var parts := Split(cleaned);
    (parts == [] ==> q == podHome) &&
    (LastTokenUsable(parts) ==> q == parts[|parts| - 1]) &&
    (!LastTokenUsable(parts) && FirstTokenUsable(parts) ==> q == parts[0]) &&
    (parts != [] && !LastTokenUsable(parts) && !FirstTokenUsable(parts) ==> q == cleaned)
  }

  function QueryFromCleaned(cleaned: string, podHome: string): (q: string)
    ensures q == podHome || q == cleaned || (q in Split(cleaned) && |q| > 2)
    ensures QueryRule(cleaned, podHome, q)
  {
    var parts := Split(cleaned);
    if parts != [] then
      if LastTokenUsable(parts) then parts[|parts| - 1]
      else if FirstTokenUsable(parts) then parts[0]
      else cleaned
    else podHome
  }

  lemma QueryFromCleanedNonEmpty(cleaned: string, podHome: string)
    requires cleaned == [] || !IsSpace(cleaned[0])
    requires cleaned != [] || podHome != []
    ensures QueryFromCleaned(cleaned, podHome) != []
  {
    if cleaned != [] {
      SplitFirst(cleaned);
    }
  }

  /** A non-empty home name always yields a non-empty query. */
  lemma SearchQueryNonEmpty(podHome: string, given: string)
    requires podHome != [] || given != []
    ensures DeriveSearchQuery(podHome, given) != []
  {
    if given == [] {
      var cleaned := NormalizeSpec(podHome);
      assert podHome != [] ==> cleaned != [] || podHome != [];
      QueryFromCleanedNonEmpty(cleaned, podHome);
    }
  }
}
