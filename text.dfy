/**
 * ASCII approximations of the string primitives the Python and JavaScript
 * code relies on: character classes (\w, \s, digits), lower-casing,
 * strip/split/join, substring search, prefix/suffix tests and replacement.
 */
module Text {

  /** Python's str.isspace / regex \s on the six common ASCII blanks; the separators \x1c-\x1f are not included. */
  predicate IsSpace(c: char) {
    c == ' ' || c == '\t' || c == '\n' || c == '\r' || c == '\U{000B}' || c == '\U{000C}'
  }

  predicate IsDigit(c: char) {
    '0' <= c <= '9'
  }

  predicate IsUpper(c: char) {
    'A' <= c <= 'Z'
  }

  predicate IsLetter(c: char) {
    'a' <= c <= 'z' || IsUpper(c)
  }

  /** Regex \w restricted to ASCII: letters, digits and underscore. */
  predicate IsWordChar(c: char) {
    IsLetter(c) || IsDigit(c) || c == '_'
  }

  function LowerChar(c: char): (r: char)
    ensures !IsUpper(r)
    ensures IsUpper(c) ==> r as int == c as int + 32
    ensures !IsUpper(c) ==> r == c
  {
    if IsUpper(c) then (c as int + 32) as char else c
  }

  /** str.lower() / toLowerCase() on ASCII letters; other characters are kept. */
  function Lower(s: string): (r: string)
    ensures |r| == |s|
    ensures forall i :: 0 <= i < |s| ==> r[i] == LowerChar(s[i])
  {
    seq(|s|, i requires 0 <= i < |s| => LowerChar(s[i]))
  }

  predicate NoUpper(s: string) {
    forall i :: 0 <= i < |s| ==> !IsUpper(s[i])
  }

  predicate NoSpace(s: string) {
    forall i :: 0 <= i < |s| ==> !IsSpace(s[i])
  }

  function TrimStart(s: string): (r: string)
    ensures |r| <= |s|
    ensures r == [] || !IsSpace(r[0])
  {
    if s != [] && IsSpace(s[0]) then TrimStart(s[1..]) else s
  }

  function TrimEnd(s: string): (r: string)
    ensures |r| <= |s|
    ensures r == [] || !IsSpace(r[|r| - 1])
  {
    if s != [] && IsSpace(s[|s| - 1]) then TrimEnd(s[..|s| - 1]) else s
  }

  /** TrimStart drops a leading run of whitespace and keeps the rest. */
  lemma {:induction false} TrimStartShape(s: string)
    ensures var r := TrimStart(s); r == s[|s| - |r|..]
    ensures forall i :: 0 <= i < |s| - |TrimStart(s)| ==> IsSpace(s[i])
    decreases |s|
  {
    if s != [] && IsSpace(s[0]) {
      TrimStartShape(s[1..]);
      var r := TrimStart(s[1..]);
      assert s[1..][|s| - 1 - |r|..] == s[|s| - |r|..];
      forall i | 0 < i < |s| - |r| ensures IsSpace(s[i]) {
        assert s[i] == s[1..][i - 1];
      }
    }
  }

  /** TrimEnd drops a trailing run of whitespace and keeps the rest. */
  lemma {:induction false} TrimEndShape(s: string)
    ensures var r := TrimEnd(s); r == s[..|r|]
    ensures forall i :: |TrimEnd(s)| <= i < |s| ==> IsSpace(s[i])
    decreases |s|
  {
    if s != [] && IsSpace(s[|s| - 1]) {
      TrimEndShape(s[..|s| - 1]);
      var r := TrimEnd(s[..|s| - 1]);
      assert s[..|s| - 1][..|r|] == s[..|r|];
      forall i | |r| <= i < |s| - 1 ensures IsSpace(s[i]) {
        assert s[i] == s[..|s| - 1][i];
      }
    }
  }

  /** str.strip() with no argument. */
  function Strip(s: string): (r: string)
    ensures r == [] || (!IsSpace(r[0]) && !IsSpace(r[|r| - 1]))
    ensures |r| <= |s|
    ensures forall c :: c in r ==> c in s
    ensures (s == [] || (!IsSpace(s[0]) && !IsSpace(s[|s| - 1]))) ==> r == s
  {
    StripEnds(s);
    StripChars(s);
    TrimEnd(TrimStart(s))
  }

  /** Both trims leave non-whitespace ends, and change nothing when the ends already are. */
  lemma StripEnds(s: string)
    ensures var r := TrimEnd(TrimStart(s));
      && (r == [] || (!IsSpace(r[0]) && !IsSpace(r[|r| - 1])))
      && ((s == [] || (!IsSpace(s[0]) && !IsSpace(s[|s| - 1]))) ==> r == s)
  {
    var t := TrimStart(s);
    TrimEndShape(t);
    var r := TrimEnd(t);
    assert r != [] ==> r[0] == t[0];
  }

  /** Both trims only drop characters. */
  lemma StripChars(s: string)
    ensures var r := TrimEnd(TrimStart(s)); |r| <= |s| && forall c :: c in r ==> c in s
  {
    var t := TrimStart(s);
    TrimStartShape(s);
    TrimEndShape(t);
    var r := TrimEnd(t);
    assert forall c :: c in r ==> c in t;
    assert forall c :: c in t ==> c in s;
  }

  /** Only an all-whitespace string strips to nothing. */
  lemma StripEmpty(s: string)
    requires Strip(s) == []
    ensures forall i :: 0 <= i < |s| ==> IsSpace(s[i])
  {
    var t := TrimStart(s);
    TrimStartShape(s);
    TrimEndShape(t);
  }

  /** On a string that has no leading whitespace, stripping a prefix of it gives a prefix of it. */
  lemma StripOfPrefix(s: string, k: nat)
    requires k <= |s|
    requires s == [] || !IsSpace(s[0])
    ensures Strip(s[..k]) == s[..|Strip(s[..k])|]
  {
    var t := s[..k];
    assert TrimStart(t) == t;
    TrimEndShape(t);
  }

  /** Length of the leading run of whitespace (regex \s* at the start). */
  function SpaceRun(s: string): (k: nat)
    ensures k <= |s|
    ensures forall i :: 0 <= i < k ==> IsSpace(s[i])
    ensures k < |s| ==> !IsSpace(s[k])
  {
    if s != [] && IsSpace(s[0]) then 1 + SpaceRun(s[1..]) else 0
  }

  /** Leading maximal run of non-whitespace characters. */
  function TakeToken(s: string): (r: string)
    ensures |r| <= |s| && r == s[..|r|]
    ensures NoSpace(r)
    ensures |r| < |s| ==> IsSpace(s[|r|])
  {
    if s == [] || IsSpace(s[0]) then [] else [s[0]] + TakeToken(s[1..])
  }

  /** str.split() with no argument: the maximal runs of non-whitespace, in order. */
  function Split(s: string): (parts: seq<string>)
    ensures forall i :: 0 <= i < |parts| ==> parts[i] != [] && NoSpace(parts[i])
    decreases |s|
  {
    if s == [] then []
    else if IsSpace(s[0]) then Split(s[1..])
    else
      var w := TakeToken(s);
      [w] + Split(s[|w|..])
  }

  /** " ".join(parts) */
  function JoinSpace(parts: seq<string>): string
  {
    if parts == [] then []
    else if |parts| == 1 then parts[0]
    else parts[0] + " " + JoinSpace(parts[1..])
  }

  /** " ".join(s.split()): every whitespace run becomes one space, none at either end. */
  function CollapseSpaces(s: string): (r: string)
    ensures r == [] || (!IsSpace(r[0]) && !IsSpace(r[|r| - 1]))
    ensures forall i :: 0 <= i < |r| && IsSpace(r[i]) ==> r[i] == ' '
    ensures forall i :: 0 <= i < |r| - 1 && r[i] == ' ' ==> r[i + 1] != ' '
  {
    var parts := Split(s);
    JoinProperties(parts);
    JoinSpace(parts)
  }

  lemma {:induction false} JoinProperties(parts: seq<string>)
    requires forall i :: 0 <= i < |parts| ==> parts[i] != [] && NoSpace(parts[i])
    ensures var r := JoinSpace(parts);
      && (r == [] || (!IsSpace(r[0]) && !IsSpace(r[|r| - 1])))
      && (forall i :: 0 <= i < |r| && IsSpace(r[i]) ==> r[i] == ' ')
      && (forall i :: 0 <= i < |r| - 1 && r[i] == ' ' ==> r[i + 1] != ' ')
      && (parts == [] <==> r == [])
  {
    if |parts| > 1 {
      JoinProperties(parts[1..]);
      var rest := JoinSpace(parts[1..]);
      var r := parts[0] + " " + rest;
      assert r == JoinSpace(parts);
      forall i | 0 <= i < |r| && IsSpace(r[i]) ensures r[i] == ' ' {
        if i > |parts[0]| { assert r[i] == rest[i - |parts[0]| - 1]; }
      }
      forall i | 0 <= i < |r| - 1 && r[i] == ' ' ensures r[i + 1] != ' ' {
        if i > |parts[0]| { assert r[i] == rest[i - |parts[0]| - 1]; assert r[i + 1] == rest[i - |parts[0]|]; }
        else if i == |parts[0]| { assert r[i + 1] == rest[0]; }
      }
    }
  }

  lemma {:induction false} SplitChars(s: string)
    ensures forall i, c :: 0 <= i < |Split(s)| && c in Split(s)[i] ==> c in s
    decreases |s|
  {
    if s == [] {
    } else if IsSpace(s[0]) {
      SplitChars(s[1..]);
      assert Split(s) == Split(s[1..]);
      assert forall c :: c in s[1..] ==> c in s;
    } else {
      var w := TakeToken(s);
      var rest := s[|w|..];
      SplitChars(rest);
      assert Split(s) == [w] + Split(rest);
      assert forall c :: c in rest ==> c in s;
      assert forall c :: c in w ==> c in s;
    }
  }

  lemma SplitFirst(s: string)
    requires s != [] && !IsSpace(s[0])
    ensures Split(s) != [] && Split(s)[0] != [] && Split(s)[0][0] == s[0]
  {
    var w := TakeToken(s);
    assert w != [];
    assert Split(s) == [w] + Split(s[|w|..]);
  }

  lemma {:induction false} SplitLast(s: string)
    requires s != [] && !IsSpace(s[|s| - 1])
    ensures Split(s) != []
    ensures var p := Split(s)[|Split(s)| - 1]; p != [] && p[|p| - 1] == s[|s| - 1]
    decreases |s|
  {
    if IsSpace(s[0]) {
      SplitLast(s[1..]);
      assert Split(s) == Split(s[1..]);
    } else {
      var w := TakeToken(s);
      var rest := s[|w|..];
      assert Split(s) == [w] + Split(rest);
      if rest == [] {
        assert Split(rest) == [];
        assert w == s;
      } else {
        SplitLast(rest);
      }
    }
  }

  lemma {:induction false} JoinEnds(parts: seq<string>)
    requires parts != [] && forall i :: 0 <= i < |parts| ==> parts[i] != []
    ensures var r := JoinSpace(parts);
      r != [] && r[0] == parts[0][0] && r[|r| - 1] == parts[|parts| - 1][|parts[|parts| - 1]| - 1]
  {
    if |parts| > 1 {
      var tail := parts[1..];
      assert forall i :: 0 <= i < |tail| ==> tail[i] == parts[i + 1];
      JoinEnds(tail);
      var j := JoinSpace(tail);
      var head := parts[0] + " ";
      assert JoinSpace(parts) == head + j;
      assert (head + j)[0] == head[0];
      assert (head + j)[|head| + |j| - 1] == j[|j| - 1];
      assert tail[|tail| - 1] == parts[|parts| - 1];
    }
  }

  lemma {:induction false} JoinChars(parts: seq<string>)
    ensures forall c :: c in JoinSpace(parts) ==> c == ' ' || exists i :: 0 <= i < |parts| && c in parts[i]
  {
    if |parts| > 1 {
      JoinChars(parts[1..]);
      forall c | c in JoinSpace(parts) ensures c == ' ' || exists i :: 0 <= i < |parts| && c in parts[i] {
        if c in parts[0] {
        } else if c != ' ' {
          assert c in JoinSpace(parts[1..]);
          var i :| 0 <= i < |parts[1..]| && c in parts[1..][i];
          assert c in parts[i + 1];
        }
      }
    } else if |parts| == 1 {
      assert forall c :: c in JoinSpace(parts) ==> c in parts[0];
    }
  }

  /** Collapsing whitespace keeps a non-space first and last character in place. */
  lemma CollapseEnds(s: string)
    requires s != [] && !IsSpace(s[0]) && !IsSpace(s[|s| - 1])
    ensures var r := CollapseSpaces(s); r != [] && r[0] == s[0] && r[|r| - 1] == s[|s| - 1]
  {
    SplitFirst(s);
    SplitLast(s);
    JoinEnds(Split(s));
  }

  /** Collapsing whitespace only introduces ' ' characters. */
  lemma CollapseChars(s: string)
    ensures forall c :: c in CollapseSpaces(s) ==> c == ' ' || c in s
  {
    SplitChars(s);
    JoinChars(Split(s));
  }

  predicate StartsWith(s: string, p: string) {
    |p| <= |s| && s[..|p|] == p
  }

  predicate EndsWith(s: string, p: string) {
    |p| <= |s| && s[|s| - |p|..] == p
  }

  /** Python's `pat in s`. */
  predicate Contains(s: string, pat: string)
    decreases |s|
  {
    StartsWith(s, pat) || (s != [] && Contains(s[1..], pat))
  }

  lemma {:induction false} ContainsAt(s: string, pat: string, i: nat)
    requires i + |pat| <= |s| && s[i..i + |pat|] == pat
    ensures Contains(s, pat)
    decreases i
  {
    if i > 0 {
      assert s[1..][i - 1..i - 1 + |pat|] == s[i..i + |pat|];
      ContainsAt(s[1..], pat, i - 1);
    }
  }

  lemma {:induction false} ContainsWitness(s: string, pat: string) returns (i: nat)
    requires Contains(s, pat)
    ensures i + |pat| <= |s| && s[i..i + |pat|] == pat
    decreases |s|
  {
    if StartsWith(s, pat) {
      i := 0;
    } else {
      var j := ContainsWitness(s[1..], pat);
      assert s[1..][j..j + |pat|] == s[j + 1..j + 1 + |pat|];
      i := j + 1;
    }
  }

  /** A pattern whose first character does not occur is not contained. */
  lemma {:induction false} NotContains(s: string, pat: string)
    requires pat != [] && pat[0] !in s
    ensures !Contains(s, pat)
    decreases |s|
  {
    if s != [] {
      assert s[0] != pat[0];
      assert s[1..] == s[1..] && forall c :: c in s[1..] ==> c in s;
      NotContains(s[1..], pat);
    }
  }

  /** str.replace(pat, rep): every non-overlapping occurrence, scanning left to right. */
  function ReplaceAll(s: string, pat: string, rep: string): (r: string)
    requires pat != []
    ensures !Contains(s, pat) ==> r == s
    decreases |s|
  {
    if |s| < |pat| then s
    else if StartsWith(s, pat) then rep + ReplaceAll(s[|pat|..], pat, rep)
    else [s[0]] + ReplaceAll(s[1..], pat, rep)
  }

  lemma {:induction false} ReplaceAllChars(s: string, pat: string, rep: string)
    requires pat != []
    ensures forall c :: c in ReplaceAll(s, pat, rep) ==> c in s || c in rep
    decreases |s|
  {
    if |s| < |pat| {
    } else if StartsWith(s, pat) {
      ReplaceAllChars(s[|pat|..], pat, rep);
    } else {
      ReplaceAllChars(s[1..], pat, rep);
    }
  }

  /** Replace every occurrence of one character by a (possibly empty) string. */
  function ReplaceChar(s: string, c: char, rep: string): (r: string)
    ensures c !in s ==> r == s
  {
    if s == [] then []
    else (if s[0] == c then rep else [s[0]]) + ReplaceChar(s[1..], c, rep)
  }

  lemma {:induction false} ReplaceCharRemoves(s: string, c: char, rep: string)
    requires c !in rep
    ensures c !in ReplaceChar(s, c, rep)
  {
    if s != [] {
      ReplaceCharRemoves(s[1..], c, rep);
    }
  }

  /** str.split(sep) with a one-character separator: |result| == occurrences + 1. */
  function SplitOn(s: string, sep: char): (parts: seq<string>)
    ensures |parts| >= 1
    ensures sep !in s ==> parts == [s]
    ensures forall i :: 0 <= i < |parts| ==> sep !in parts[i]
  {
    if s == [] then [[]]
    else
      var rest := SplitOn(s[1..], sep);
      if s[0] == sep then [[]] + rest
      else
        assert sep !in s ==> rest == [s[1..]] && [s[0]] + s[1..] == s;
        [[s[0]] + rest[0]] + rest[1..]
  }

  /** Keep the characters satisfying a predicate. */
  function Filter(s: string, keep: char -> bool): (r: string)
    ensures forall i :: 0 <= i < |r| ==> keep(r[i])
    ensures forall c :: c in r ==> c in s
    ensures (forall i :: 0 <= i < |s| ==> keep(s[i])) ==> r == s
    ensures s != [] && keep(s[0]) ==> r != [] && r[0] == s[0]
    ensures s != [] && keep(s[|s| - 1]) ==> r != [] && r[|r| - 1] == s[|s| - 1]
  {
    if s == [] then []
    else (if keep(s[0]) then [s[0]] else []) + Filter(s[1..], keep)
  }

  /** A prefix that cannot start an occurrence of the pattern passes through replacement unchanged. */
  lemma {:induction false} ReplaceAllSkip(p: string, t: string, pat: string, rep: string)
    requires pat != [] && pat[0] !in p
    ensures ReplaceAll(p + t, pat, rep) == p + ReplaceAll(t, pat, rep)
    decreases |p|
  {
    if p == [] {
      assert p + t == t;
    } else {
      assert (p + t)[1..] == p[1..] + t;
      ReplaceAllSkip(p[1..], t, pat, rep);
      if |p + t| >= |pat| {
        assert (p + t)[0] == p[0] && p[0] != pat[0];
        assert !StartsWith(p + t, pat);
        assert ReplaceAll(p + t, pat, rep) == [p[0]] + ReplaceAll(p[1..] + t, pat, rep);
        assert [p[0]] + (p[1..] + ReplaceAll(t, pat, rep)) == p + ReplaceAll(t, pat, rep) by {
          assert [p[0]] + p[1..] == p;
        }
      } else {
        assert ReplaceAll(t, pat, rep) == t;
        assert ReplaceAll(p + t, pat, rep) == p + t;
      }
    }
  }

  /** Splitting on a separator that occurs exactly once gives the two sides. */
  lemma {:induction false} SplitOnPair(a: string, sep: char, b: string)
    requires sep !in a && sep !in b
    ensures SplitOn(a + [sep] + b, sep) == [a, b]
    decreases |a|
  {
    if a == [] {
      assert ([sep] + b)[1..] == b;
    } else {
      assert (a + [sep] + b)[1..] == a[1..] + [sep] + b;
      SplitOnPair(a[1..], sep, b);
      assert [a[0]] + a[1..] == a;
    }
  }
}
