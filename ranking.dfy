/**
 * Ordering by a key on the extended reals: the stable descending sort that
 * Array.prototype.sort performs with a comparator of the form key(b) - key(a).
 * A comparator value of NaN (Infinity minus Infinity) counts as a tie, as in
 * the sort algorithm's own definition, so equal infinities tie.
 */
module Ranking {

  datatype Ext = NegInf | Fin(x: real) | PosInf

  /** a >= b in the extended order. */
  predicate AtLeast(a: Ext, b: Ext) {
    match (a, b)
    case (PosInf, _) => true
    case (_, NegInf) => true
    case (Fin(x), Fin(y)) => x >= y
    case _ => false
  }

  lemma AtLeastTotal(a: Ext, b: Ext)
    ensures AtLeast(a, b) || AtLeast(b, a)
  {
  }

  lemma AtLeastTransitive(a: Ext, b: Ext, c: Ext)
    requires AtLeast(a, b) && AtLeast(b, c)
    ensures AtLeast(a, c)
  {
  }

  /** Every element's key is at least that of every later element. */
  predicate Descending<T>(xs: seq<T>, key: T -> Ext) {
    forall i, j :: 0 <= i < j < |xs| ==> AtLeast(key(xs[i]), key(xs[j]))
  }

  /** A head that ranks at least as high as every element of a descending tail. */
  lemma ConsDescending<T>(h: T, rest: seq<T>, key: T -> Ext)
    requires Descending(rest, key)
    requires forall j :: 0 <= j < |rest| ==> AtLeast(key(h), key(rest[j]))
    ensures Descending([h] + rest, key)
  {
    var r := [h] + rest;
    forall i, j | 0 <= i < j < |r|
      ensures AtLeast(key(r[i]), key(r[j]))
    {
      assert r[j] == rest[j - 1];
      if i > 0 {
        assert r[i] == rest[i - 1];
      }
    }
  }

  /** Insert x after every element whose key is at least x's, so earlier ties stay first. */
  function Insert<T>(x: T, xs: seq<T>, key: T -> Ext): (r: seq<T>)
    requires Descending(xs, key)
    ensures |r| == |xs| + 1
    ensures multiset(r) == multiset(xs) + multiset{x}
    ensures forall y :: y in r ==> y in xs || y == x
    ensures Descending(r, key)
  {
    if xs == [] then [x]
    else if AtLeast(key(xs[0]), key(x)) then
      var rest := Insert(x, xs[1..], key);
      assert xs == [xs[0]] + xs[1..];
      HeadRanksFirst(x, xs, rest, key);
      ConsDescending(xs[0], rest, key);
      [xs[0]] + rest
    else
      AtLeastTotal(key(xs[0]), key(x));
      forall j | 0 <= j < |xs|
        ensures AtLeast(key(x), key(xs[j]))
      {
        if j > 0 {
          AtLeastTransitive(key(x), key(xs[0]), key(xs[j]));
        }
      }
      ConsDescending(x, xs, key);
      [x] + xs
  }

  lemma HeadRanksFirst<T>(x: T, xs: seq<T>, rest: seq<T>, key: T -> Ext)
    requires xs != [] && Descending(xs, key) && AtLeast(key(xs[0]), key(x))
    requires forall y :: y in rest ==> y in xs[1..] || y == x
    ensures forall j :: 0 <= j < |rest| ==> AtLeast(key(xs[0]), key(rest[j]))
  {
    forall j | 0 <= j < |rest|
      ensures AtLeast(key(xs[0]), key(rest[j]))
    {
      var y := rest[j];
      assert y in rest;
      if y != x {
        var k :| 0 <= k < |xs[1..]| && xs[1..][k] == y;
        assert xs[k + 1] == y;
      }
    }
  }

  /** Insertion sort, descending by key and stable. */
  function SortDesc<T>(xs: seq<T>, key: T -> Ext): (r: seq<T>)
    ensures |r| == |xs|
    ensures multiset(r) == multiset(xs)
    ensures Descending(r, key)
  {
    if xs == [] then []
    else
      var init := xs[..|xs| - 1];
      assert xs == init + [xs[|xs| - 1]];
      Insert(xs[|xs| - 1], SortDesc(init, key), key)
  }

  /** The elements whose key is k, in their order in xs. */
  function WithKey<T>(xs: seq<T>, key: T -> Ext, k: Ext): (r: seq<T>)
    ensures |r| <= |xs|
  {
    if xs == [] then []
    else (if key(xs[0]) == k then [xs[0]] else []) + WithKey(xs[1..], key, k)
  }

  /** Inserting x appends it to the elements sharing its key and leaves the other ties alone. */
  lemma {:induction false} InsertKeepsTies<T>(x: T, xs: seq<T>, key: T -> Ext, k: Ext)
    requires Descending(xs, key)
    ensures WithKey(Insert(x, xs, key), key, k)
      == WithKey(xs, key, k) + (if key(x) == k then [x] else [])
  {
    if xs == [] {
      assert Insert(x, xs, key) == [x];
      WithKeySingle(x, key, k);
    } else if AtLeast(key(xs[0]), key(x)) {
      var rest := Insert(x, xs[1..], key);
      assert Insert(x, xs, key) == [xs[0]] + rest;
      InsertKeepsTies(x, xs[1..], key, k);
      TiesAfterHead(x, xs, rest, key, k);
    } else {
      assert Insert(x, xs, key) == [x] + xs;
      TiesBeforeHead(x, xs, key, k);
    }
  }

  /** Inserting past the head: the head's tie, then the ties of the inserted rest. */
  lemma TiesAfterHead<T>(x: T, xs: seq<T>, rest: seq<T>, key: T -> Ext, k: Ext)
    requires xs != []
    requires WithKey(rest, key, k) == WithKey(xs[1..], key, k) + (if key(x) == k then [x] else [])
    ensures WithKey([xs[0]] + rest, key, k)
      == WithKey(xs, key, k) + (if key(x) == k then [x] else [])
  {
    WithKeyCons(xs[0], rest, key, k);
    assert xs == [xs[0]] + xs[1..];
    WithKeyCons(xs[0], xs[1..], key, k);
  }

  /** Inserting in front of a head that ranks below x: no element of xs shares x's key. */
  lemma TiesBeforeHead<T>(x: T, xs: seq<T>, key: T -> Ext, k: Ext)
    requires xs != [] && Descending(xs, key) && !AtLeast(key(xs[0]), key(x))
    ensures WithKey([x] + xs, key, k)
      == WithKey(xs, key, k) + (if key(x) == k then [x] else [])
  {
    WithKeyCons(x, xs, key, k);
    if key(x) == k {
      NoTies(xs, key, k);
    }
  }

  /** When the head of a descending sequence ranks below k, no element has key k. */
  lemma NoTies<T>(xs: seq<T>, key: T -> Ext, k: Ext)
    requires xs != [] && Descending(xs, key) && !AtLeast(key(xs[0]), k)
    ensures WithKey(xs, key, k) == []
  {
    forall j | 0 <= j < |xs|
      ensures key(xs[j]) != k
    {
      if j > 0 {
        assert AtLeast(key(xs[0]), key(xs[j]));
      }
    }
    NoneWithKey(xs, key, k);
  }

  lemma {:induction false} NoneWithKey<T>(xs: seq<T>, key: T -> Ext, k: Ext)
    requires forall j :: 0 <= j < |xs| ==> key(xs[j]) != k
    ensures WithKey(xs, key, k) == []
  {
    if xs != [] {
      assert forall j :: 0 <= j < |xs[1..]| ==> xs[1..][j] == xs[j + 1];
      NoneWithKey(xs[1..], key, k);
    }
  }

  lemma WithKeyCons<T>(h: T, t: seq<T>, key: T -> Ext, k: Ext)
    ensures WithKey([h] + t, key, k) == (if key(h) == k then [h] else []) + WithKey(t, key, k)
  {
    assert ([h] + t)[0] == h && ([h] + t)[1..] == t;
  }

  /**
   * Stability: the sort keeps the elements of every key in their original order,
   * so it only moves elements past elements with a different key.
   */
  lemma {:induction false} SortDescStable<T>(xs: seq<T>, key: T -> Ext, k: Ext)
    ensures WithKey(SortDesc(xs, key), key, k) == WithKey(xs, key, k)
  {
    if xs != [] {
      var init := xs[..|xs| - 1];
      var last := xs[|xs| - 1];
      var s := SortDesc(init, key);
      assert SortDesc(xs, key) == Insert(last, s, key);
      SortDescStable(init, key, k);
      InsertKeepsTies(last, s, key, k);
      assert xs == init + [last];
      WithKeyAppend(init, [last], key, k);
      WithKeySingle(last, key, k);
    }
  }

  lemma WithKeySingle<T>(x: T, key: T -> Ext, k: Ext)
    ensures WithKey([x], key, k) == (if key(x) == k then [x] else [])
  {
    assert [x][1..] == [];
  }

  lemma {:induction false} WithKeyAppend<T>(a: seq<T>, b: seq<T>, key: T -> Ext, k: Ext)
    ensures WithKey(a + b, key, k) == WithKey(a, key, k) + WithKey(b, key, k)
  {
    if a == [] {
      assert a + b == b;
    } else {
      assert (a + b)[0] == a[0] && (a + b)[1..] == a[1..] + b;
      WithKeyAppend(a[1..], b, key, k);
    }
  }

  /** A sequence already in descending order comes back unchanged. */
  lemma {:induction false} SortDescOfSorted<T>(xs: seq<T>, key: T -> Ext)
    requires Descending(xs, key)
    ensures SortDesc(xs, key) == xs
  {
    if xs != [] {
      var init := xs[..|xs| - 1];
      var last := xs[|xs| - 1];
      assert xs == init + [last];
      assert Descending(init, key) by {
        forall i, j | 0 <= i < j < |init|
          ensures AtLeast(key(init[i]), key(init[j]))
        {
          assert init[i] == xs[i] && init[j] == xs[j];
        }
      }
      SortDescOfSorted(init, key);
      InsertLast(last, init, key);
    }
  }

  /** x goes to the end when every element ranks at least as high. */
  lemma {:induction false} InsertLast<T>(x: T, xs: seq<T>, key: T -> Ext)
    requires Descending(xs, key)
    requires forall j :: 0 <= j < |xs| ==> AtLeast(key(xs[j]), key(x))
    ensures Insert(x, xs, key) == xs + [x]
  {
    if xs != [] {
      assert AtLeast(key(xs[0]), key(x));
      assert forall j :: 0 <= j < |xs[1..]| ==> xs[1..][j] == xs[j + 1];
      InsertLast(x, xs[1..], key);
      assert xs == [xs[0]] + xs[1..];
    }
  }

  /** The first n of the sorted sequence take the elements of each key in their original order. */
  lemma TopKeepsTieOrder<T>(xs: seq<T>, key: T -> Ext, n: nat, k: Ext)
    requires n <= |xs|
    ensures WithKey(SortDesc(xs, key)[..n], key, k) <= WithKey(xs, key, k)
  {
    var s := SortDesc(xs, key);
    assert s == s[..n] + s[n..];
    WithKeyAppend(s[..n], s[n..], key, k);
    SortDescStable(xs, key, k);
  }

  /** The first k of a sorted sequence rank at least as high as all the others. */
  lemma TopRanksFirst<T>(xs: seq<T>, key: T -> Ext, k: nat)
    requires k <= |xs|
    ensures var s := SortDesc(xs, key);
      multiset(s[..k]) + multiset(s[k..]) == multiset(xs) &&
      forall i, j :: 0 <= i < k <= j < |xs| ==> AtLeast(key(s[i]), key(s[j]))
  {
    var s := SortDesc(xs, key);
    SplitRanks(s, key, k);
  }

  /** Splitting a descending sequence at k: the parts hold the whole, and the front ranks first. */
  lemma SplitRanks<T>(s: seq<T>, key: T -> Ext, k: nat)
    requires k <= |s| && Descending(s, key)
    ensures multiset(s[..k]) + multiset(s[k..]) == multiset(s)
    ensures forall i, j :: 0 <= i < k <= j < |s| ==> AtLeast(key(s[i]), key(s[j]))
  {
    assert s == s[..k] + s[k..];
  }

  /** An element left out of the first k of a sorted sequence ranks no higher than any of them. */
  lemma LeftOutRanksLower<T>(xs: seq<T>, key: T -> Ext, k: nat, e: T)
    requires k <= |xs| && e in xs && e !in SortDesc(xs, key)[..k]
    ensures forall i :: 0 <= i < k ==> AtLeast(key(SortDesc(xs, key)[..k][i]), key(e))
  {
    var s := SortDesc(xs, key);
    TopRanksFirst(xs, key, k);
    assert e in multiset(xs);
    var j :| 0 <= j < |s| && s[j] == e;
    forall t | 0 <= t < k
      ensures s[t] != e && s[..k][t] == s[t]
    {
      assert s[t] == s[..k][t];
    }
  }
}
