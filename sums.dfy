/** Sums of sequences of reals, as Python's sum() computes them under exact arithmetic. */
module Sums {

  function Sum(xs: seq<real>): real {
    if xs == [] then 0.0 else Sum(xs[..|xs| - 1]) + xs[|xs| - 1]
  }

  /** Every element divided by c. */
  function Divided(xs: seq<real>, c: real): (r: seq<real>)
    requires c != 0.0
    ensures |r| == |xs| && forall i :: 0 <= i < |xs| ==> r[i] == xs[i] / c
  {
    seq(|xs|, i requires 0 <= i < |xs| => xs[i] / c)
  }

  /** n copies of v. */
  function Constant(n: nat, v: real): (r: seq<real>)
    ensures |r| == n && forall i :: 0 <= i < n ==> r[i] == v
  {
    seq(n, _ => v)
  }

  lemma {:induction false} SumAppend(a: seq<real>, b: seq<real>)
    ensures Sum(a + b) == Sum(a) + Sum(b)
  {
    if b != [] {
      assert (a + b)[..|a + b| - 1] == a + b[..|b| - 1];
      SumAppend(a, b[..|b| - 1]);
    } else {
      assert a + b == a;
    }
  }

  lemma {:induction false} SumDivided(xs: seq<real>, c: real)
    requires c != 0.0
    ensures Sum(Divided(xs, c)) == Sum(xs) / c
  {
    if xs != [] {
      var front, last := xs[..|xs| - 1], xs[|xs| - 1];
      var d := Divided(xs, c);
      assert d[..|xs| - 1] == Divided(front, c);
      assert Sum(d) == Sum(Divided(front, c)) + last / c;
      SumDivided(front, c);
      DivisionAdds(Sum(front), last, c);
    }
  }

  lemma DivisionAdds(a: real, b: real, c: real)
    requires c != 0.0
    ensures a / c + b / c == (a + b) / c
  {
  }

  lemma {:induction false} SumConstant(n: nat, v: real)
    ensures Sum(Constant(n, v)) == n as real * v
  {
    if n > 0 {
      assert Constant(n, v)[..n - 1] == Constant(n - 1, v);
      SumConstant(n - 1, v);
    }
  }

  /** A non-empty sequence of positive reals has a positive sum. */
  lemma {:induction false} SumPositive(xs: seq<real>)
    requires xs != [] && forall i :: 0 <= i < |xs| ==> xs[i] > 0.0
    ensures Sum(xs) > 0.0
  {
    var front := xs[..|xs| - 1];
    if front != [] {
      assert forall i :: 0 <= i < |front| ==> front[i] == xs[i];
      SumPositive(front);
    }
  }

  /** Dividing by its own sum gives a sequence that sums to one. */
  lemma Normalises(xs: seq<real>, c: real)
    requires c != 0.0 && Sum(xs) == c
    ensures Sum(Divided(xs, c)) == 1.0
  {
    SumDivided(xs, c);
  }

  lemma Uniform(n: nat)
    requires n > 0
    ensures Sum(Constant(n, 1.0 / n as real)) == 1.0
  {
    SumConstant(n, 1.0 / n as real);
  }
}
