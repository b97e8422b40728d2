/** The optional value the Python code expresses with None and the JavaScript code with null. */
module Wrappers {

  datatype Option<+T> = None | Some(value: T) {

    function GetOr(default: T): T {
      match this
      case Some(v) => v
      case None => default
    }
  }

  /** The outcome of a Python call: its value, or the exception it raises. */
  datatype Result<+T> = Ok(value: T) | Raised(error: string)

  /** Apply f to every element in order and keep the present results. */
  function FilterMap<A, B>(xs: seq<A>, f: A -> Option<B>): (r: seq<B>)
    ensures |r| <= |xs|
    ensures forall k :: 0 <= k < |r| ==> exists i :: 0 <= i < |xs| && f(xs[i]) == Some(r[k])
  {
    if xs == [] then []
    else
      var front := FilterMap(xs[..|xs| - 1], f);
      assert forall k :: 0 <= k < |front| ==> exists i :: 0 <= i < |xs| && f(xs[i]) == Some(front[k]) by {
        forall k | 0 <= k < |front| ensures exists i :: 0 <= i < |xs| && f(xs[i]) == Some(front[k]) {
          var i :| 0 <= i < |xs| - 1 && f(xs[..|xs| - 1][i]) == Some(front[k]);
          assert xs[..|xs| - 1][i] == xs[i];
        }
      }
      match f(xs[|xs| - 1])
      case Some(y) => front + [y]
      case None => front
  }

  /** When f is present everywhere, FilterMap keeps one result per element, in order. */
  lemma {:induction false} FilterMapAllPresent<A, B>(xs: seq<A>, f: A -> Option<B>)
    requires forall i :: 0 <= i < |xs| ==> f(xs[i]).Some?
    ensures |FilterMap(xs, f)| == |xs|
    ensures forall i :: 0 <= i < |xs| ==> f(xs[i]) == Some(FilterMap(xs, f)[i])
  {
    if xs != [] {
      var front := xs[..|xs| - 1];
      assert forall i :: 0 <= i < |front| ==> front[i] == xs[i];
      FilterMapAllPresent(front, f);
    }
  }

  /** Appending an element appends its result, if present. */
  lemma FilterMapSnoc<A, B>(xs: seq<A>, x: A, f: A -> Option<B>)
    ensures FilterMap(xs + [x], f) == FilterMap(xs, f) + (if f(x).Some? then [f(x).value] else [])
  {
    assert (xs + [x])[..|xs|] == xs;
  }

  lemma FilterMapPrefix<A, B>(xs: seq<A>, i: nat, f: A -> Option<B>)
    requires i < |xs|
    ensures FilterMap(xs[..i + 1], f) == FilterMap(xs[..i], f) + (if f(xs[i]).Some? then [f(xs[i]).value] else [])
  {
    FilterMapSnoc(xs[..i], xs[i], f);
    assert xs[..i] + [xs[i]] == xs[..i + 1];
  }

  /** The loop that applies f to each element in turn and appends each present result. */
  method CollectPresent<A, B>(xs: seq<A>, f: A -> Option<B>) returns (r: seq<B>)
    ensures r == FilterMap(xs, f)
  {
    r := [];
    for i := 0 to |xs|
      invariant r == FilterMap(xs[..i], f)
    {
      var o := f(xs[i]);
      FilterMapPrefix(xs, i, f);
      if o.Some? {
        r := r + [o.value];
      }
    }
    assert xs[..|xs|] == xs;
  }
}
