/** Order-preserving "keep and convert" over a sequence, the shape of a
    `for` loop that appends a converted element or `continue`s. */
module Filtering {
  import opened Options

  /** The converted elements `f` keeps, in input order. */
  function FilterMap<T, U>(xs: seq<T>, f: T -> Option<U>): (ys: seq<U>)
    ensures |ys| <= |xs|
  {
    if xs == [] then []
    else
      var last := f(xs[|xs| - 1]);
      FilterMap(xs[..|xs| - 1], f) + (if last.Some? then [last.value] else [])
  }

  /** Number of elements satisfying `p`. */
  function CountWhere<T>(xs: seq<T>, p: T -> bool): (n: nat)
    ensures n <= |xs|
  {
    if xs == [] then 0
    else CountWhere(xs[..|xs| - 1], p) + (if p(xs[|xs| - 1]) then 1 else 0)
  }

  lemma FilterMapStep<T, U>(xs: seq<T>, f: T -> Option<U>, i: nat)
    requires i < |xs|
    ensures FilterMap(xs[..i + 1], f) ==
      FilterMap(xs[..i], f) + (if f(xs[i]).Some? then [f(xs[i]).value] else [])
  {
    assert xs[..i + 1][..i] == xs[..i];
  }

  /** One output per element that `f` keeps. */
  lemma {:induction false} FilterMapLength<T, U>(xs: seq<T>, f: T -> Option<U>, p: T -> bool)
    requires forall x :: f(x).Some? <==> p(x)
    ensures |FilterMap(xs, f)| == CountWhere(xs, p)
    decreases |xs|
  {
    if xs != [] {
      FilterMapLength(xs[..|xs| - 1], f, p);
    }
  }

  /** A kept element's output sits at the position given by the number of
      outputs produced before it. */
  lemma {:induction false} FilterMapPosition<T, U>(xs: seq<T>, f: T -> Option<U>, i: nat)
    requires i < |xs| && f(xs[i]).Some?
    ensures |FilterMap(xs[..i], f)| < |FilterMap(xs, f)|
    ensures FilterMap(xs, f)[|FilterMap(xs[..i], f)|] == f(xs[i]).value
    decreases |xs|
  {
    var n := |xs| - 1;
    if i < n {
      FilterMapPosition(xs[..n], f, i);
      assert xs[..n][..i] == xs[..i];
      assert xs[..n][i] == xs[i];
    } else {
      assert xs[..i] == xs[..n];
    }
  }

  /** Every output is the conversion of some kept element. */
  lemma {:induction false} FilterMapOrigin<T, U>(xs: seq<T>, f: T -> Option<U>, k: nat)
    requires k < |FilterMap(xs, f)|
    ensures exists i :: 0 <= i < |xs| && f(xs[i]).Some? && FilterMap(xs, f)[k] == f(xs[i]).value
    decreases |xs|
  {
    var n := |xs| - 1;
    var prefix := FilterMap(xs[..n], f);
    if k < |prefix| {
      FilterMapOrigin(xs[..n], f, k);
      var i :| 0 <= i < |xs[..n]| && f(xs[..n][i]).Some? && prefix[k] == f(xs[..n][i]).value;
      assert xs[..n][i] == xs[i];
    } else {
      assert f(xs[n]).Some?;
    }
  }

  /** Some element is counted exactly when some element satisfies `p`. */
  lemma {:induction false} CountWherePositive<T>(xs: seq<T>, p: T -> bool)
    ensures CountWhere(xs, p) > 0 <==> exists i :: 0 <= i < |xs| && p(xs[i])
    decreases |xs|
  {
    if xs != [] {
      var n := |xs| - 1;
      CountWherePositive(xs[..n], p);
      if exists i :: 0 <= i < |xs| && p(xs[i]) {
        var i :| 0 <= i < |xs| && p(xs[i]);
        if i < n {
          assert xs[..n][i] == xs[i];
        }
      }
    }
  }

  lemma CountWhereStep<T>(xs: seq<T>, p: T -> bool, i: nat)
    requires i < |xs|
    ensures CountWhere(xs[..i + 1], p) == CountWhere(xs[..i], p) + (if p(xs[i]) then 1 else 0)
  {
    assert xs[..i + 1][..i] == xs[..i];
  }

  /** Every element is counted by exactly one of two complementary tests. */
  lemma {:induction false} CountWhereComplement<T>(xs: seq<T>, p: T -> bool, q: T -> bool)
    requires forall x :: q(x) <==> !p(x)
    ensures CountWhere(xs, p) + CountWhere(xs, q) == |xs|
    decreases |xs|
  {
    if xs != [] {
      CountWhereComplement(xs[..|xs| - 1], p, q);
    }
  }
}
