/** Sums and means over lists of numbers, as `sum(xs) / len(xs) if xs else 0.0`
    (backend/app/rag/agent.py) and `mean(hits) if hits else 0.0`
    (backend/app/evaluation/run_eval.py) compute them. */
module Stats {

  /** `sum(xs)`, accumulated left to right. */
  function Sum(xs: seq<real>): real
    decreases |xs|
  {
    if xs == [] then 0.0 else Sum(xs[..|xs| - 1]) + xs[|xs| - 1]
  }

  /** The arithmetic mean, or 0.0 for an empty list. */
  function MeanOrZero(xs: seq<real>): real {
    if xs == [] then 0.0 else Sum(xs) / (|xs| as real)
  }

  /** Bounding every element bounds the sum by the count times the bound. */
  lemma {:induction false} SumBounds(xs: seq<real>, lo: real, hi: real)
    requires forall i :: 0 <= i < |xs| ==> lo <= xs[i] <= hi
    ensures (|xs| as real) * lo <= Sum(xs) <= (|xs| as real) * hi
    decreases |xs|
  {
    if xs != [] {
      var init := xs[..|xs| - 1];
      assert forall i :: 0 <= i < |init| ==> init[i] == xs[i];
      SumBounds(init, lo, hi);
      assert (|xs| as real) * lo == (|init| as real) * lo + lo;
      assert (|xs| as real) * hi == (|init| as real) * hi + hi;
    }
  }

  /** The mean of a non-empty list lies between any lower and upper bound of its
      elements; the empty list's "mean" is 0.0. */
  lemma MeanBetween(xs: seq<real>, lo: real, hi: real)
    requires forall i :: 0 <= i < |xs| ==> lo <= xs[i] <= hi
    ensures xs == [] ==> MeanOrZero(xs) == 0.0
    ensures xs != [] ==> lo <= MeanOrZero(xs) <= hi
  {
    if xs != [] {
      SumBounds(xs, lo, hi);
      var n := |xs| as real;
      var s := Sum(xs);
      QuotientBounds(s, n, lo, hi);
    }
  }

  /** Dividing `n * lo <= s <= n * hi` by a positive `n`. */
  lemma QuotientBounds(s: real, n: real, lo: real, hi: real)
    requires n > 0.0 && n * lo <= s <= n * hi
    ensures lo <= s / n <= hi
  {
    var q := s / n;
    assert s == q * n;
    CancelFactor(lo, q, n);
    CancelFactor(q, hi, n);
  }

  lemma CancelFactor(a: real, b: real, n: real)
    requires n > 0.0 && a * n <= b * n
    ensures a <= b
  {
    assert (b - a) * n == b * n - a * n;
  }

  /** Number of elements equal to `v`. */
  function Count(xs: seq<real>, v: real): nat
    decreases |xs|
  {
    if xs == [] then 0
    else Count(xs[..|xs| - 1], v) + (if xs[|xs| - 1] == v then 1 else 0)
  }

  /** A list of 0.0s and 1.0s sums to the number of 1.0s in it. */
  lemma {:induction false} SumOfIndicators(xs: seq<real>)
    requires forall i :: 0 <= i < |xs| ==> xs[i] == 0.0 || xs[i] == 1.0
    ensures Sum(xs) == Count(xs, 1.0) as real
    decreases |xs|
  {
    if xs != [] {
      var init := xs[..|xs| - 1];
      assert forall i :: 0 <= i < |init| ==> init[i] == xs[i];
      SumOfIndicators(init);
    }
  }

  /** The 1.0s fill the whole list exactly when every element is 1.0. */
  lemma {:induction false} CountAllIff(xs: seq<real>, v: real)
    ensures Count(xs, v) <= |xs|
    ensures Count(xs, v) == |xs| <==> forall i :: 0 <= i < |xs| ==> xs[i] == v
    decreases |xs|
  {
    if xs != [] {
      var init := xs[..|xs| - 1];
      assert forall i :: 0 <= i < |init| ==> init[i] == xs[i];
      CountAllIff(init, v);
    }
  }
}
