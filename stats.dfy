/** Arithmetic means, as the source takes them of price tokens and of sentiment scores. */
module Stats {

  /** Python's `sum`: a left-to-right total. A total of values that are not negative is not negative. */
  function Sum(xs: seq<real>): (s: real)
    ensures (forall i :: 0 <= i < |xs| ==> xs[i] >= 0.0) ==> s >= 0.0
  {
    if xs == [] then 0.0
    else
      assert forall i :: 0 <= i < |xs| - 1 ==> xs[..|xs| - 1][i] == xs[i];
      Sum(xs[..|xs| - 1]) + xs[|xs| - 1]
  }

  /** The total of two runs of values one after the other is the sum of their totals. */
  lemma {:induction false} SumConcat(a: seq<real>, b: seq<real>)
    ensures Sum(a + b) == Sum(a) + Sum(b)
    decreases |b|
  {
    if b == [] {
      assert a + b == a;
    } else {
      var b' := b[..|b| - 1];
      assert (a + b)[..|a + b| - 1] == a + b';
      assert (a + b)[|a + b| - 1] == b[|b| - 1];
      SumConcat(a, b');
    }
  }

  /** The total divided by the count: a mean taken as many times as there are values gives the total. */
  function Mean(xs: seq<real>): (m: real)
    requires |xs| > 0
    ensures m * |xs| as real == Sum(xs)
  {
    Sum(xs) / |xs| as real
  }

  /** The mean of two values is their midpoint. */
  lemma MeanOfTwo(xs: seq<real>)
    requires |xs| == 2
    ensures Mean(xs) == (xs[0] + xs[1]) / 2.0
  {
    assert xs[..1][..0] == [];
    assert Sum(xs[..1]) == xs[0];
    assert Sum(xs) == xs[0] + xs[1];
  }

  function Min(xs: seq<real>): (m: real)
    requires |xs| > 0
    ensures m in xs
    ensures forall i :: 0 <= i < |xs| ==> m <= xs[i]
  {
    if |xs| == 1 then xs[0]
    else
      var m' := Min(xs[..|xs| - 1]);
      assert forall i :: 0 <= i < |xs| - 1 ==> xs[..|xs| - 1][i] == xs[i];
      if xs[|xs| - 1] < m' then xs[|xs| - 1] else m'
  }

  function Max(xs: seq<real>): (m: real)
    requires |xs| > 0
    ensures m in xs
    ensures forall i :: 0 <= i < |xs| ==> xs[i] <= m
  {
    if |xs| == 1 then xs[0]
    else
      var m' := Max(xs[..|xs| - 1]);
      assert forall i :: 0 <= i < |xs| - 1 ==> xs[..|xs| - 1][i] == xs[i];
      if xs[|xs| - 1] > m' then xs[|xs| - 1] else m'
  }

  /** A sum of values in [lo, hi] lies in [n * lo, n * hi]. */
  lemma {:induction false} SumBounds(xs: seq<real>, lo: real, hi: real)
    requires forall i :: 0 <= i < |xs| ==> lo <= xs[i] <= hi
    ensures |xs| as real * lo <= Sum(xs) <= |xs| as real * hi
  {
    if xs != [] {
      var init := xs[..|xs| - 1];
      assert forall i :: 0 <= i < |init| ==> init[i] == xs[i];
      SumBounds(init, lo, hi);
      assert |xs| as real * lo == |init| as real * lo + lo;
      assert |xs| as real * hi == |init| as real * hi + hi;
    }
  }

  /** A mean of values in [lo, hi] lies in [lo, hi]. */
  lemma MeanBounds(xs: seq<real>, lo: real, hi: real)
    requires |xs| > 0
    requires forall i :: 0 <= i < |xs| ==> lo <= xs[i] <= hi
    ensures lo <= Mean(xs) <= hi
  {
    SumBounds(xs, lo, hi);
    QuotientBounds(Sum(xs), |xs| as real, lo, hi);
  }

  /** A total between n * lo and n * hi, divided by n, lies between lo and hi. */
  lemma QuotientBounds(total: real, n: real, lo: real, hi: real)
    requires n > 0.0 && n * lo <= total <= n * hi
    ensures lo <= total / n <= hi
  {
  }

  /** The mean lies between the smallest and the largest value. */
  lemma MeanBetweenMinMax(xs: seq<real>)
    requires |xs| > 0
    ensures Min(xs) <= Mean(xs) <= Max(xs)
  {
    MeanBounds(xs, Min(xs), Max(xs));
  }
}
