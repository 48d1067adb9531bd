/**
 * Exact arithmetic over sequences of reals: sums, means, sample variances
 * (denominator n - 1, as pandas' `var(ddof=1)`) and extremes.  Floating point
 * is not modelled; every value is an exact `real`.
 */
module Stats {
  import opened Wrappers

  function Sum(xs: seq<real>): real
  {
    if |xs| == 0 then 0.0 else xs[0] + Sum(xs[1..])
  }

  lemma {:induction false} SumAppend(a: seq<real>, b: seq<real>)
    ensures Sum(a + b) == Sum(a) + Sum(b)
  {
    if |a| == 0 {
      assert a + b == b;
    } else {
      assert (a + b)[1..] == a[1..] + b;
      SumAppend(a[1..], b);
    }
  }

  /** Every element lies in [lo, hi], so the sum lies in [n * lo, n * hi]. */
  lemma {:induction false} SumBounds(xs: seq<real>, lo: real, hi: real)
    requires forall i :: 0 <= i < |xs| ==> lo <= xs[i] <= hi
    ensures (|xs| as real) * lo <= Sum(xs) <= (|xs| as real) * hi
  {
    if |xs| > 0 {
      SumBounds(xs[1..], lo, hi);
    }
  }

  lemma {:induction false} SumNonNegative(xs: seq<real>)
    requires forall i :: 0 <= i < |xs| ==> xs[i] >= 0.0
    ensures Sum(xs) >= 0.0
  {
    if |xs| > 0 {
      SumNonNegative(xs[1..]);
    }
  }

  lemma {:induction false} SumConstant(xs: seq<real>, c: real)
    requires forall i :: 0 <= i < |xs| ==> xs[i] == c
    ensures Sum(xs) == (|xs| as real) * c
  {
    if |xs| > 0 {
      SumConstant(xs[1..], c);
    }
  }

  /** Arithmetic mean of a non-empty sequence. */
  function Mean(xs: seq<real>): real
    requires |xs| > 0
  {
    Sum(xs) / (|xs| as real)
  }

  /** The mean of values in [lo, hi] lies in [lo, hi]. */
  lemma MeanBounds(xs: seq<real>, lo: real, hi: real)
    requires |xs| > 0
    requires forall i :: 0 <= i < |xs| ==> lo <= xs[i] <= hi
    ensures lo <= Mean(xs) <= hi
  {
    SumBounds(xs, lo, hi);
    var n := |xs| as real;
    var m := Mean(xs);
    assert m * n == Sum(xs);
    if m < lo {
      assert m * n < lo * n;
    }
    if m > hi {
      assert m * n > hi * n;
    }
  }

  /** A sequence whose every element is c has mean c. */
  lemma MeanConstant(xs: seq<real>, c: real)
    requires |xs| > 0
    requires forall i :: 0 <= i < |xs| ==> xs[i] == c
    ensures Mean(xs) == c
  {
    SumConstant(xs, c);
  }

  lemma SquareNonNegative(d: real)
    ensures d * d >= 0.0
  {
    if d < 0.0 {
      assert d * d == (-d) * (-d);
    }
  }

  lemma Distribute(h: real, a: real, b: real)
    ensures h * (a + b) == h * a + h * b
  {
  }

  lemma Commute(a: real, b: real)
    ensures a * b == b * a
  {
  }

  lemma Associate(a: real, b: real, c: real)
    ensures (a * b) * c == a * (b * c)
  {
  }

  /** A non-negative factor preserves the ordering 0 <= x <= hi. */
  lemma ProductBounds(w: real, x: real, hi: real)
    requires w >= 0.0 && 0.0 <= x <= hi
    ensures 0.0 <= w * x <= w * hi
  {
    assert w * (hi - x) == w * hi - w * x;
    assert 0.0 <= w * (hi - x);
  }

  /** Sum of squared deviations from m. */
  function SquaredDeviations(xs: seq<real>, m: real): (r: real)
    ensures r >= 0.0
  {
    if |xs| == 0 then 0.0
    else
      SquareNonNegative(xs[0] - m);
      (xs[0] - m) * (xs[0] - m) + SquaredDeviations(xs[1..], m)
  }

  lemma {:induction false} SquaredDeviationsConstant(xs: seq<real>, c: real)
    requires forall i :: 0 <= i < |xs| ==> xs[i] == c
    ensures SquaredDeviations(xs, c) == 0.0
  {
    if |xs| > 0 {
      SquaredDeviationsConstant(xs[1..], c);
    }
  }

  /**
   * Sample variance (denominator n - 1).  Like pandas, it is undefined for
   * fewer than two values.
   */
  function SampleVariance(xs: seq<real>): (v: Option<real>)
    ensures v.Some? <==> |xs| >= 2
    ensures v.Some? ==> v.value >= 0.0
  {
    if |xs| < 2 then None else Some(Variance(xs))
  }

  /** The sample variance of at least two values. */
  function Variance(xs: seq<real>): (v: real)
    requires |xs| >= 2
    ensures v >= 0.0
  {
    SquaredDeviations(xs, Mean(xs)) / ((|xs| - 1) as real)
  }

  /** A constant sequence has sample variance zero. */
  lemma VarianceConstant(xs: seq<real>, c: real)
    requires |xs| >= 2
    requires forall i :: 0 <= i < |xs| ==> xs[i] == c
    ensures SampleVariance(xs) == Some(0.0)
  {
    MeanConstant(xs, c);
    SquaredDeviationsConstant(xs, c);
  }

  function Min(xs: seq<real>): (m: real)
    requires |xs| > 0
    ensures m in xs
    ensures forall i :: 0 <= i < |xs| ==> m <= xs[i]
  {
    if |xs| == 1 then xs[0]
    else
      var rest := Min(xs[1..]);
      assert forall i :: 1 <= i < |xs| ==> xs[i] == xs[1..][i - 1];
      if xs[0] <= rest then xs[0] else rest
  }

  function Max(xs: seq<real>): (m: real)
    requires |xs| > 0
    ensures m in xs
    ensures forall i :: 0 <= i < |xs| ==> xs[i] <= m
  {
    if |xs| == 1 then xs[0]
    else
      var rest := Max(xs[1..]);
      assert forall i :: 1 <= i < |xs| ==> xs[i] == xs[1..][i - 1];
      if xs[0] >= rest then xs[0] else rest
  }

  /** The mean lies between the smallest and the largest value. */
  lemma MeanBetweenExtremes(xs: seq<real>)
    requires |xs| > 0
    ensures Min(xs) <= Mean(xs) <= Max(xs)
  {
    MeanBounds(xs, Min(xs), Max(xs));
  }

  /** Every element multiplied by c. */
  function Scale(xs: seq<real>, c: real): (ys: seq<real>)
    ensures |ys| == |xs| && forall i :: 0 <= i < |xs| ==> ys[i] == c * xs[i]
  {
    seq(|xs|, i requires 0 <= i < |xs| => c * xs[i])
  }

  lemma ScaleTail(xs: seq<real>, c: real)
    requires |xs| > 0
    ensures Scale(xs, c)[1..] == Scale(xs[1..], c)
  {
    var a := Scale(xs, c)[1..];
    var b := Scale(xs[1..], c);
    forall i | 0 <= i < |a|
      ensures a[i] == b[i]
    {
      assert a[i] == Scale(xs, c)[i + 1];
    }
  }

  lemma {:induction false} SumScale(xs: seq<real>, c: real)
    ensures Sum(Scale(xs, c)) == c * Sum(xs)
  {
    if |xs| > 0 {
      ScaleTail(xs, c);
      SumScale(xs[1..], c);
      Distribute(c, xs[0], Sum(xs[1..]));
    }
  }

  lemma MeanScale(xs: seq<real>, c: real)
    requires |xs| > 0
    ensures Mean(Scale(xs, c)) == c * Mean(xs)
  {
    SumScale(xs, c);
    var n := |xs| as real;
    assert Mean(Scale(xs, c)) == (c * Sum(xs)) / n;
  }

  lemma ScaledSquare(x: real, m: real, c: real)
    ensures (c * x - c * m) * (c * x - c * m) == (c * c) * ((x - m) * (x - m))
  {
    assert c * x - c * m == c * (x - m);
    var d := x - m;
    assert (c * d) * (c * d) == (c * c) * (d * d);
  }

  lemma {:induction false} SquaredDeviationsScale(xs: seq<real>, m: real, c: real)
    ensures SquaredDeviations(Scale(xs, c), c * m) == (c * c) * SquaredDeviations(xs, m)
  {
    if |xs| > 0 {
      ScaleTail(xs, c);
      SquaredDeviationsScale(xs[1..], m, c);
      ScaledSquare(xs[0], m, c);
      Distribute(c * c, (xs[0] - m) * (xs[0] - m), SquaredDeviations(xs[1..], m));
    }
  }

  lemma MulDiv(a: real, q: real, d: real)
    requires d != 0.0
    ensures (a * q) / d == a * (q / d)
  {
    assert (q / d) * d == q;
    Associate(a, q / d, d);
  }

  lemma ScaledQuotient(v: real, w: real, s: real, q: real, k: real, d: real)
    requires d != 0.0 && v == s / d && w == q / d && s == k * q
    ensures v == k * w
  {
    MulDiv(k, q, d);
  }

  /** Scaling the values by c scales the sample variance by c squared. */
  lemma VarianceScale(xs: seq<real>, c: real)
    requires |xs| >= 2
    ensures Variance(Scale(xs, c)) == (c * c) * Variance(xs)
  {
    MeanScale(xs, c);
    var m := Mean(xs);
    SquaredDeviationsScale(xs, m, c);
    assert SquaredDeviations(Scale(xs, c), c * m) == (c * c) * SquaredDeviations(xs, m);
    var d := (|xs| - 1) as real;
    var q := SquaredDeviations(xs, m);
    assert Variance(xs) == q / d;
    var ys := Scale(xs, c);
    assert Mean(ys) == c * m;
    assert ((|ys| - 1) as real) == d;
    var sd := SquaredDeviations(ys, Mean(ys));
    assert Variance(ys) == sd / d;
    assert sd == (c * c) * q;
    ScaledQuotient(Variance(ys), Variance(xs), sd, q, c * c, d);
  }
}
