// Running mean and variance of latencies (rust/src/io_metrics.rs), in exact reals.
module RunningStats {

  function Sum(xs: seq<real>): real {
    if xs == [] then 0.0 else Sum(xs[..|xs| - 1]) + xs[|xs| - 1]
  }

  // The two-pass form: the sum of squared distances from `m`.
  function SquaredDeviations(xs: seq<real>, m: real): real {
    if xs == [] then 0.0
    else
      var d := xs[|xs| - 1] - m;
      SquaredDeviations(xs[..|xs| - 1], m) + d * d
  }

  function Mean(xs: seq<real>): real
    requires xs != []
  {
    Sum(xs) / |xs| as real
  }

  // (x - k)^2 around another centre m.
  lemma SquareShift(x: real, m: real, k: real)
    ensures (x - k) * (x - k) == (x - m) * (x - m) + 2.0 * (m - k) * (x - m) + (m - k) * (m - k)
  {
    var a, t := x - m, m - k;
    assert x - k == a + t;
    assert (a + t) * (a + t) == a * a + 2.0 * t * a + t * t;
  }

  // What moving the centre adds to the squares of `c` samples summing to `s`.
  function Shift(s: real, c: real, m: real, t: real): real { 2.0 * t * (s - c * m) + c * t * t }

  lemma ShiftSnoc(s: real, c: real, m: real, t: real, x: real)
    ensures Shift(s + x, c + 1.0, m, t) == Shift(s, c, m, t) + 2.0 * t * (x - m) + t * t
  {
    var a, b := s - c * m, x - m;
    assert (s + x) - (c + 1.0) * m == a + b;
    assert 2.0 * t * (a + b) == 2.0 * t * a + 2.0 * t * b;
    assert (c + 1.0) * t * t == c * t * t + t * t;
  }

  // Moving the centre of the squares: what the second pass has to correct for.
  lemma {:induction false} Recentre(xs: seq<real>, m: real, k: real)
    ensures SquaredDeviations(xs, k) == SquaredDeviations(xs, m) + Shift(Sum(xs), |xs| as real, m, m - k)
  {
    if xs != [] {
      var n := |xs| - 1;
      Recentre(xs[..n], m, k);
      SquareShift(xs[n], m, k);
      ShiftSnoc(Sum(xs[..n]), n as real, m, m - k, xs[n]);
      hide Shift;
      assert |xs| as real == n as real + 1.0;
    }
  }

  lemma {:induction false} DeviationsNonNegative(xs: seq<real>, m: real)
    ensures SquaredDeviations(xs, m) >= 0.0
  {
    if xs != [] {
      DeviationsNonNegative(xs[..|xs| - 1], m);
      var d := xs[|xs| - 1] - m;
      assert d * d >= 0.0;
    }
  }

  // The arithmetic of one update: `d` is the distance of the sample from the
  // old mean, `t` the step of the mean.
  lemma UpdateStep(n: real, d: real, t: real)
    requires d == (n + 1.0) * t
    ensures n * t * t + (d - t) * (d - t) == d * (d - t)
  {
    assert n * t == d - t;
    assert n * t * t == (d - t) * t;
    assert (d - t) * t + (d - t) * (d - t) == (d - t) * (t + (d - t));
  }

  lemma Quotient(d: real, c: real)
    requires c > 0.0
    ensures c * (d / c) == d
  {
  }

  lemma Snoc(xs: seq<real>, x: real, m: real)
    ensures Sum(xs + [x]) == Sum(xs) + x
    ensures SquaredDeviations(xs + [x], m) == SquaredDeviations(xs, m) + (x - m) * (x - m)
  {
    assert (xs + [x])[..|xs|] == xs;
  }

  lemma MeanStep(n: real, mean: real, d: real, t: real, s: real, x: real)
    requires n * mean == s && d == x - mean && (n + 1.0) * t == d
    ensures (n + 1.0) * (mean + t) == s + x
  {
    assert (n + 1.0) * (mean + t) == n * mean + mean + (n + 1.0) * t;
  }

  lemma DeviationStep(xs: seq<real>, mean: real, x: real, t: real)
    requires |xs| as real * mean == Sum(xs) && (|xs| as real + 1.0) * t == x - mean
    ensures SquaredDeviations(xs, mean) + (x - mean) * (x - (mean + t)) == SquaredDeviations(xs + [x], mean + t)
  {
    hide Shift, Sum, SquaredDeviations;
    var n, d := |xs| as real, x - mean;
    Recentre(xs, mean, mean + t);
    ShiftOfMean(Sum(xs), n, mean, mean - (mean + t));
    Snoc(xs, x, mean + t);
    SquareOfNegation(n, mean - (mean + t), t);
    UpdateStep(n, d, t);
    assert x - (mean + t) == d - t;
  }

  lemma SquareOfNegation(n: real, u: real, t: real)
    requires u == -t
    ensures n * u * u == n * t * t
  {
    assert u * u == t * t;
    assert n * u * u == n * (u * u) && n * t * t == n * (t * t);
  }

  // The state after one more sample, in terms of the samples so far.
  lemma UpdateExact(xs: seq<real>, mean: real, deviations: real, x: real)
    requires |xs| as real * mean == Sum(xs) && deviations == SquaredDeviations(xs, mean)
    ensures var count := |xs| as real + 1.0;
      var mean' := mean + (x - mean) / count;
      && count * mean' == Sum(xs + [x])
      && deviations + (x - mean) * (x - mean') == SquaredDeviations(xs + [x], mean')
  {
    hide Sum, SquaredDeviations;
    var count := |xs| as real + 1.0;
    var t := (x - mean) / count;
    Quotient(x - mean, count);
    MeanStep(|xs| as real, mean, x - mean, t, Sum(xs), x);
    Snoc(xs, x, mean + t);
    DeviationStep(xs, mean, x, t);
  }

  // Around the mean the cross term vanishes.
  lemma ShiftOfMean(s: real, c: real, m: real, t: real)
    requires c * m == s
    ensures Shift(s, c, m, t) == c * t * t
  {
    assert 2.0 * t * (s - c * m) == 0.0;
  }

  class RunningStats {
    var count: nat
    var bytes: nat
    var mean: real
    var squaredDeviationSum: real
    ghost var samples: seq<real>
    ghost var transferred: seq<nat>

    ghost predicate Valid()
      reads this
    {
      && count == |samples| == |transferred|
      && bytes == Total(transferred)
      && count as real * mean == Sum(samples)
      && squaredDeviationSum == SquaredDeviations(samples, mean)
      && (count == 0 ==> mean == 0.0)
    }

    constructor ()
      ensures Valid() && samples == [] && transferred == []
    {
      count, bytes, mean, squaredDeviationSum := 0, 0, 0.0, 0.0;
      samples, transferred := [], [];
    }

    method Record(latency: real, bytes: nat)
      requires Valid()
      modifies this
      ensures Valid() && samples == old(samples) + [latency] && transferred == old(transferred) + [bytes]
    {
      hide Sum, SquaredDeviations, Total;
      UpdateExact(samples, mean, squaredDeviationSum, latency);
      TotalSnoc(transferred, bytes);
      count := count + 1;
      this.bytes := this.bytes + bytes;
      var delta := latency - mean;
      mean := mean + delta / count as real;
      var deltaAfterMeanUpdate := latency - mean;
      squaredDeviationSum := squaredDeviationSum + delta * deltaAfterMeanUpdate;
      samples := samples + [latency];
      transferred := transferred + [bytes];
    }

    // The reported count, byte total, mean and variance are the two-pass ones;
    // the clamp at zero never bites.
    method Snapshot() returns (requestCount: nat, totalBytes: nat, average: real, variance: real)
      requires Valid()
      ensures requestCount == |samples| && totalBytes == Total(transferred)
      ensures samples == [] ==> average == 0.0 && variance == 0.0
      ensures samples != [] ==>
        average == Mean(samples) && variance == SquaredDeviations(samples, average) / |samples| as real
      ensures variance >= 0.0
    {
      requestCount, totalBytes, average := count, bytes, mean;
      DeviationsNonNegative(samples, mean);
      if count == 0 {
        variance := 0.0;
      } else {
        var quotient := squaredDeviationSum / count as real;
        QuotientNonNegative(squaredDeviationSum, count as real);
        QuotientUnique(mean, count as real, Sum(samples));
        variance := if quotient > 0.0 then quotient else 0.0;
      }
    }
  }

  function Total(xs: seq<nat>): nat {
    if xs == [] then 0 else Total(xs[..|xs| - 1]) + xs[|xs| - 1]
  }

  lemma TotalSnoc(xs: seq<nat>, x: nat)
    ensures Total(xs + [x]) == Total(xs) + x
  {
    assert (xs + [x])[..|xs|] == xs;
  }

  lemma QuotientNonNegative(a: real, b: real)
    requires a >= 0.0 && b > 0.0
    ensures a / b >= 0.0
  {
    assert a == (a / b) * b;
  }

  lemma QuotientUnique(q: real, b: real, a: real)
    requires b > 0.0 && b * q == a
    ensures a / b == q
  {
    assert (q * b) / b == q;
  }

  // -------------------------------------------------------------------------
  // Arrival order

  lemma {:induction false} SumSplit(a: seq<real>, b: seq<real>)
    ensures Sum(a + b) == Sum(a) + Sum(b)
    decreases |b|
  {
    if b == [] {
      assert a + b == a;
    } else {
      assert (a + b)[..|a + b| - 1] == a + b[..|b| - 1];
      SumSplit(a, b[..|b| - 1]);
    }
  }

  lemma {:induction false} DeviationsSplit(a: seq<real>, b: seq<real>, m: real)
    ensures SquaredDeviations(a + b, m) == SquaredDeviations(a, m) + SquaredDeviations(b, m)
    decreases |b|
  {
    if b == [] {
      assert a + b == a;
    } else {
      assert (a + b)[..|a + b| - 1] == a + b[..|b| - 1];
      DeviationsSplit(a, b[..|b| - 1], m);
    }
  }

  function Without(xs: seq<real>, k: nat): seq<real>
    requires k < |xs|
  {
    xs[..k] + xs[k + 1..]
  }

  lemma WithoutMultiset(xs: seq<real>, k: nat)
    requires k < |xs|
    ensures multiset(xs) == multiset(Without(xs, k)) + multiset{xs[k]}
  {
    assert xs == xs[..k] + ([xs[k]] + xs[k + 1..]);
  }

  lemma CancelOne(a: multiset<real>, b: multiset<real>, x: real)
    requires a + multiset{x} == b + multiset{x}
    ensures a == b
  {
    forall y ensures a[y] == b[y] {
      assert (a + multiset{x})[y] == (b + multiset{x})[y];
    }
  }

  // Taking out one sample takes out its share, wherever it is.
  lemma WithoutSums(xs: seq<real>, k: nat, m: real)
    requires k < |xs|
    ensures Sum(xs) == Sum(Without(xs, k)) + xs[k]
    ensures SquaredDeviations(xs, m) == SquaredDeviations(Without(xs, k), m) + SquaredDeviations([xs[k]], m)
  {
    hide SquaredDeviations;
    var x, head, tail := xs[k], xs[..k], xs[k + 1..];
    assert xs == head + ([x] + tail);
    assert Sum([x]) == x by { assert [x][..0] == []; }
    SumSplit(head, [x] + tail);
    SumSplit([x], tail);
    SumSplit(head, tail);
    DeviationsSplit(head, [x] + tail, m);
    DeviationsSplit([x], tail, m);
    DeviationsSplit(head, tail, m);
  }

  // The same samples in any order have the same sum and the same squares, hence
  // the same mean and variance.
  lemma {:induction false} OrderDoesNotMatter(a: seq<real>, b: seq<real>, m: real)
    requires multiset(a) == multiset(b)
    ensures |a| == |b| && Sum(a) == Sum(b) && SquaredDeviations(a, m) == SquaredDeviations(b, m)
    decreases |a|
  {
    assert |multiset(a)| == |a| && |multiset(b)| == |b|;
    if a == [] {
      assert b == [];
    } else {
      hide Sum, SquaredDeviations, Without;
      assert a[0] in multiset(b);
      var k :| 0 <= k < |b| && b[k] == a[0];
      WithoutMultiset(a, 0);
      WithoutMultiset(b, k);
      CancelOne(multiset(Without(a, 0)), multiset(Without(b, k)), a[0]);
      WithoutShorter(a, 0);
      OrderDoesNotMatter(Without(a, 0), Without(b, k), m);
      WithoutSums(a, 0, m);
      WithoutSums(b, k, m);
    }
  }

  lemma WithoutShorter(xs: seq<real>, k: nat)
    requires k < |xs|
    ensures |Without(xs, k)| == |xs| - 1
  {
  }
}
