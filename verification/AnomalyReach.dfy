// Exactly when a detector can fire at all, and that it looks at both sides of the mean.
module AnomalyReach {
  import opened Prelude
  import opened AnomalyDetector

  // The verdict is the z-score test: at least ten readings, and the distance of the value from
  // the mean is more than `threshold` standard deviations.
  lemma FiresIffZScore(window: seq<real>, value: real, threshold: real, std: real)
    requires window != [] && threshold >= 0.0 && std > 0.0
    requires if Variance(window) > 0.0 then std * std == Variance(window) else std == 0.001
    ensures var d := value - Mean(window);
      Fires(window, value, threshold) <==> |window| >= 10 && (if d >= 0.0 then d / std else -d / std) > threshold
  {
    SquaredComparison(value - Mean(window), std, threshold);
    assert StdSquared(window) == std * std;
  }

  function Negated(s: seq<real>): (r: seq<real>)
    ensures |r| == |s| && forall i :: 0 <= i < |s| ==> r[i] == -s[i]
  {
    seq(|s|, i requires 0 <= i < |s| => -s[i])
  }

  lemma {:induction false} NegatedSums(s: seq<real>, m: real)
    ensures Sum(Negated(s)) == -Sum(s)
    ensures SquaredDeviations(Negated(s), -m) == SquaredDeviations(s, m)
  {
    if s != [] {
      NegatedSums(Front(s), m);
      assert Front(Negated(s)) == Negated(Front(s));
      SameSquare(-Last(s) - -m, Last(s) - m);
    }
  }

  // Turning all readings about zero changes no verdict.
  lemma BothSides(window: seq<real>, value: real, threshold: real)
    requires window != []
    ensures Fires(Negated(window), -value, threshold) <==> Fires(window, value, threshold)
  {
    NegatedSums(window, Mean(window));
    NegatedMean(Sum(window), |window| as real);
    SameSquare(-value - -Mean(window), value - Mean(window));
  }

  lemma NegatedMean(a: real, n: real)
    requires n > 0.0
    ensures -a / n == -(a / n)
  {
  }

  // n readings of zero, then one of one.
  function Spike(n: nat): seq<real> {
    seq(n, i => 0.0) + [1.0]
  }

  lemma {:induction false} ZeroSums(s: seq<real>, m: real)
    requires forall i :: 0 <= i < |s| ==> s[i] == 0.0
    ensures Sum(s) == 0.0 && SquaredDeviations(s, m) == |s| as real * (m * m)
  {
    if s != [] {
      ZeroSums(Front(s), m);
      assert SquaredDeviations(s, m) == (|s| - 1) as real * (m * m) + m * m;
    }
  }

  // Their mean m satisfies (n + 1) * m == 1, so the last deviation is n * m and the variance n * m * m.
  lemma SpikeVariance(n: nat)
    ensures var m := Mean(Spike(n));
      && (n as real + 1.0) * m == 1.0 && m > 0.0
      && Variance(Spike(n)) == n as real * (m * m) && 1.0 - m == n as real * m
  {
    var s, k := Spike(n), n as real;
    assert Front(s) == seq(n, i => 0.0) && Last(s) == 1.0;
    var m := Mean(s);
    ZeroSums(Front(s), m);
    assert Sum(s) == 1.0 && |s| as real == k + 1.0;
    Reciprocal(k + 1.0, m);
    assert 1.0 - m == k * m;
    SpikeShare(k, m, SquaredDeviations(s, m));
  }

  lemma Reciprocal(n: real, m: real)
    requires n >= 1.0 && m == 1.0 / n
    ensures n * m == 1.0 && m > 0.0
  {
  }

  lemma SpikeShare(k: real, m: real, q: real)
    requires k >= 0.0 && (k + 1.0) * m == 1.0 && q == k * (m * m) + (1.0 - m) * (1.0 - m)
    ensures q / (k + 1.0) == k * (m * m)
  {
    assert 1.0 - m == k * m;
    assert (k * m) * (k * m) == k * (k * (m * m));
    assert q == k * (m * m) + k * (k * (m * m));
    assert q == (k + 1.0) * (k * (m * m));
    DivideBack(k + 1.0, k * (m * m), q);
  }

  lemma DivideBack(n: real, x: real, q: real)
    requires n > 0.0 && q == n * x
    ensures q / n == x
  {
  }

  lemma SpikeFires(n: nat, threshold: real)
    requires n >= 9 && threshold * threshold < n as real
    ensures Fires(Spike(n), 1.0, threshold)
  {
    SpikeVariance(n);
    var k, m, t := n as real, Mean(Spike(n)), threshold * threshold;
    var v := k * (m * m);
    assert m * m > 0.0;
    Positive(k, m * m);
    assert (1.0 - m) * (1.0 - m) == k * v by {
      assert (k * m) * (k * m) == k * (k * (m * m));
    }
    assert k * v > t * v by {
      Positive(k - t, v);
      assert (k - t) * v == k * v - t * v;
    }
  }

  lemma Positive(a: real, b: real)
    requires a > 0.0 && b > 0.0
    ensures a * b > 0.0
  {
  }

  ghost predicate FiresOnSome(n: nat, threshold: real) {
    exists window: seq<real> :: |window| == n && n > 0 && Fires(window, Last(window), threshold)
  }

  // With n readings in the window a detector fires on some of them exactly when there are at
  // least ten and the square of its threshold is below n - 1.
  lemma CanFireIff(n: nat, threshold: real)
    requires threshold >= 0.0
    ensures FiresOnSome(n, threshold) <==> n >= 10 && threshold * threshold < (n - 1) as real
  {
    if n >= 10 && threshold * threshold < (n - 1) as real {
      SpikeFires(n - 1, threshold);
      assert |Spike(n - 1)| == n && Last(Spike(n - 1)) == 1.0;
    } else if FiresOnSome(n, threshold) {
      var window: seq<real> :| |window| == n && n > 0 && Fires(window, Last(window), threshold);
      CannotFire(window, threshold);
    }
  }
}
