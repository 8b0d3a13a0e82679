// backend/services/data_processor.py: rolling z-score detection, over exact reals.
module AnomalyDetector {
  import opened Prelude

  function Sum(s: seq<real>): real {
    if s == [] then 0.0 else Sum(Front(s)) + Last(s)
  }

  // The sum of (x - m) ** 2.
  function SquaredDeviations(s: seq<real>, m: real): real {
    if s == [] then 0.0 else SquaredDeviations(Front(s), m) + (Last(s) - m) * (Last(s) - m)
  }

  function Mean(s: seq<real>): real
    requires s != []
  {
    Sum(s) / |s| as real
  }

  function Variance(s: seq<real>): real
    requires s != []
  {
    SquaredDeviations(s, Mean(s)) / |s| as real
  }

  // std ** 2: the variance, or 0.001 ** 2 when the variance is zero.
  function StdSquared(s: seq<real>): real
    requires s != []
  {
    if Variance(s) > 0.0 then Variance(s) else 0.000_001
  }

  // abs(z) > threshold, with both sides squared.
  predicate Exceeds(s: seq<real>, value: real, threshold: real)
    requires s != []
  {
    (value - Mean(s)) * (value - Mean(s)) > threshold * threshold * StdSquared(s)
  }

  // What check answers once the window holds its value.
  predicate Fires(window: seq<real>, value: real, threshold: real) {
    |window| >= 10 && Exceeds(window, value, threshold)
  }

  class Detector {
    var window: seq<real>
    const maxlen: nat
    const threshold: real
    ghost var readings: seq<real>

    ghost predicate Valid()
      reads this
    {
      maxlen > 0 && threshold >= 0.0 && window == LastN(readings, maxlen)
    }

    constructor (maxlen: nat, threshold: real)
      requires maxlen > 0 && threshold >= 0.0
      ensures Valid() && readings == [] && this.maxlen == maxlen && this.threshold == threshold
    {
      this.maxlen, this.threshold := maxlen, threshold;
      window, readings := [], [];
    }

    method Check(value: real) returns (isAnomaly: bool)
      requires Valid()
      modifies this
      ensures Valid() && readings == old(readings) + [value] && Last(window) == value
      ensures isAnomaly == Fires(window, value, threshold)
    {
      window := window + [value];
      readings := readings + [value];
      if |window| > maxlen {
        window := window[1..];
      }
      if |window| < 10 {
        return false;
      }
      var mean := Mean(window);
      var variance := SquaredDeviations(window, mean) / |window| as real;
      var stdSquared := if variance > 0.0 then variance else 0.000_001;
      isAnomaly := (value - mean) * (value - mean) > threshold * threshold * stdSquared;
    }
  }

  // Squaring is faithful: for the square root of any positive spread, |z| > threshold says the same.
  lemma SquaredComparison(d: real, std: real, threshold: real)
    requires std > 0.0 && threshold >= 0.0
    ensures (if d >= 0.0 then d / std else -d / std) > threshold <==> d * d > threshold * threshold * (std * std)
  {
    var a := if d >= 0.0 then d else -d;
    var b := threshold * std;
    assert a / std > threshold <==> a > b by {
      DivideCompare(a, std, threshold);
    }
    assert d * d == a * a;
    assert b * b == threshold * threshold * (std * std) by {
      SquareProduct(threshold, std);
    }
    SquareCompare(a, b);
  }

  lemma DivideCompare(a: real, std: real, t: real)
    requires std > 0.0
    ensures a / std > t <==> a > t * std
  {
    var q := a / std;
    assert q * std == a;
    if q > t {
      Scale(q, t, std);
    } else {
      assert (t - q) * std >= 0.0;
    }
  }

  lemma Scale(a: real, b: real, c: real)
    requires a > b && c > 0.0
    ensures a * c > b * c
  {
    assert (a - b) * c > 0.0;
  }

  lemma SquareProduct(t: real, s: real)
    ensures (t * s) * (t * s) == t * t * (s * s)
  {
  }

  lemma SquareCompare(a: real, b: real)
    requires a >= 0.0 && b >= 0.0
    ensures a * a > b * b <==> a > b
  {
    if a > b {
      Scale(a, b, a + b);
      assert a * (a + b) - b * (a + b) == a * a - b * b;
    } else {
      assert b * b - a * a == (b - a) * (b + a);
    }
  }

  // ---- The bound ----

  // The sum of (x - m).
  function Deviations(s: seq<real>, m: real): real {
    if s == [] then 0.0 else Deviations(Front(s), m) + (Last(s) - m)
  }

  lemma {:induction false} DeviationsSum(s: seq<real>, m: real)
    ensures Deviations(s, m) == Sum(s) - |s| as real * m
  {
    if s != [] {
      DeviationsSum(Front(s), m);
      assert |s| as real == |Front(s)| as real + 1.0;
      var k := |Front(s)| as real;
      assert (k + 1.0) * m == k * m + m;
    }
  }

  lemma {:induction false} SquaresNonNegative(s: seq<real>, m: real)
    ensures SquaredDeviations(s, m) >= 0.0
  {
    if s != [] {
      SquaresNonNegative(Front(s), m);
      var d := Last(s) - m;
      assert d * d >= 0.0;
    }
  }

  // Cauchy-Schwarz: the square of a sum of n terms is at most n times the sum of the squares.
  lemma {:induction false} SumSquaredBound(s: seq<real>, m: real)
    ensures Deviations(s, m) * Deviations(s, m) <= |s| as real * SquaredDeviations(s, m)
  {
    if s != [] {
      var f := Front(s);
      SumSquaredBound(f, m);
      SquaresNonNegative(f, m);
      AddTerm(|f|, Deviations(f, m), SquaredDeviations(f, m), Last(s) - m);
      assert |s| as real == |f| as real + 1.0;
    }
  }

  lemma AddTerm(n: nat, d: real, q: real, x: real)
    requires d * d <= n as real * q && q >= 0.0 && (n == 0 ==> d == 0.0)
    ensures (d + x) * (d + x) <= (n as real + 1.0) * (q + x * x)
  {
    var k := n as real;
    if n == 0 {
      assert (d + x) * (d + x) == x * x;
    } else {
      CrossTerm(k, d, q, x);
      assert (d + x) * (d + x) == d * d + 2.0 * (d * x) + x * x;
      assert (k + 1.0) * (q + x * x) == k * q + q + k * (x * x) + x * x;
    }
  }

  lemma CrossTerm(k: real, d: real, q: real, x: real)
    requires k > 0.0 && d * d <= k * q
    ensures 2.0 * (d * x) <= q + k * (x * x)
  {
    var e := d - k * x;
    assert e * e >= 0.0;
    assert e * e == d * d - 2.0 * k * (d * x) + k * k * (x * x);
    var gap := q + k * (x * x) - 2.0 * (d * x);
    assert k * gap >= 0.0;
    if gap < 0.0 {
      Scale(0.0, gap, k);
    }
  }

  // With n values in the window the newest deviates by at most sqrt(n - 1) standard deviations.
  lemma NewestDeviationBound(s: seq<real>)
    requires |s| >= 2
    ensures (Last(s) - Mean(s)) * (Last(s) - Mean(s)) <= (|s| - 1) as real * Variance(s)
  {
    var m := Mean(s);
    var x := Last(s) - m;
    var q := SquaredDeviations(Front(s), m);
    OthersBalance(s);
    SumSquaredBound(Front(s), m);
    SameSquare(Deviations(Front(s), m), x);
    assert |Front(s)| as real == (|s| - 1) as real == |s| as real - 1.0;
    ShareOut(|s| as real, x * x, q);
    assert SquaredDeviations(s, m) == q + x * x;
  }

  lemma SameSquare(d: real, x: real)
    requires d == -x
    ensures d * d == x * x
  {
  }

  // The deviations of the other values cancel the newest one's.
  lemma OthersBalance(s: seq<real>)
    requires s != []
    ensures Deviations(Front(s), Mean(s)) == -(Last(s) - Mean(s))
  {
    DeviationsSum(s, Mean(s));
    assert |s| as real * (Sum(s) / |s| as real) == Sum(s);
  }

  lemma ShareOut(n: real, x2: real, q: real)
    requires n >= 1.0 && x2 <= (n - 1.0) * q
    ensures x2 <= (n - 1.0) * ((q + x2) / n)
  {
    var v := (q + x2) / n;
    assert n * v == q + x2;
    assert (n - 1.0) * (q + x2) == (n - 1.0) * q + n * x2 - x2;
    assert (n - 1.0) * (n * v) == n * ((n - 1.0) * v);
    assert n * ((n - 1.0) * v) >= n * x2;
    if (n - 1.0) * v < x2 {
      Scale(x2, (n - 1.0) * v, n);
    }
  }

  // A detector whose threshold is at least sqrt(n - 1) cannot fire with n values in the window.
  lemma CannotFire(window: seq<real>, threshold: real)
    requires |window| >= 2 && threshold >= 0.0 && threshold * threshold >= (|window| - 1) as real
    ensures !Fires(window, Last(window), threshold)
  {
    NewestDeviationBound(window);
    var v := Variance(window);
    var t2 := threshold * threshold;
    SquaresNonNegative(window, Mean(window));
    assert v >= 0.0;
    assert (|window| - 1) as real * v <= t2 * v by {
      AtMostTimes((|window| - 1) as real, t2, v);
    }
    if v == 0.0 {
      assert t2 * 0.000_001 >= 0.0;
    }
  }

  lemma AtMostTimes(a: real, b: real, v: real)
    requires a <= b && v >= 0.0
    ensures a * v <= b * v
  {
    assert (b - a) * v >= 0.0;
  }

  // The detectors that main sets up (backend/services/data_processor.py:152-156).
  const ANOMALY_WINDOW: nat := 60
  const PRESSURE_THRESHOLD: real := 3.0

  // What the pressure detector answers to its readings, one after another: the first ten are
  // never anomalies, whatever they are,
  method PressureVerdicts(values: seq<real>) returns (verdicts: seq<bool>)
    ensures |verdicts| == |values|
    ensures forall i :: 0 <= i < |values| ==>
              verdicts[i] == Fires(LastN(values[..i + 1], 60), values[i], 3.0)
    ensures forall i :: 0 <= i < |values| && i < 10 ==> !verdicts[i]
  {
    var detector := new Detector(ANOMALY_WINDOW, PRESSURE_THRESHOLD);
    verdicts := [];
    for i := 0 to |values|
      invariant fresh(detector) && detector.Valid() && detector.readings == values[..i]
      invariant detector.maxlen == ANOMALY_WINDOW && detector.threshold == PRESSURE_THRESHOLD
      invariant |verdicts| == i
      invariant forall k :: 0 <= k < i ==> verdicts[k] == Fires(LastN(values[..k + 1], ANOMALY_WINDOW), values[k], PRESSURE_THRESHOLD)
      invariant forall k :: 0 <= k < i && k < 10 ==> !verdicts[k]
    {
      var verdict := detector.Check(values[i]);
      assert values[..i + 1] == values[..i] + [values[i]];
      if i < 10 {
        SilentWithTen(detector.window);
      }
      verdicts := verdicts + [verdict];
    }
  }

  lemma SilentWithTen(window: seq<real>)
    requires 0 < |window| <= 10
    ensures !Fires(window, Last(window), PRESSURE_THRESHOLD)
  {
    if |window| == 10 {
      CannotFire(window, PRESSURE_THRESHOLD);
    }
  }

  // ... but the eleventh can be one: ten readings of zero and one of 11.
  lemma PressureMayFireOnEleventh(window: seq<real>)
    requires |window| == 11 && Last(window) == 11.0 && forall i :: 0 <= i < 10 ==> window[i] == 0.0
    ensures Fires(window, Last(window), PRESSURE_THRESHOLD)
  {
    Zeros(Front(window));
    assert Sum(window) == 11.0 && Mean(window) == 1.0;
    assert SquaredDeviations(window, 1.0) == 110.0;
    assert Variance(window) == 10.0;
  }

  lemma {:induction false} Zeros(s: seq<real>)
    requires forall i :: 0 <= i < |s| ==> s[i] == 0.0
    ensures Sum(s) == 0.0 && SquaredDeviations(s, 1.0) == |s| as real
  {
    if s != [] {
      Zeros(Front(s));
    }
  }
}
