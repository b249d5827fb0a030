// SavitzkyGolayDerivativeN (OVR_SensorFilter.h) on one coordinate: which signals it differentiates exactly.
module SavitzkyGolay {
  import opened SensorStatistics

  // p[0] is the most recent sample.
  function DiffSum(p: seq<real>, k: nat): real
    requires |p| > 0 && k <= (|p| - 1) / 2
  {
    var m := (|p| - 1) / 2;
    if k == 0 then 0.0 else DiffSum(p, k - 1) + Times(p[m - k] - p[|p| - m + k - 1], k as real)
  }

  // m(m+1)(2m+1), three times over the sum of the squares up to m.
  function Divisor(m: nat): real {
    m as real * (m as real + 1.0) * (2.0 * m as real + 1.0)
  }

  lemma DivisorPositive(m: nat)
    requires m > 0
    ensures Divisor(m) > 0.0
  {
  }

  function SavGol(p: seq<real>): real
    requires |p| >= 3
  {
    var m := (|p| - 1) / 2;
    DivisorPositive(m);
    Times(DiffSum(p, m), 3.0 / Divisor(m))
  }

  // The signal whose middle sample is a, with slope b there, and with curvature c.
  predicate Quadratic(p: seq<real>, a: real, b: real, c: real) {
    forall i :: 0 <= i < |p| ==> p[i] == Curve(i, (|p| - 1) / 2, a, b, c)
  }

  function Curve(i: int, m: int, a: real, b: real, c: real): real {
    a - b * (i - m) as real + c * ((i - m) * (i - m)) as real
  }

  predicate Linear(p: seq<real>, a: real, b: real) {
    forall i :: 0 <= i < |p| ==> p[i] == a - Times(b, i as real)
  }

  lemma {:induction false} OddSum(p: seq<real>, a: real, b: real, c: real, k: nat)
    requires |p| % 2 == 1 && Quadratic(p, a, b, c) && k <= (|p| - 1) / 2
    ensures 3.0 * DiffSum(p, k) == Times(b, Divisor(k))
  {
    hide Times, Divisor, Curve;
    if k == 0 {
      OddStart(b);
    } else {
      var m := (|p| - 1) / 2;
      OddSum(p, a, b, c, k - 1);
      CurveDifference(m, k, a, b, c);
      OddStep(b, k);
    }
  }

  lemma OddStart(b: real)
    ensures Times(b, Divisor(0)) == 0.0
  {
  }

  lemma CurveDifference(m: int, k: int, a: real, b: real, c: real)
    ensures Curve(m - k, m, a, b, c) - Curve(m + k, m, a, b, c) == Times(b, 2.0 * k as real)
  {
    assert (m - k - m) * (m - k - m) == k * k == (m + k - m) * (m + k - m);
  }

  lemma OddStep(b: real, k: nat)
    requires k > 0
    ensures Times(b, Divisor(k - 1)) + 3.0 * Times(Times(b, 2.0 * k as real), k as real) == Times(b, Divisor(k))
  {
    var x := k as real;
    assert (k - 1) as real == x - 1.0;
    assert Divisor(k - 1) + 6.0 * x * x == Divisor(k);
  }

  function EvenFactor(x: real): real {
    x * (x + 1.0) * (4.0 * x + 5.0)
  }

  lemma {:induction false} EvenSum(p: seq<real>, a: real, b: real, k: nat)
    requires |p| > 0 && |p| % 2 == 0 && Linear(p, a, b) && k <= (|p| - 1) / 2
    ensures 6.0 * DiffSum(p, k) == Times(b, EvenFactor(k as real))
  {
    hide Times, EvenFactor;
    if k == 0 {
      EvenStart(b);
    } else {
      var m := (|p| - 1) / 2;
      EvenSum(p, a, b, k - 1);
      LineDifference(a, b, m - k, 2 * k + 1);
      assert (k - 1) as real == k as real - 1.0;
      EvenStep(b, k as real);
    }
  }

  lemma EvenStart(b: real)
    ensures Times(b, EvenFactor(0.0)) == 0.0
  {
  }

  lemma LineDifference(a: real, b: real, i: int, d: int)
    ensures (a - Times(b, i as real)) - (a - Times(b, (i + d) as real)) == Times(b, d as real)
  {
  }

  lemma EvenStep(b: real, x: real)
    ensures Times(b, EvenFactor(x - 1.0)) + 6.0 * Times(Times(b, 2.0 * x + 1.0), x) == Times(b, EvenFactor(x))
  {
    assert EvenFactor(x - 1.0) + 6.0 * ((2.0 * x + 1.0) * x) == EvenFactor(x);
    assert Times(Times(b, 2.0 * x + 1.0), x) == b * ((2.0 * x + 1.0) * x);
  }

  // With an odd number of samples the derivative is the slope in the middle of the window, for every line
  // and every parabola.
  lemma DerivativeExact(p: seq<real>, a: real, b: real, c: real)
    requires |p| >= 3 && |p| % 2 == 1 && Quadratic(p, a, b, c)
    ensures SavGol(p) == b
  {
    hide Times, Divisor, Quadratic, DiffSum;
    var m := (|p| - 1) / 2;
    OddSum(p, a, b, c, m);
    DivisorPositive(m);
    Cancel(DiffSum(p, m), b, Divisor(m));
  }

  lemma Cancel(s: real, b: real, d: real)
    requires d > 0.0 && 3.0 * s == Times(b, d)
    ensures Times(s, 3.0 / d) == b
  {
    assert s * (3.0 / d) == 3.0 * s / d;
  }

  lemma LineIsCurve(p: seq<real>, a: real, b: real)
    requires Linear(p, a, b)
    ensures Quadratic(p, a - b * ((|p| - 1) / 2) as real, b, 0.0)
  {
    hide Times;
    var m := (|p| - 1) / 2;
    forall i | 0 <= i < |p|
      ensures p[i] == Curve(i, m, a - b * m as real, b, 0.0)
    {
      LineAtMiddle(a, b, i, m);
    }
  }

  lemma LineAtMiddle(a: real, b: real, i: int, m: int)
    ensures a - Times(b, i as real) == Curve(i, m, a - b * m as real, b, 0.0)
  {
    assert b * (i - m) as real == b * i as real - b * m as real;
  }

  // With an even number n it is the slope times (2n + 1) / (2n - 2).
  lemma DerivativeEven(p: seq<real>, a: real, b: real)
    requires |p| >= 3 && |p| % 2 == 0 && Linear(p, a, b)
    ensures Times(SavGol(p), (2 * |p| - 2) as real) == Times(b, (2 * |p| + 1) as real)
  {
    hide Times, Linear, DiffSum, EvenFactor;
    var m := (|p| - 1) / 2;
    EvenSum(p, a, b, m);
    EvenCancel(DiffSum(p, m), b, m);
    assert 2 * |p| - 2 == 4 * m + 2 && 2 * |p| + 1 == 4 * m + 5;
  }

  lemma EvenCancel(s: real, b: real, m: nat)
    requires m > 0 && 6.0 * s == Times(b, EvenFactor(m as real))
    ensures Divisor(m) > 0.0
    ensures Times(Times(s, 3.0 / Divisor(m)), (4 * m + 2) as real) == Times(b, (4 * m + 5) as real)
  {
    DivisorPositive(m);
    var x := m as real;
    var q, e := x * (x + 1.0), 2.0 * x + 1.0;
    var r := Times(s, 3.0 / Divisor(m));
    assert q > 0.0;
    Quotient(s, Divisor(m));
    assert r * Divisor(m) == 3.0 * s;
    assert Divisor(m) == q * e && EvenFactor(x) == q * (2.0 * e + 3.0);
    EvenEqual(r, b, q, e);
    assert (4 * m + 2) as real == 2.0 * e && (4 * m + 5) as real == 2.0 * e + 3.0;
  }

  lemma Quotient(s: real, d: real)
    requires d > 0.0
    ensures Times(s, 3.0 / d) * d == 3.0 * s
  {
  }

  lemma EvenEqual(r: real, b: real, q: real, e: real)
    requires q > 0.0 && 2.0 * (r * (q * e)) == b * (q * (2.0 * e + 3.0))
    ensures r * (2.0 * e) == b * (2.0 * e + 3.0)
  {
    var u, v := r * (2.0 * e), b * (2.0 * e + 3.0);
    assert u * q == 2.0 * (r * (q * e)) && v * q == b * (q * (2.0 * e + 3.0));
    assert u == u * q / q && v == v * q / q;
  }

  // So the slope of a line comes out right exactly when the number of samples is odd, or the line is level.
  lemma SlopeIffOdd(p: seq<real>, a: real, b: real)
    requires |p| >= 3 && Linear(p, a, b)
    ensures SavGol(p) == b <==> |p| % 2 == 1 || b == 0.0
  {
    hide SavGol, Linear, Quadratic, Times;
    if |p| % 2 == 1 {
      LineIsCurve(p, a, b);
      DerivativeExact(p, a - b * ((|p| - 1) / 2) as real, b, 0.0);
    } else {
      DerivativeEven(p, a, b);
      assert (2 * |p| + 1) as real == (2 * |p| - 2) as real + 3.0;
      OffBy(SavGol(p), b, (2 * |p| - 2) as real);
    }
  }

  lemma OffBy(r: real, b: real, k: real)
    requires k > 0.0 && Times(r, k) == Times(b, k + 3.0)
    ensures r == b <==> b == 0.0
  {
    if r == b {
      assert b * (k + 3.0) == b * k + b * 3.0;
    }
  }

  // ---------- on any signal: least squares ----------

  // What is left of the signal when the line through the middle at height a, with slope b, is taken off.
  function Residual(p: seq<real>, a: real, b: real): (r: seq<real>)
    ensures |r| == |p|
  {
    seq(|p|, i requires 0 <= i < |p| => p[i] - a + Times(b, (i - (|p| - 1) / 2) as real))
  }

  // The squares of the first n of them, and each weighed by its distance from the middle.
  function Squares(r: seq<real>, n: nat): real
    requires n <= |r|
  {
    if n == 0 then 0.0 else Squares(r, n - 1) + Times(r[n - 1], r[n - 1])
  }

  function Moment(r: seq<real>, m: nat, lo: nat, hi: nat): real
    requires lo <= hi <= |r|
    decreases hi
  {
    if lo == hi then 0.0 else Moment(r, m, lo, hi - 1) + Times((hi - 1 - m) as real, r[hi - 1])
  }

  // The squares of the distances from the middle.
  function Inertia(m: nat, n: nat): real {
    if n == 0 then 0.0 else Inertia(m, n - 1) + Times((n - 1 - m) as real, (n - 1 - m) as real)
  }

  lemma {:induction false} MomentFront(r: seq<real>, m: nat, lo: nat, hi: nat)
    requires lo < hi <= |r|
    ensures Moment(r, m, lo, hi) == Times((lo - m) as real, r[lo]) + Moment(r, m, lo + 1, hi)
    decreases hi
  {
    hide Times;
    if lo + 1 < hi {
      MomentFront(r, m, lo, hi - 1);
    } else {
      assert Moment(r, m, lo, lo) == 0.0;
    }
  }

  // The moment about the middle is what the filter sums up.
  lemma {:induction false} MomentIsDiffSum(r: seq<real>, k: nat)
    requires |r| % 2 == 1 && k <= (|r| - 1) / 2
    ensures var m := (|r| - 1) / 2; Moment(r, m, m - k, m + k + 1) == -DiffSum(r, k)
  {
    var m := (|r| - 1) / 2;
    hide Times;
    if k == 0 {
      assert Moment(r, m, m, m) == 0.0;
      NoWeight(r[m]);
    } else {
      MomentIsDiffSum(r, k - 1);
      MomentFront(r, m, m - k, m + k + 1);
      assert Moment(r, m, m - k + 1, m + k + 1) == Moment(r, m, m - k + 1, m + k) + Times(k as real, r[m + k]);
      Paired(m, k, r[m - k], r[m + k]);
    }
  }

  lemma NoWeight(x: real)
    ensures Times(0.0, x) == 0.0
  {
  }

  lemma Paired(m: nat, k: nat, x: real, y: real)
    ensures Times((m - k - m) as real, x) + Times(k as real, y) == -Times(x - y, k as real)
  {
    assert (m - k - m) as real == -(k as real);
  }

  lemma {:induction false} ResidualDiffSum(p: seq<real>, a: real, b: real, k: nat)
    requires |p| % 2 == 1 && k <= (|p| - 1) / 2
    ensures 3.0 * DiffSum(Residual(p, a, b), k) == 3.0 * DiffSum(p, k) - Times(b, Divisor(k))
  {
    hide Times, Divisor, Residual;
    if k == 0 {
      OddStart(b);
    } else {
      ResidualDiffSum(p, a, b, k - 1);
      OddStep(b, k);
      ResidualPair(p, a, b, k);
    }
  }

  lemma ResidualPair(p: seq<real>, a: real, b: real, k: nat)
    requires |p| % 2 == 1 && k <= (|p| - 1) / 2
    ensures var r, m := Residual(p, a, b), (|p| - 1) / 2;
            Times(r[m - k] - r[m + k], k as real) == Times(p[m - k] - p[m + k], k as real) - Times(Times(b, 2.0 * k as real), k as real)
  {
    hide Times;
    var m := (|p| - 1) / 2;
    assert (m - k - m) as real == -(k as real) && (m + k - m) as real == k as real;
    ResidualStep(p[m - k], p[m + k], a, b, k as real);
  }

  lemma ResidualStep(x: real, y: real, a: real, b: real, k: real)
    ensures Times((x - a + Times(b, -k)) - (y - a + Times(b, k)), k) == Times(x - y, k) - Times(Times(b, 2.0 * k), k)
  {
  }

  // With the slope the filter gives, the residuals balance about the middle.
  lemma ResidualsBalance(p: seq<real>, a: real)
    requires |p| >= 3 && |p| % 2 == 1
    ensures Moment(Residual(p, a, SavGol(p)), (|p| - 1) / 2, 0, |p|) == 0.0
  {
    hide Times, Divisor, DiffSum, Residual, Moment, SavGol;
    var m := (|p| - 1) / 2;
    ResidualDiffSum(p, a, SavGol(p), m);
    SavGolTimes(p);
    MomentIsDiffSum(Residual(p, a, SavGol(p)), m);
  }

  lemma SavGolTimes(p: seq<real>)
    requires |p| >= 3
    ensures Times(SavGol(p), Divisor((|p| - 1) / 2)) == 3.0 * DiffSum(p, (|p| - 1) / 2)
  {
    hide Times, Divisor, DiffSum;
    DivisorPositive((|p| - 1) / 2);
    Uncancel(DiffSum(p, (|p| - 1) / 2), Divisor((|p| - 1) / 2));
  }

  lemma Uncancel(s: real, d: real)
    requires d > 0.0
    ensures Times(Times(s, 3.0 / d), d) == 3.0 * s
  {
  }

  // What another slope changes.
  lemma {:induction false} SquaresShift(p: seq<real>, a: real, s: real, b: real, n: nat)
    requires n <= |p|
    ensures var r, m, c := Residual(p, a, s), (|p| - 1) / 2, b - s;
            |p| > 0 ==> Squares(Residual(p, a, b), n) == Squares(r, n) + 2.0 * Times(c, Moment(r, m, 0, n)) + Times(Times(c, c), Inertia(m, n))
  {
    hide Times, Residual;
    if n == 0 {
      ShiftNothing(b - s);
    } else {
      var m := (|p| - 1) / 2;
      SquaresShift(p, a, s, b, n - 1);
      SlopesDiffer(p, a, b, s, n - 1);
      ShiftSquare(Residual(p, a, s)[n - 1], b - s, (n - 1 - m) as real, Moment(Residual(p, a, s), m, 0, n - 1), Inertia(m, n - 1));
    }
  }

  lemma ShiftNothing(c: real)
    ensures Times(c, 0.0) == 0.0 && Times(Times(c, c), 0.0) == 0.0
  {
  }

  lemma ShiftSquare(x: real, c: real, d: real, g: real, q: real)
    ensures Times(x + Times(c, d), x + Times(c, d)) + 2.0 * Times(c, g) + Times(Times(c, c), q)
            == Times(x, x) + 2.0 * Times(c, g + Times(d, x)) + Times(Times(c, c), q + Times(d, d))
  {
    assert (x + c * d) * (x + c * d) == x * x + 2.0 * (c * (d * x)) + c * c * (d * d);
  }

  lemma {:induction false} InertiaGrows(m: nat, n: nat)
    ensures Inertia(m, n) >= 0.0
    ensures n > 0 && m > 0 ==> Inertia(m, n) > 0.0
  {
    hide Times;
    if n > 0 {
      InertiaGrows(m, n - 1);
      SquareZero((n - 1 - m) as real);
    }
  }

  // Whatever the signal, the slope is that of the least squares: for every height a, no other slope leaves squares that
  // add up to as little.
  lemma LeastSquares(p: seq<real>, a: real, b: real)
    requires |p| >= 3 && |p| % 2 == 1
    ensures Squares(Residual(p, a, SavGol(p)), |p|) <= Squares(Residual(p, a, b), |p|)
    ensures Squares(Residual(p, a, SavGol(p)), |p|) == Squares(Residual(p, a, b), |p|) <==> b == SavGol(p)
  {
    hide *;
    ResidualsBalance(p, a);
    SlopeChanged(p, a, SavGol(p), b);
  }

  lemma SlopeChanged(p: seq<real>, a: real, s: real, b: real)
    requires |p| >= 3 && Moment(Residual(p, a, s), (|p| - 1) / 2, 0, |p|) == 0.0
    ensures Squares(Residual(p, a, s), |p|) <= Squares(Residual(p, a, b), |p|)
    ensures Squares(Residual(p, a, s), |p|) == Squares(Residual(p, a, b), |p|) <==> b == s
  {
    hide Squares, Moment, Inertia, Times, Residual;
    SquaresShift(p, a, s, b, |p|);
    ShiftNothing(b - s);
    InertiaGrows((|p| - 1) / 2, |p|);
    Compared(Squares(Residual(p, a, b), |p|), Squares(Residual(p, a, s), |p|), b - s, Inertia((|p| - 1) / 2, |p|));
  }

  lemma Compared(v': real, v: real, c: real, q: real)
    requires v' == v + Times(Times(c, c), q) && q > 0.0
    ensures v <= v' && (v == v' <==> c == 0.0)
  {
    hide Times;
    SquareZero(c);
    NoWeight(q);
    if c != 0.0 {
      Positive(Times(c, c), q);
    }
  }

  lemma SlopesDiffer(p: seq<real>, a: real, b: real, s: real, i: nat)
    requires i < |p|
    ensures Residual(p, a, b)[i] == Residual(p, a, s)[i] + Times(b - s, (i - (|p| - 1) / 2) as real)
  {
  }
}
