// What makes the mean a mean and the covariance a covariance (OVR_SensorFilter.h, OVR_SensorFilter.cpp), without the
// formulas they are computed by.
module SensorMoments {
  import opened SensorStatistics

  // The sum of the deviations from m.
  function Deviations(xs: seq<real>, m: real): real {
    if xs == [] then 0.0 else Deviations(xs[..|xs| - 1], m) + (xs[|xs| - 1] - m)
  }

  lemma {:induction false} DeviationsShift(xs: seq<real>, m: real)
    ensures Deviations(xs, m) == Deviations(xs, 0.0) - Times(|xs| as real, m)
    decreases |xs|
  {
    if xs == [] {
      assert Times(0.0, m) == 0.0;
    } else {
      var n := |xs| - 1;
      DeviationsShift(xs[..n], m);
      OneMoreTimes(n, m);
    }
  }

  lemma OneMoreTimes(n: nat, m: real)
    ensures Times((n + 1) as real, m) == Times(n as real, m) + m
  {
  }

  lemma {:induction false} ColumnSum(w: seq<Vec3>, i: nat)
    requires i < 3
    ensures Deviations(Column(w, i), 0.0) == Sum(w).At(i)
    decreases |w|
  {
    if w != [] {
      var n := |w| - 1;
      ColumnSum(w[..n], i);
      assert Column(w, i)[..n] == Column(w[..n], i);
    }
  }

  // The deviations from the mean add up to 0, and from nothing else do they.
  lemma MeanBalances(w: seq<Vec3>, i: nat, m: real)
    requires w != [] && i < 3
    ensures Deviations(Column(w, i), m) == 0.0 <==> m == MeanOf(w).At(i)
  {
    hide Deviations, Sum;
    ColumnSum(w, i);
    DeviationsShift(Column(w, i), m);
    QuotientIs(Sum(w).At(i), |w| as real, m);
  }

  lemma QuotientIs(s: real, n: real, m: real)
    requires n > 0.0
    ensures s - Times(n, m) == 0.0 <==> m == s / n
  {
    assert s == n * (s / n);
    assert m == n * m / n;
  }

  // The products of the deviations from mx and my, in terms of the samples themselves.
  lemma {:induction false} CoSumShift(xs: seq<real>, ys: seq<real>, mx: real, my: real)
    requires |xs| == |ys|
    ensures CoSum(xs, ys, mx, my)
            == CoSum(xs, ys, 0.0, 0.0) - Times(my, Deviations(xs, 0.0)) - Times(mx, Deviations(ys, 0.0))
               + Times(|xs| as real, Times(mx, my))
    decreases |xs|
  {
    if xs == [] {
      ZeroTimes(mx);
      ZeroTimes(my);
      ZeroTimes(Times(mx, my));
    } else {
      var n := |xs| - 1;
      hide Times;
      CoSumShift(xs[..n], ys[..n], mx, my);
      ShiftStep(xs[n], ys[n], mx, my, Deviations(xs[..n], 0.0), Deviations(ys[..n], 0.0), n);
    }
  }

  lemma ZeroTimes(x: real)
    ensures Times(x, 0.0) == 0.0 && Times(0.0, x) == 0.0
  {
  }

  lemma ShiftStep(x: real, y: real, mx: real, my: real, a: real, b: real, n: nat)
    ensures Times(x - mx, y - my) - Times(my, a) - Times(mx, b) + Times(n as real, Times(mx, my))
            == Times(x - 0.0, y - 0.0) - Times(my, a + (x - 0.0)) - Times(mx, b + (y - 0.0))
               + Times((n + 1) as real, Times(mx, my))
  {
    OneMoreTimes(n, Times(mx, my));
  }

  lemma SumIsMean(w: seq<Vec3>, i: nat)
    requires w != [] && i < 3
    ensures Deviations(Column(w, i), 0.0) == Times(|w| as real, MeanOf(w).At(i))
  {
    hide Deviations, Sum, Times;
    MeanBalances(w, i, MeanOf(w).At(i));
    DeviationsShift(Column(w, i), MeanOf(w).At(i));
  }

  // The covariance is the mean of the products less the product of the means.
  lemma CovIsMoments(w: seq<Vec3>, i: nat, j: nat)
    requires w != [] && i < 3 && j < 3
    ensures Times(|w| as real, Cov(w, i, j))
            == CoSum(Column(w, i), Column(w, j), 0.0, 0.0) - Times(|w| as real, Times(MeanOf(w).At(i), MeanOf(w).At(j)))
  {
    hide CoSum, Deviations, MeanOf, Column;
    var n, mx, my := |w| as real, MeanOf(w).At(i), MeanOf(w).At(j);
    SumIsMean(w, i);
    SumIsMean(w, j);
    CoSumShift(Column(w, i), Column(w, j), mx, my);
    CrossTerms(n, mx, my);
    TimesQuotient(CoSum(Column(w, i), Column(w, j), mx, my), n);
  }

  lemma CrossTerms(n: real, mx: real, my: real)
    ensures Times(my, Times(n, mx)) == Times(n, Times(mx, my)) == Times(mx, Times(n, my))
  {
  }

  lemma TimesQuotient(x: real, n: real)
    requires n > 0.0
    ensures Times(n, x / n) == x
  {
  }

  // The squares of the deviations from m add up to those from the mean, and n times the square of what m is off.
  lemma SquaresAbout(w: seq<Vec3>, i: nat, m: real)
    requires w != [] && i < 3
    ensures var xs, mean := Column(w, i), MeanOf(w).At(i);
            CoSum(xs, xs, m, m) == CoSum(xs, xs, mean, mean) + Times(|w| as real, Times(m - mean, m - mean))
  {
    hide CoSum, Deviations, MeanOf, Column, Times;
    var xs, n, mean := Column(w, i), |w| as real, MeanOf(w).At(i);
    SumIsMean(w, i);
    CoSumShift(xs, xs, m, m);
    CoSumShift(xs, xs, mean, mean);
    SquareTerms(n, m, mean);
  }

  lemma SquareTerms(n: real, m: real, mean: real)
    ensures Times(n, Times(m, m)) - 2.0 * Times(m, Times(n, mean))
            == Times(n, Times(mean, mean)) - 2.0 * Times(mean, Times(n, mean)) + Times(n, Times(m - mean, m - mean))
  {
    assert (m - mean) * (m - mean) == m * m - 2.0 * (m * mean) + mean * mean;
  }

  // So the mean is the point about which they are least, and the only one.
  lemma MeanMinimises(w: seq<Vec3>, i: nat, m: real)
    requires w != [] && i < 3
    ensures var xs, mean := Column(w, i), MeanOf(w).At(i);
            && CoSum(xs, xs, mean, mean) <= CoSum(xs, xs, m, m)
            && (CoSum(xs, xs, mean, mean) == CoSum(xs, xs, m, m) <==> m == mean)
  {
    hide CoSum, MeanOf, Column, Times;
    var mean := MeanOf(w).At(i);
    SquaresAbout(w, i, m);
    SquareZero(m - mean);
    if m == mean {
      ZeroTimes(|w| as real);
    } else {
      Positive(|w| as real, Times(m - mean, m - mean));
    }
  }
}
