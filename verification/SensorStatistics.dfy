// Sums, ranks and covariances of samples (the statistics of OVR_SensorFilter.cpp), over the reals.
module SensorStatistics {
  datatype Vec3 = Vec3(x: real, y: real, z: real) {
    function Plus(v: Vec3): Vec3 { Vec3(x + v.x, y + v.y, z + v.z) }

    function Minus(v: Vec3): Vec3 { Vec3(x - v.x, y - v.y, z - v.z) }

    function Scaled(k: real): Vec3 { Vec3(Times(x, k), Times(y, k), Times(z, k)) }

    function Over(k: real): Vec3
      requires k != 0.0
    {
      Vec3(x / k, y / k, z / k)
    }

    function At(i: nat): real
      requires i < 3
    {
      match i case 0 => x case 1 => y case _ => z
    }
  }

  const ZERO := Vec3(0.0, 0.0, 0.0)

  function Sum(w: seq<Vec3>): Vec3 {
    if w == [] then ZERO else Sum(w[..|w| - 1]).Plus(w[|w| - 1])
  }

  lemma {:induction false} SumConcat(a: seq<Vec3>, b: seq<Vec3>)
    ensures Sum(a + b) == Sum(a).Plus(Sum(b))
    decreases |b|
  {
    if b == [] {
      assert a + b == a;
    } else {
      assert (a + b)[..|a + b| - 1] == a + b[..|b| - 1];
      SumConcat(a, b[..|b| - 1]);
    }
  }

  // One coordinate of every sample.
  function Column(w: seq<Vec3>, i: nat): (xs: seq<real>)
    requires i < 3
    ensures |xs| == |w|
  {
    seq(|w|, j requires 0 <= j < |w| => w[j].At(i))
  }

  function MeanOf(w: seq<Vec3>): Vec3 {
    if w == [] then ZERO else Sum(w).Over(|w| as real)
  }

  // ---------- rank ----------

  function Below(xs: seq<real>, m: real): (n: nat)
    ensures n <= |xs|
  {
    if xs == [] then 0 else Below(xs[..|xs| - 1], m) + (if xs[|xs| - 1] < m then 1 else 0)
  }

  function AtMost(xs: seq<real>, m: real): (n: nat)
    ensures n <= |xs|
  {
    if xs == [] then 0 else AtMost(xs[..|xs| - 1], m) + (if xs[|xs| - 1] <= m then 1 else 0)
  }

  // m is what stands at index h once xs is sorted.
  predicate IsRank(xs: seq<real>, h: nat, m: real) {
    Below(xs, m) <= h < AtMost(xs, m)
  }

  lemma {:induction false} CountsConcat(a: seq<real>, b: seq<real>, m: real)
    ensures Below(a + b, m) == Below(a, m) + Below(b, m)
    ensures AtMost(a + b, m) == AtMost(a, m) + AtMost(b, m)
    decreases |b|
  {
    if b == [] {
      assert a + b == a;
    } else {
      assert (a + b)[..|a + b| - 1] == a + b[..|b| - 1];
      CountsConcat(a, b[..|b| - 1], m);
    }
  }

  lemma {:induction false} CountsOfPermutation(a: seq<real>, b: seq<real>, m: real)
    requires multiset(a) == multiset(b)
    ensures Below(a, m) == Below(b, m) && AtMost(a, m) == AtMost(b, m)
    decreases |a|
  {
    hide Below, AtMost;
    if a == [] {
      assert |multiset(a)| == |a| && |multiset(b)| == |b|;
    } else {
      var n := |a| - 1;
      assert a == a[..n] + [a[n]];
      assert a[n] in multiset(b);
      var i :| 0 <= i < |b| && b[i] == a[n];
      var rest := b[..i] + b[i + 1..];
      assert b == b[..i] + [b[i]] + b[i + 1..];
      assert multiset(rest) == multiset(b) - multiset{b[i]};
      CountsOfPermutation(a[..n], rest, m);
      CountsConcat(b[..i], b[i + 1..], m);
      CountsConcat(b[..i], [b[i]], m);
      CountsConcat(b[..i] + [b[i]], b[i + 1..], m);
      CountsConcat(a[..n], [a[n]], m);
    }
  }

  lemma {:induction false} CountsOrdered(xs: seq<real>, m: real, n: real)
    requires m < n
    ensures AtMost(xs, m) <= Below(xs, n)
    decreases |xs|
  {
    if xs != [] {
      CountsOrdered(xs[..|xs| - 1], m, n);
    }
  }

  // A rank names one value.
  lemma RankIsUnique(xs: seq<real>, h: nat, m: real, n: real)
    requires IsRank(xs, h, m) && IsRank(xs, h, n)
    ensures m == n
  {
    if m < n {
      CountsOrdered(xs, m, n);
    } else if n < m {
      CountsOrdered(xs, n, m);
    }
  }

  lemma {:induction false} NoneBelow(xs: seq<real>, m: real)
    requires forall i :: 0 <= i < |xs| ==> m <= xs[i]
    ensures Below(xs, m) == 0
  {
    if xs != [] {
      NoneBelow(xs[..|xs| - 1], m);
    }
  }

  lemma {:induction false} AllAtMost(xs: seq<real>, m: real)
    requires forall i :: 0 <= i < |xs| ==> xs[i] <= m
    ensures AtMost(xs, m) == |xs|
  {
    if xs != [] {
      AllAtMost(xs[..|xs| - 1], m);
    }
  }

  // ---------- selection sort, stopped in the middle ----------

  // The first j places hold the j least values, in order.
  predicate Selected(orig: seq<real>, s: seq<real>, j: nat) {
    && multiset(s) == multiset(orig) && |s| == |orig| && j <= |s|
    && forall p, q :: 0 <= p < j && p <= q < |s| ==> s[p] <= s[q]
  }

  predicate LeastIn(s: seq<real>, j: nat, k: nat, min: nat) {
    j <= min < k <= |s| && forall p :: j <= p < k ==> s[min] <= s[p]
  }

  lemma SelectNone(s: seq<real>)
    ensures Selected(s, s, 0)
  {
  }

  lemma LeastAlone(s: seq<real>, j: nat)
    requires j < |s|
    ensures LeastIn(s, j, j + 1, j)
  {
  }

  lemma LeastNext(s: seq<real>, j: nat, k: nat, min: nat)
    requires LeastIn(s, j, k, min) && k < |s|
    ensures min < |s| && LeastIn(s, j, k + 1, if s[k] < s[min] then k else min)
  {
  }

  lemma SelectOne(orig: seq<real>, s: seq<real>, j: nat, min: nat)
    requires Selected(orig, s, j) && j < |s| && LeastIn(s, j, |s|, min)
    ensures Selected(orig, s[j := s[min]][min := s[j]], j + 1)
  {
  }

  lemma SelectedRank(orig: seq<real>, s: seq<real>, h: nat)
    requires Selected(orig, s, h + 1)
    ensures h < |s|
    ensures IsRank(orig, h, s[h])
  {
    hide Below, AtMost;
    CountsOfPermutation(orig, s, s[h]);
    assert s == s[..h] + s[h..] == s[..h + 1] + s[h + 1..];
    CountsConcat(s[..h], s[h..], s[h]);
    CountsConcat(s[..h + 1], s[h + 1..], s[h]);
    NoneBelow(s[h..], s[h]);
    AllAtMost(s[..h + 1], s[h]);
  }

  // ---------- covariance ----------

  function CoSum(xs: seq<real>, ys: seq<real>, mx: real, my: real): real
    requires |xs| == |ys|
  {
    if xs == [] then 0.0
    else CoSum(xs[..|xs| - 1], ys[..|ys| - 1], mx, my) + Times(xs[|xs| - 1] - mx, ys[|ys| - 1] - my)
  }

  function Times(x: real, y: real): real {
    x * y
  }

  lemma {:induction false} CoSumConcat(xs: seq<real>, ys: seq<real>, us: seq<real>, vs: seq<real>, mx: real, my: real)
    requires |xs| == |ys| && |us| == |vs|
    ensures CoSum(xs + us, ys + vs, mx, my) == CoSum(xs, ys, mx, my) + CoSum(us, vs, mx, my)
    decreases |us|
  {
    if us == [] {
      assert xs + us == xs && ys + vs == ys;
    } else {
      var n := |us| - 1;
      assert (xs + us)[..|xs| + n] == xs + us[..n];
      assert (ys + vs)[..|ys| + n] == ys + vs[..n];
      CoSumConcat(xs, ys, us[..n], vs[..n], mx, my);
    }
  }

  // The covariance of coordinates i and j of a window.
  function Cov(w: seq<Vec3>, i: nat, j: nat): real
    requires i < 3 && j < 3 && w != []
  {
    var mean := MeanOf(w);
    CoSum(Column(w, i), Column(w, j), mean.At(i), mean.At(j)) / |w| as real
  }

  lemma {:induction false} CoSumSymmetric(xs: seq<real>, ys: seq<real>, mx: real, my: real)
    requires |xs| == |ys|
    ensures CoSum(xs, ys, mx, my) == CoSum(ys, xs, my, mx)
    decreases |xs|
  {
    if xs != [] {
      CoSumSymmetric(xs[..|xs| - 1], ys[..|ys| - 1], mx, my);
    }
  }

  lemma Positive(p: real, q: real)
    requires p > 0.0 && q > 0.0
    ensures Times(p, q) > 0.0
  {
  }

  lemma SquareOfNegative(x: real)
    ensures Times(-x, -x) == Times(x, x)
  {
  }

  lemma SquareZero(x: real)
    ensures Times(x, x) >= 0.0 && (Times(x, x) == 0.0 <==> x == 0.0)
  {
    assert Times(0.0, 0.0) == 0.0;
    hide Times;
    if x < 0.0 {
      Positive(-x, -x);
      SquareOfNegative(x);
    } else if x > 0.0 {
      Positive(x, x);
    }
  }

  // The quadratic form with coefficients a, 2c and b.
  function Form(a: real, c: real, b: real, t: real, u: real): real {
    t * t * a + 2.0 * (t * u * c) + u * u * b
  }

  lemma FormStep(a: real, c: real, b: real, x: real, y: real, t: real, u: real)
    ensures Form(a + Times(x, x), c + Times(x, y), b + Times(y, y), t, u) == Form(a, c, b, t, u) + Times(t * x + u * y, t * x + u * y)
  {
    var p, q := t * x, u * y;
    assert (p + q) * (p + q) == p * p + 2.0 * (p * q) + q * q;
    assert p * p == t * t * (x * x) && q * q == u * u * (y * y);
    assert p * q == t * u * (x * y);
    assert t * t * (a + x * x) == t * t * a + t * t * (x * x);
    assert u * u * (b + y * y) == u * u * b + u * u * (y * y);
    assert t * u * (c + x * y) == t * u * c + t * u * (x * y);
  }

  lemma FormZero(t: real, u: real)
    ensures Form(0.0, 0.0, 0.0, t, u) == 0.0
  {
  }

  lemma FormGrows(a: real, c: real, b: real, x: real, y: real, t: real, u: real)
    requires Form(a, c, b, t, u) >= 0.0
    ensures Form(a + Times(x, x), c + Times(x, y), b + Times(y, y), t, u) >= 0.0
  {
    hide Form, Times;
    FormStep(a, c, b, x, y, t, u);
    SquareZero(t * x + u * y);
  }

  // It is the sum of the squares of t * (x - mx) + u * (y - my).
  lemma {:induction false} FormNonNegative(xs: seq<real>, ys: seq<real>, mx: real, my: real, t: real, u: real)
    requires |xs| == |ys|
    ensures Form(CoSum(xs, xs, mx, mx), CoSum(xs, ys, mx, my), CoSum(ys, ys, my, my), t, u) >= 0.0
    decreases |xs|
  {
    hide Form, Times;
    if xs == [] {
      FormZero(t, u);
    } else {
      var n := |xs| - 1;
      FormNonNegative(xs[..n], ys[..n], mx, my, t, u);
      FormGrows(CoSum(xs[..n], xs[..n], mx, mx), CoSum(xs[..n], ys[..n], mx, my), CoSum(ys[..n], ys[..n], my, my),
                xs[n] - mx, ys[n] - my, t, u);
    }
  }

  // A form that is never negative has c * c <= a * b.
  lemma Discriminant(a: real, c: real, b: real)
    requires forall t, u :: Form(a, c, b, t, u) >= 0.0
    ensures a >= 0.0 && b >= 0.0 && c * c <= a * b
  {
    assert Form(a, c, b, 1.0, 0.0) == a && Form(a, c, b, 0.0, 1.0) == b;
    if b > 0.0 {
      AtMinimum(a, c, b);
      if a * b - c * c < 0.0 {
        Negative(b, a * b - c * c);
      }
    } else if c != 0.0 {
      var u := -(a + 1.0) / (2.0 * c);
      assert u * c == -(a + 1.0) / 2.0;
      FlatForm(a, c, u);
    }
  }

  lemma FlatForm(a: real, c: real, u: real)
    ensures Form(a, c, 0.0, 1.0, u) == a + 2.0 * (u * c)
  {
  }

  lemma AtMinimum(a: real, c: real, b: real)
    ensures Form(a, c, b, b, -c) == b * (a * b - c * c)
  {
    var cc := c * c;
    assert b * (-c) * c == -(b * cc) && (-c) * (-c) * b == b * cc;
    assert b * (a * b - cc) == b * (a * b) - b * cc;
    assert b * b * a == b * (a * b);
  }

  lemma Negative(p: real, q: real)
    requires p > 0.0 && q < 0.0
    ensures p * q < 0.0
  {
  }

  lemma CauchySchwarz(xs: seq<real>, ys: seq<real>, mx: real, my: real)
    requires |xs| == |ys|
    ensures CoSum(xs, xs, mx, mx) >= 0.0 && CoSum(ys, ys, my, my) >= 0.0
    ensures CoSum(xs, ys, mx, my) * CoSum(xs, ys, mx, my) <= CoSum(xs, xs, mx, mx) * CoSum(ys, ys, my, my)
  {
    hide Form, CoSum;
    forall t, u
      ensures Form(CoSum(xs, xs, mx, mx), CoSum(xs, ys, mx, my), CoSum(ys, ys, my, my), t, u) >= 0.0
    {
      FormNonNegative(xs, ys, mx, my, t, u);
    }
    Discriminant(CoSum(xs, xs, mx, mx), CoSum(xs, ys, mx, my), CoSum(ys, ys, my, my));
  }

  // The covariance matrix is symmetric, its diagonal is not negative, and it satisfies Cauchy-Schwarz.
  lemma CovarianceLaws(w: seq<Vec3>, i: nat, j: nat)
    requires w != [] && i < 3 && j < 3
    ensures Cov(w, i, j) == Cov(w, j, i)
    ensures Cov(w, i, i) >= 0.0
    ensures Cov(w, i, j) * Cov(w, i, j) <= Cov(w, i, i) * Cov(w, j, j)
  {
    hide CoSum, MeanOf, Column;
    var mean, n := MeanOf(w), |w| as real;
    var xs, ys := Column(w, i), Column(w, j);
    CoSumSymmetric(xs, ys, mean.At(i), mean.At(j));
    CauchySchwarz(xs, ys, mean.At(i), mean.At(j));
    ScaleSchwarz(CoSum(xs, xs, mean.At(i), mean.At(i)), CoSum(xs, ys, mean.At(i), mean.At(j)),
                 CoSum(ys, ys, mean.At(j), mean.At(j)), n);
  }

  lemma ScaleSchwarz(a: real, c: real, b: real, n: real)
    requires n > 0.0 && a >= 0.0 && c * c <= a * b
    ensures a / n >= 0.0
    ensures (c / n) * (c / n) <= (a / n) * (b / n)
  {
    var p, q, r := a / n, b / n, c / n;
    var d := p * q - r * r;
    var nn := Times(n, n);
    assert a == p * n && b == q * n && c == r * n;
    assert a * b == p * q * nn && c * c == r * r * nn;
    assert a * b - c * c == nn * d;
    Positive(n, n);
    if d < 0.0 {
      Negative(nn, d);
    }
  }

  // A variance is 0 exactly when the coordinate never changes: then, and only then, PearsonCoefficient
  // divides by 0.
  lemma {:induction false} SquaresVanish(xs: seq<real>, m: real)
    ensures CoSum(xs, xs, m, m) >= 0.0
    ensures CoSum(xs, xs, m, m) == 0.0 <==> forall i :: 0 <= i < |xs| ==> xs[i] == m
    decreases |xs|
  {
    if xs != [] {
      var n := |xs| - 1;
      SquaresVanish(xs[..n], m);
      SquareZero(xs[n] - m);
      assert xs == xs[..n] + [xs[n]];
      assert forall i :: 0 <= i < n ==> xs[..n][i] == xs[i];
    }
  }

  lemma {:induction false} SumOfEqual(w: seq<Vec3>, i: nat, c: real)
    requires i < 3 && forall j :: 0 <= j < |w| ==> w[j].At(i) == c
    ensures Sum(w).At(i) == c * |w| as real
    decreases |w|
  {
    if w != [] {
      SumOfEqual(w[..|w| - 1], i, c);
    }
  }

  lemma VarianceZero(w: seq<Vec3>, i: nat)
    requires w != [] && i < 3
    ensures Cov(w, i, i) == 0.0 <==> forall j, k :: 0 <= j < |w| && 0 <= k < |w| ==> w[j].At(i) == w[k].At(i)
  {
    hide CoSum;
    var xs, m, n := Column(w, i), MeanOf(w).At(i), |w| as real;
    SquaresVanish(xs, m);
    ZeroQuotient(CoSum(xs, xs, m, m), n);
    assert forall j :: 0 <= j < |w| ==> xs[j] == w[j].At(i);
    if forall j, k :: 0 <= j < |w| && 0 <= k < |w| ==> w[j].At(i) == w[k].At(i) {
      MeanOfEqual(w, i, w[0].At(i));
    }
  }

  lemma ZeroQuotient(p: real, n: real)
    requires n > 0.0
    ensures p / n == 0.0 <==> p == 0.0
  {
    assert p == p / n * n;
  }

  lemma MeanOfEqual(w: seq<Vec3>, i: nat, c: real)
    requires w != [] && i < 3 && forall j :: 0 <= j < |w| ==> w[j].At(i) == c
    ensures MeanOf(w).At(i) == c
  {
    hide Sum;
    SumOfEqual(w, i, c);
    var n := |w| as real;
    assert MeanOf(w).At(i) == c * n / n;
  }

  // A correlation lies between -1 and 1. The square roots of the variances are given.
  lemma PearsonInRange(w: seq<Vec3>, i: nat, j: nat, si: real, sj: real)
    requires w != [] && i < 3 && j < 3 && si > 0.0 && sj > 0.0
    requires Times(si, si) == Cov(w, i, i) && Times(sj, sj) == Cov(w, j, j)
    ensures Times(si, sj) > 0.0
    ensures -1.0 <= Cov(w, i, j) / Times(si, sj) <= 1.0
  {
    hide Cov, Times;
    CovarianceLaws(w, i, j);
    ProductOfSquares(si, sj);
    Positive(si, sj);
    RatioInRange(Cov(w, i, j), Times(si, sj));
  }

  lemma ProductOfSquares(x: real, y: real)
    ensures Times(x, x) * Times(y, y) == Times(x, y) * Times(x, y)
  {
  }

  lemma RatioInRange(c: real, p: real)
    requires p > 0.0 && c * c <= p * p
    ensures -1.0 <= c / p <= 1.0
  {
    var q := c / p;
    assert c == q * p;
    assert c * c == q * q * (p * p);
    assert p * p > 0.0;
    if q * q > 1.0 {
      Negative(p * p, 1.0 - q * q);
    }
    if q > 1.0 {
      Negative(q, 1.0 - q);
    }
    if q < -1.0 {
      Negative(-q, 1.0 + q);
    }
  }
}
