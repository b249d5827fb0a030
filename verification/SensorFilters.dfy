// The history of samples kept by a sensor, with a cached total, and what is computed from it
// (OVR_SensorFilter.h, OVR_SensorFilter.cpp), over the reals.
module SensorFilters {
  import opened Wrappers
  import opened SensorStatistics
  import opened SavitzkyGolay

  // ---------- windows and rotations of them ----------

  lemma ColumnConcat(a: seq<Vec3>, b: seq<Vec3>, i: nat)
    requires i < 3
    ensures Column(a + b, i) == Column(a, i) + Column(b, i)
  {
  }

  // Statistics do not notice where in the buffer a window starts.
  lemma RotatedSum(w: seq<Vec3>, c: nat)
    requires c <= |w|
    ensures Sum(w[c..] + w[..c]) == Sum(w)
  {
    hide Sum;
    assert w == w[..c] + w[c..];
    SumConcat(w[..c], w[c..]);
    SumConcat(w[c..], w[..c]);
  }

  lemma RotatedCoSum(w: seq<Vec3>, c: nat, i: nat, j: nat, mx: real, my: real)
    requires c <= |w| && i < 3 && j < 3
    ensures CoSum(Column(w[c..] + w[..c], i), Column(w[c..] + w[..c], j), mx, my)
            == CoSum(Column(w, i), Column(w, j), mx, my)
  {
    hide CoSum;
    var a, b := w[..c], w[c..];
    assert w == a + b;
    CoSumConcat(Column(a, i), Column(a, j), Column(b, i), Column(b, j), mx, my);
    CoSumConcat(Column(b, i), Column(b, j), Column(a, i), Column(a, j), mx, my);
    ColumnConcat(a, b, i);
    ColumnConcat(a, b, j);
    ColumnConcat(b, a, i);
    ColumnConcat(b, a, j);
  }

  lemma RotatedRank(w: seq<Vec3>, c: nat, i: nat, h: nat, m: real)
    requires c <= |w| && i < 3
    ensures IsRank(Column(w[c..] + w[..c], i), h, m) <==> IsRank(Column(w, i), h, m)
  {
    hide Below, AtMost;
    var a, b := w[..c], w[c..];
    assert w == a + b;
    CountsConcat(Column(a, i), Column(b, i), m);
    CountsConcat(Column(b, i), Column(a, i), m);
    ColumnConcat(a, b, i);
    ColumnConcat(b, a, i);
  }

  // ---------- the buffer ----------

  // `history` is every sample ever added, oldest first; the buffer holds the last of them, the most recent at
  // lastIdx, and zeros where nothing has been stored yet.
  predicate Layout(elems: seq<Vec3>, lastIdx: int, count: int, history: seq<Vec3>) {
    && -1 <= lastIdx < |elems| && (lastIdx == -1 <==> history == [])
    && count == (if |history| < |elems| then |history| else |elems|)
    && (count < |elems| ==> lastIdx == count - 1)
    && (forall j :: 0 <= j <= lastIdx ==> elems[j] == history[|history| - 1 - lastIdx + j])
    && (forall j :: lastIdx < j < count ==> elems[j] == history[|history| - 1 - lastIdx - |elems| + j])
    && (forall j :: count <= j < |elems| ==> elems[j] == ZERO)
  }

  // The samples kept, oldest first.
  function Kept(history: seq<Vec3>, capacity: nat): (w: seq<Vec3>)
    ensures |w| == if |history| < capacity then |history| else capacity
  {
    if |history| < capacity then history else history[|history| - capacity..]
  }

  // What GetPrev gives for 0 to n - 1.
  function Last(history: seq<Vec3>, capacity: nat, n: nat): (p: seq<Vec3>)
    ensures |p| == n
  {
    seq(n, i requires 0 <= i < n => if i < |Kept(history, capacity)| then history[|history| - 1 - i] else ZERO)
  }

  function Next(lastIdx: int, capacity: int): (n: int)
    requires capacity > 0 && -1 <= lastIdx < capacity
    ensures n == if lastIdx + 1 < capacity then lastIdx + 1 else 0
  {
    (lastIdx + 1) % capacity
  }

  lemma StoreKeepsLayout(elems: seq<Vec3>, lastIdx: int, count: int, history: seq<Vec3>, e: Vec3)
    requires |elems| > 0 && Layout(elems, lastIdx, count, history)
    ensures var next := Next(lastIdx, |elems|);
            && Layout(elems[next := e], next, if count < |elems| then count + 1 else count, history + [e])
            && elems[next] == if count < |elems| then ZERO else Kept(history, |elems|)[0]
  {
    hide Next;
    var next, h := Next(lastIdx, |elems|), history + [e];
    var t := elems[next := e];
    forall j | 0 <= j <= next
      ensures t[j] == h[|h| - 1 - next + j]
    {
    }
    forall j | next < j < if count < |elems| then count + 1 else count
      ensures t[j] == h[|h| - 1 - next - |elems| + j]
    {
    }
  }

  lemma KeptAfter(history: seq<Vec3>, capacity: nat, e: Vec3)
    requires capacity > 0
    ensures var w := Kept(history, capacity);
            Kept(history + [e], capacity) == if |history| < capacity then w + [e] else w[1..] + [e]
  {
  }

  // As it lies in the buffer, the window is rotated.
  lemma InPlace(elems: seq<Vec3>, lastIdx: int, count: int, history: seq<Vec3>)
    requires |elems| > 0 && Layout(elems, lastIdx, count, history)
    ensures var w, c := Kept(history, |elems|), count - 1 - lastIdx;
            && 0 <= c <= |w| == count <= |elems|
            && elems[..count] == w[c..] + w[..c]
  {
    var w, c := Kept(history, |elems|), count - 1 - lastIdx;
    forall j | 0 <= j < count
      ensures elems[j] == (w[c..] + w[..c])[j]
    {
    }
  }

  lemma Recent(elems: seq<Vec3>, lastIdx: int, count: int, history: seq<Vec3>, i: int)
    requires |elems| > 0 && Layout(elems, lastIdx, count, history) && 0 <= i < count
    ensures var idx := if lastIdx - i < 0 then lastIdx - i + |elems| else lastIdx - i;
            0 <= idx < |elems| && elems[idx] == history[|history| - 1 - i]
  {
  }

  // What the total becomes when a sample comes in and, from a full window, the oldest goes.
  lemma Moved(w: seq<Vec3>, e: Vec3, full: bool)
    requires full ==> w != []
    ensures Sum(w).Plus(e.Minus(if full then w[0] else ZERO)) == Sum(if full then w[1..] + [e] else w + [e])
  {
    SumConcat(w, [e]);
    assert Sum([e]) == e by { assert [e][..0] == []; }
    if full {
      assert w == w[..1] + w[1..];
      SumConcat(w[..1], w[1..]);
      SumConcat(w[1..], [e]);
      assert Sum(w[..1]) == w[0] by { assert w[..1][..0] == []; }
    }
  }

  lemma TotalAfter(elems: seq<Vec3>, lastIdx: int, count: int, history: seq<Vec3>, e: Vec3)
    requires |elems| > 0 && Layout(elems, lastIdx, count, history)
    ensures Sum(Kept(history, |elems|)).Plus(e.Minus(elems[Next(lastIdx, |elems|)])) == Sum(Kept(history + [e], |elems|))
  {
    StoreKeepsLayout(elems, lastIdx, count, history, e);
    KeptAfter(history, |elems|, e);
    Moved(Kept(history, |elems|), e, count == |elems|);
  }

  lemma SumOf(w: seq<Vec3>, i: int)
    requires 0 <= i <= |w|
    ensures Sum(w[..0]) == ZERO
    ensures i < |w| ==> Sum(w[..i + 1]) == Sum(w[..i]).Plus(w[i])
  {
    if i < |w| {
      assert w[..i + 1][..i] == w[..i];
    }
  }

  lemma DiffNone(p: seq<real>)
    requires |p| > 0
    ensures DiffSum(p, 0) == 0.0
  {
  }

  lemma DiffNext(p: seq<Vec3>, k: nat, r: Vec3)
    requires |p| > 0 && 0 < k <= (|p| - 1) / 2
    requires forall c :: 0 <= c < 3 ==> r.At(c) == DiffSum(Column(p, c), k - 1)
    ensures var m := (|p| - 1) / 2;
            var next := r.Plus(p[m - k].Minus(p[|p| - m + k - 1]).Scaled(k as real));
            forall c :: 0 <= c < 3 ==> next.At(c) == DiffSum(Column(p, c), k)
  {
    hide Times;
    var m := (|p| - 1) / 2;
    var next := r.Plus(p[m - k].Minus(p[|p| - m + k - 1]).Scaled(k as real));
    assert next.At(0) == DiffSum(Column(p, 0), k);
    assert next.At(1) == DiffSum(Column(p, 1), k);
    assert next.At(2) == DiffSum(Column(p, 2), k);
  }

  lemma ScaledSum(p: seq<real>, v: real)
    requires |p| >= 3 && v == DiffSum(p, (|p| - 1) / 2) && Divisor((|p| - 1) / 2) > 0.0
    ensures Times(v, 3.0 / Divisor((|p| - 1) / 2)) == SavGol(p)
  {
    hide Divisor, DiffSum, Times;
  }

  method Exchange(a: array<real>, j: nat, k: nat)
    requires j < a.Length && k < a.Length
    modifies a
    ensures a[..] == old(a[..])[j := old(a[k])][k := old(a[j])]
  {
    var temp := a[j];
    a[j] := a[k];
    a[k] := temp;
  }

  // Puts the least of the places from j on at j, in each of three arrays.
  method SelectPlace(sx: array<real>, sy: array<real>, sz: array<real>, j: nat,
                     ghost xs: seq<real>, ghost ys: seq<real>, ghost zs: seq<real>)
    requires sx != sy && sy != sz && sx != sz && sx.Length == sy.Length == sz.Length && j < sx.Length
    requires Selected(xs, sx[..], j) && Selected(ys, sy[..], j) && Selected(zs, sz[..], j)
    modifies sx, sy, sz
    ensures Selected(xs, sx[..], j + 1) && Selected(ys, sy[..], j + 1) && Selected(zs, sz[..], j + 1)
  {
    hide Selected, LeastIn;
    var minx: nat, miny: nat, minz: nat := j, j, j;
    LeastAlone(sx[..], j);
    LeastAlone(sy[..], j);
    LeastAlone(sz[..], j);
    for k := j + 1 to sx.Length
      invariant sx[..] == old(sx[..]) && sy[..] == old(sy[..]) && sz[..] == old(sz[..])
      invariant minx < sx.Length && miny < sx.Length && minz < sx.Length
      invariant LeastIn(sx[..], j, k, minx) && LeastIn(sy[..], j, k, miny) && LeastIn(sz[..], j, k, minz)
    {
      LeastNext(sx[..], j, k, minx);
      LeastNext(sy[..], j, k, miny);
      LeastNext(sz[..], j, k, minz);
      if sx[k] < sx[minx] { minx := k; }
      if sy[k] < sy[miny] { miny := k; }
      if sz[k] < sz[minz] { minz := k; }
    }
    SelectOne(xs, sx[..], j, minx);
    SelectOne(ys, sy[..], j, miny);
    SelectOne(zs, sz[..], j, minz);
    Exchange(sx, j, minx);
    Exchange(sy, j, miny);
    Exchange(sz, j, minz);
  }

  lemma RankInWindow(elems: seq<Vec3>, lastIdx: int, count: int, history: seq<Vec3>, i: nat, s: seq<real>, h: nat)
    requires |elems| > 0 && Layout(elems, lastIdx, count, history) && 0 <= count <= |elems| && i < 3
    requires Selected(Column(elems[..count], i), s, h + 1)
    ensures h < |s|
    ensures IsRank(Column(Kept(history, |elems|), i), h, s[h])
  {
    hide Layout, Kept, IsRank, Column, Selected;
    InPlace(elems, lastIdx, count, history);
    SelectedRank(Column(elems[..count], i), s, h);
    RotatedRank(Kept(history, |elems|), count - 1 - lastIdx, i, h, s[h]);
  }

  lemma CountInRange(elems: seq<Vec3>, lastIdx: int, count: int, history: seq<Vec3>)
    requires |elems| > 0 && Layout(elems, lastIdx, count, history)
    ensures 0 <= count <= |elems| && count == |Kept(history, |elems|)|
  {
  }

  // The first half + 1 places, one after the other.
  method SelectPlaces(sx: array<real>, sy: array<real>, sz: array<real>, half: nat)
    requires sx != sy && sy != sz && sx != sz && sx.Length == sy.Length == sz.Length && half < sx.Length
    modifies sx, sy, sz
    ensures Selected(old(sx[..]), sx[..], half + 1) && Selected(old(sy[..]), sy[..], half + 1)
    ensures Selected(old(sz[..]), sz[..], half + 1)
  {
    hide Selected;
    ghost var xs, ys, zs := sx[..], sy[..], sz[..];
    SelectNone(xs);
    SelectNone(ys);
    SelectNone(zs);
    for j := 0 to half + 1
      invariant Selected(xs, sx[..], j) && Selected(ys, sy[..], j) && Selected(zs, sz[..], j)
    {
      SelectPlace(sx, sy, sz, j, xs, ys, zs);
    }
  }

  // The sums Covariance makes, over the first n places.
  function CoUpTo(elems: seq<Vec3>, n: nat, i: nat, j: nat, mean: Vec3): real
    requires n <= |elems| && i < 3 && j < 3
  {
    CoSum(Column(elems[..n], i), Column(elems[..n], j), mean.At(i), mean.At(j))
  }

  lemma CoNone(elems: seq<Vec3>, i: nat, j: nat, mean: Vec3)
    requires i < 3 && j < 3
    ensures CoUpTo(elems, 0, i, j, mean) == 0.0
  {
  }

  lemma CoNext(elems: seq<Vec3>, n: nat, i: nat, j: nat, mean: Vec3)
    requires n < |elems| && i < 3 && j < 3
    ensures CoUpTo(elems, n + 1, i, j, mean)
            == CoUpTo(elems, n, i, j, mean) + Times(elems[n].At(i) - mean.At(i), elems[n].At(j) - mean.At(j))
  {
    hide Times;
    assert Column(elems[..n + 1], i)[..n] == Column(elems[..n], i);
    assert Column(elems[..n + 1], j)[..n] == Column(elems[..n], j);
  }

  lemma CoWhole(elems: seq<Vec3>, lastIdx: int, count: int, history: seq<Vec3>, i: nat, j: nat)
    requires |elems| > 0 && Layout(elems, lastIdx, count, history) && 0 < count <= |elems| && i < 3 && j < 3
    ensures Kept(history, |elems|) != []
    ensures var w := Kept(history, |elems|);
            CoUpTo(elems, count, i, j, MeanOf(w)) / count as real == Cov(w, i, j)
  {
    InPlace(elems, lastIdx, count, history);
    hide Layout, Kept, Column, CoSum, MeanOf;
    var w := Kept(history, |elems|);
    RotatedCoSum(w, count - 1 - lastIdx, i, j, MeanOf(w).At(i), MeanOf(w).At(j));
  }

  // The sums so far stand below the diagonal and on it.
  ghost predicate Summed(total: array2<real>, elems: seq<Vec3>, n: nat, mean: Vec3)
    requires total.Length0 == total.Length1 == 4 && n <= |elems|
    reads total
  {
    && (forall i: nat, j: nat :: j <= i < 3 ==> total[i, j] == CoUpTo(elems, n, i, j, mean))
    && (forall i :: 0 <= i < 3 ==> total[3, i] == total[i, 3] == 0.0)
    && total[3, 3] == 1.0
  }

  method AddSample(total: array2<real>, e: Vec3, mean: Vec3, ghost elems: seq<Vec3>, ghost n: nat)
    requires total.Length0 == total.Length1 == 4 && n < |elems| && elems[n] == e && Summed(total, elems, n, mean)
    modifies total
    ensures Summed(total, elems, n + 1, mean)
  {
    hide CoUpTo, Times;
    total[0, 0] := total[0, 0] + Times(e.x - mean.x, e.x - mean.x);
    total[1, 0] := total[1, 0] + Times(e.y - mean.y, e.x - mean.x);
    total[2, 0] := total[2, 0] + Times(e.z - mean.z, e.x - mean.x);
    total[1, 1] := total[1, 1] + Times(e.y - mean.y, e.y - mean.y);
    total[2, 1] := total[2, 1] + Times(e.z - mean.z, e.y - mean.y);
    total[2, 2] := total[2, 2] + Times(e.z - mean.z, e.z - mean.z);
    forall i: nat, j: nat | j <= i < 3
      ensures total[i, j] == CoUpTo(elems, n + 1, i, j, mean)
    {
      CoNext(elems, n, i, j, mean);
    }
  }

  method ScaleBlock(total: array2<real>, k: real)
    requires total.Length0 == total.Length1 == 4
    modifies total
    ensures forall i, j :: 0 <= i < 4 && 0 <= j < 4 ==>
                             total[i, j] == if i < 3 && j < 3 then Times(old(total[i, j]), k) else old(total[i, j])
  {
    hide Times;
    for i := 0 to 3
      invariant forall p, q :: 0 <= p < 4 && 0 <= q < 4 ==>
                                 total[p, q] == if p < i && q < 3 then Times(old(total[p, q]), k) else old(total[p, q])
    {
      for j := 0 to 3
        invariant forall p, q ::
                    0 <= p < 4 && 0 <= q < 4 ==>
                      total[p, q] == if (p < i && q < 3) || (p == i && q < j) then Times(old(total[p, q]), k)
                                     else old(total[p, q])
      {
        total[i, j] := Times(total[i, j], k);
      }
    }
  }

  lemma ScaledIsCov(elems: seq<Vec3>, lastIdx: int, count: int, history: seq<Vec3>, i: nat, j: nat)
    requires |elems| > 0 && Layout(elems, lastIdx, count, history) && 0 < count <= |elems| && i < 3 && j < 3
    ensures Kept(history, |elems|) != []
    ensures var w := Kept(history, |elems|);
            var sum := CoUpTo(elems, count, i, j, MeanOf(w));
            Times(sum, 1.0 / count as real) == Cov(w, i, j) == Cov(w, j, i)
  {
    CoWhole(elems, lastIdx, count, history, i, j);
    hide Layout, Kept, Cov, CoUpTo;
    CovarianceLaws(Kept(history, |elems|), i, j);
    TimesInverse(CoUpTo(elems, count, i, j, MeanOf(Kept(history, |elems|))), count as real);
  }

  lemma TimesInverse(x: real, n: real)
    requires n > 0.0
    ensures Times(x, 1.0 / n) == x / n
  {
  }

  // cov / (si * sj), unless that is a division by 0.
  function Ratio(cov: real, si: real, sj: real): Option<real> {
    if Times(si, sj) == 0.0 then None else Some(cov / Times(si, sj))
  }

  // What a coefficient is, and when there is none.
  predicate Coefficient(r: Option<real>, w: seq<Vec3>, i: nat, j: nat, si: real, sj: real)
    requires i < 3 && j < 3
  {
    && (r.None? <==> w == [] || Cov(w, i, i) == 0.0 || Cov(w, j, j) == 0.0)
    && (r.Some? ==> Times(si, sj) > 0.0 && r.value == Cov(w, i, j) / Times(si, sj) && -1.0 <= r.value <= 1.0)
  }

  lemma RatioIsCoefficient(w: seq<Vec3>, i: nat, j: nat, si: real, sj: real)
    requires w != [] && i < 3 && j < 3 && si >= 0.0 && sj >= 0.0
    requires Times(si, si) == Cov(w, i, i) && Times(sj, sj) == Cov(w, j, j)
    ensures Coefficient(Ratio(Cov(w, i, j), si, sj), w, i, j, si, sj)
  {
    hide Cov, Times;
    SquareZero(si);
    SquareZero(sj);
    if si > 0.0 && sj > 0.0 {
      PearsonInRange(w, i, j, si, sj);
    } else {
      ProductZero(si, sj);
    }
  }

  lemma ProductZero(x: real, y: real)
    requires x == 0.0 || y == 0.0
    ensures Times(x, y) == 0.0
  {
  }

  class SensorFilter {
    const capacity: int
    const elements: array<Vec3>
    var lastIdx: int              // of the element added last
    var count: int
    var runningTotal: Vec3        // cached
    ghost var history: seq<Vec3>

    ghost predicate Buffered()
      reads this, elements
    {
      0 < capacity == elements.Length && Layout(elements[..], lastIdx, count, history)
    }

    ghost function Window(): seq<Vec3>
      reads this, elements
      requires Buffered()
    {
      Kept(history, capacity)
    }

    ghost predicate Valid()
      reads this, elements
    {
      Buffered() && runningTotal == Sum(Window())
    }

    constructor (capacity: int)
      requires capacity > 0
      ensures Valid() && history == [] && this.capacity == capacity && fresh(elements)
    {
      this.capacity := capacity;
      lastIdx, count, runningTotal, history := -1, 0, ZERO, [];
      elements := new Vec3[capacity];
      new;
      for i := 0 to capacity
        invariant lastIdx == -1 && count == 0 && runningTotal == ZERO && history == []
        invariant forall j :: 0 <= j < i ==> elements[j] == ZERO
      {
        elements[i] := ZERO;
      }
    }

    // CircularBuffer::AddElement
    method Store(e: Vec3)
      requires Buffered()
      modifies this`lastIdx, this`count, this`history, elements
      ensures Buffered() && history == old(history) + [e]
      ensures lastIdx == Next(old(lastIdx), capacity)
    {
      StoreKeepsLayout(elements[..], lastIdx, count, history, e);
      hide Layout;
      ghost var was := elements[..];
      lastIdx := Next(lastIdx, capacity);
      elements[lastIdx] := e;
      assert elements[..] == was[lastIdx := e];
      if count < capacity {
        count := count + 1;
      }
      history := history + [e];
    }

    // The i-th most recent sample, or zero where there is none.
    function GetPrev(i: int): (r: Vec3)
      reads this, elements
      requires Buffered() && i >= 0
      ensures r == if i < |Window()| then history[|history| - 1 - i] else ZERO
    {
      if i >= count then ZERO
      else
        Recent(elements[..], lastIdx, count, history, i);
        if lastIdx - i < 0 then elements[lastIdx - i + capacity] else elements[lastIdx - i]
    }

    method AddElement(e: Vec3)
      requires Valid()
      modifies this, elements
      ensures Valid() && history == old(history) + [e]
    {
      TotalAfter(elements[..], lastIdx, count, history, e);
      hide Layout, Kept, Sum;
      var nextIdx := Next(lastIdx, capacity);
      runningTotal := runningTotal.Plus(e.Minus(elements[nextIdx]));
      Store(e);
      if lastIdx == 0 {
        Recompute();
      }
    }

    // Renews the cached total, so that rounding errors do not accumulate.
    method Recompute()
      requires Buffered()
      modifies this`runningTotal
      ensures Valid() && history == old(history)
    {
      InPlace(elements[..], lastIdx, count, history);
      hide Layout, Kept, Sum;
      runningTotal := ZERO;
      SumOf(elements[..], 0);
      for i := 0 to count
        invariant runningTotal == Sum(elements[..][..i])
      {
        SumOf(elements[..], i);
        runningTotal := runningTotal.Plus(elements[i]);
      }
      RotatedSum(Window(), count - 1 - lastIdx);
    }

    function Total(): (r: Vec3)
      reads this, elements
      requires Valid()
      ensures r == Sum(Window())
    {
      runningTotal
    }

    function Mean(): (r: Vec3)
      reads this, elements
      requires Valid()
      ensures r == MeanOf(Window())
    {
      if count == 0 then ZERO else Total().Over(count as real)
    }

    // None where the original divides by 0, which yields no number.
    method SavitzkyGolayDerivativeN(n: int) returns (r: Option<Vec3>)
      requires Buffered() && n <= capacity
      ensures if n >= 3 then r.Some? && forall c :: 0 <= c < 3 ==> r.value.At(c) == SavGol(Column(Last(history, capacity, n), c))
              else r == if n >= -2 then None else Some(ZERO)
    {
      var m := if n >= 1 then (n - 1) / 2 else -((1 - n) / 2);
      if n < 3 {
        return if m == 0 || m == -1 then None else Some(ZERO);
      }
      var sum := Differences(n, m);
      DivisorPositive(m);
      var coef := 3.0 / Divisor(m);
      forall c | 0 <= c < 3 ensures sum.Scaled(coef).At(c) == SavGol(Column(Last(history, capacity, n), c)) {
        ScaledSum(Column(Last(history, capacity, n), c), sum.At(c));
      }
      r := Some(sum.Scaled(coef));
    }

    method Differences(n: nat, m: nat) returns (result: Vec3)
      requires Buffered() && 3 <= n <= capacity && m == (n - 1) / 2
      ensures forall c :: 0 <= c < 3 ==> result.At(c) == DiffSum(Column(Last(history, capacity, n), c), m)
    {
      hide Layout, Kept, SavGol, DiffSum, Divisor, Times, Column;
      result := ZERO;
      forall c | 0 <= c < 3 ensures DiffSum(Column(Last(history, capacity, n), c), 0) == 0.0 {
        DiffNone(Column(Last(history, capacity, n), c));
      }
      for k := 1 to m + 1
        invariant forall c :: 0 <= c < 3 ==> result.At(c) == DiffSum(Column(Last(history, capacity, n), c), k - 1)
      {
        var ind1, ind2 := m - k, n - m + k - 1;
        DiffNext(Last(history, capacity, n), k, result);
        result := result.Plus(GetPrev(ind1).Minus(GetPrev(ind2)).Scaled(k as real));
      }
    }

    method Columns() returns (sx: array<real>, sy: array<real>, sz: array<real>)
      requires Buffered() && 0 <= count <= capacity
      ensures fresh(sx) && fresh(sy) && fresh(sz) && sx != sy && sy != sz && sx != sz
      ensures sx[..] == Column(elements[..count], 0) && sy[..] == Column(elements[..count], 1)
      ensures sz[..] == Column(elements[..count], 2)
    {
      hide Layout;
      sx, sy, sz := new real[count], new real[count], new real[count];
      for i := 0 to count
        invariant forall j :: 0 <= j < i ==> sx[j] == elements[j].x && sy[j] == elements[j].y && sz[j] == elements[j].z
      {
        sx[i], sy[i], sz[i] := elements[i].x, elements[i].y, elements[i].z;
      }
    }

    // None for an empty window, where the original takes what it has not written.
    method Median() returns (r: Option<Vec3>)
      requires Valid()
      ensures r.None? <==> Window() == []
      ensures r.Some? ==> forall c :: 0 <= c < 3 ==> IsRank(Column(Window(), c), |Window()| / 2, r.value.At(c))
    {
      hide Layout, Kept, Selected, Sum, IsRank, Column;
      CountInRange(elements[..], lastIdx, count, history);
      if count == 0 {
        return None;
      }
      var halfWindow := count / 2;
      var sortx, sorty, sortz := Columns();
      SelectPlaces(sortx, sorty, sortz, halfWindow);
      RankInWindow(elements[..], lastIdx, count, history, 0, sortx[..], halfWindow);
      RankInWindow(elements[..], lastIdx, count, history, 1, sorty[..], halfWindow);
      RankInWindow(elements[..], lastIdx, count, history, 2, sortz[..], halfWindow);
      r := Some(Vec3(sortx[halfWindow], sorty[halfWindow], sortz[halfWindow]));
    }

    // The diagonal of the covariance matrix; None for an empty window, where the original divides by 0.
    method Variance() returns (r: Option<Vec3>)
      requires Valid()
      ensures r.None? <==> Window() == []
      ensures r.Some? ==> forall c :: 0 <= c < 3 ==> r.value.At(c) == Cov(Window(), c, c)
    {
      hide Layout, Kept, CoUpTo, Cov, Times;
      CountInRange(elements[..], lastIdx, count, history);
      var mean := Mean();
      var total := ZERO;
      forall c: nat | c < 3 ensures CoUpTo(elements[..], 0, c, c, mean) == 0.0 {
        CoNone(elements[..], c, c, mean);
      }
      for i := 0 to count
        invariant total.x == CoUpTo(elements[..], i, 0, 0, mean)
        invariant total.y == CoUpTo(elements[..], i, 1, 1, mean)
        invariant total.z == CoUpTo(elements[..], i, 2, 2, mean)
      {
        var e := elements[i];
        total := Vec3(total.x + Times(e.x - mean.x, e.x - mean.x), total.y + Times(e.y - mean.y, e.y - mean.y),
                      total.z + Times(e.z - mean.z, e.z - mean.z));
        CoNext(elements[..], i, 0, 0, mean);
        CoNext(elements[..], i, 1, 1, mean);
        CoNext(elements[..], i, 2, 2, mean);
      }
      if count == 0 {
        return None;
      }
      forall c: nat | c < 3 ensures total.At(c) / count as real == Cov(Window(), c, c) {
        CoWhole(elements[..], lastIdx, count, history, c, c);
      }
      r := Some(total.Over(count as real));
    }

    // The sums below the diagonal and on it.
    method CoSums(mean: Vec3) returns (total: array2<real>)
      requires Buffered()
      ensures fresh(total) && total.Length0 == total.Length1 == 4 && 0 <= count <= capacity
      ensures Summed(total, elements[..], count, mean)
    {
      hide Layout, Kept, CoUpTo, Times;
      CountInRange(elements[..], lastIdx, count, history);
      total := new real[4, 4]((i, j) => if i == 3 && j == 3 then 1.0 else 0.0);
      forall i: nat, j: nat | j <= i < 3 ensures CoUpTo(elements[..], 0, i, j, mean) == 0.0 {
        CoNone(elements[..], i, j, mean);
      }
      for i := 0 to count
        invariant Summed(total, elements[..], i, mean)
      {
        AddSample(total, elements[i], mean, elements[..], i);
      }
    }

    // The block of 3 by 3 in the corner; None for an empty window.
    method Covariance() returns (r: Option<array2<real>>)
      requires Valid()
      ensures r.None? <==> Window() == []
      ensures r.Some? ==> fresh(r.value) && r.value.Length0 == r.value.Length1 == 4
      ensures r.Some? ==> forall i, j :: 0 <= i < 3 && 0 <= j < 3 ==> r.value[i, j] == Cov(Window(), i, j)
      ensures r.Some? ==> r.value[3, 3] == 1.0 && forall i :: 0 <= i < 3 ==> r.value[3, i] == r.value[i, 3] == 0.0
    {
      hide Layout, Kept, CoUpTo, Cov, Times;
      CountInRange(elements[..], lastIdx, count, history);
      var mean := Mean();
      var total := CoSums(mean);
      total[0, 1] := total[1, 0];
      total[0, 2] := total[2, 0];
      total[1, 2] := total[2, 1];
      if count == 0 {
        return None;
      }
      ghost var w, elems := Window(), elements[..];
      assert forall i: nat, j: nat :: j <= i < 3 ==> total[i, j] == total[j, i] == CoUpTo(elems, count, i, j, mean);
      ScaleBlock(total, 1.0 / count as real);
      forall i: nat, j: nat | j <= i < 3 ensures total[i, j] == total[j, i] == Cov(w, i, j) == Cov(w, j, i) {
        ScaledIsCov(elems, lastIdx, count, history, i, j);
      }
      r := Some(total);
    }

    // sx, sy and sz are the square roots of the variances. A coefficient is None where the original divides by 0:
    // for an empty window, or when one of its two coordinates never changes.
    method PearsonCoefficient(sx: real, sy: real, sz: real) returns (x: Option<real>, y: Option<real>, z: Option<real>)
      requires Valid() && sx >= 0.0 && sy >= 0.0 && sz >= 0.0
      requires Window() != [] ==> Times(sx, sx) == Cov(Window(), 0, 0) && Times(sy, sy) == Cov(Window(), 1, 1)
      requires Window() != [] ==> Times(sz, sz) == Cov(Window(), 2, 2)
      ensures Coefficient(x, Window(), 0, 1, sx, sy)
      ensures Coefficient(y, Window(), 1, 2, sy, sz)
      ensures Coefficient(z, Window(), 2, 0, sz, sx)
    {
      hide Layout, Kept, Cov, Times;
      var cov := Covariance();
      if cov.None? {
        return None, None, None;
      }
      var m := cov.value;
      RatioIsCoefficient(Window(), 0, 1, sx, sy);
      RatioIsCoefficient(Window(), 1, 2, sy, sz);
      RatioIsCoefficient(Window(), 2, 0, sz, sx);
      hide Coefficient, Ratio;
      x, y, z := Ratio(m[0, 1], sx, sy), Ratio(m[1, 2], sy, sz), Ratio(m[2, 0], sz, sx);
    }
  }
}
