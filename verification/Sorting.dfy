// What the sorts of OVR_Alg.h are proved against: orders, permutations of a slice, and the bookkeeping of
// a quicksort that keeps its open segments on an explicit stack.
module SortingTheory {

  // The C++ requirement on a comparison.
  ghost predicate StrictWeakOrder<T(!new)>(less: (T, T) -> bool) {
    && (forall x :: !less(x, x))
    && (forall x, y, z :: less(x, y) && less(y, z) ==> less(x, z))
    && (forall x, y, z :: !less(x, y) && !less(y, x) && !less(y, z) && !less(z, y) ==> !less(x, z) && !less(z, x))
  }

  predicate AtMost<T>(less: (T, T) -> bool, x: T, y: T) {
    !less(y, x)
  }

  lemma AtMostTransitive<T(!new)>(less: (T, T) -> bool, x: T, y: T, z: T)
    requires StrictWeakOrder(less)
    requires AtMost(less, x, y) && AtMost(less, y, z)
    ensures AtMost(less, x, z)
  {
  }

  lemma AtMostReflexive<T(!new)>(less: (T, T) -> bool, x: T)
    requires StrictWeakOrder(less)
    ensures AtMost(less, x, x)
  {
  }

  lemma LessIsAtMost<T(!new)>(less: (T, T) -> bool, x: T, y: T)
    requires StrictWeakOrder(less) && less(x, y)
    ensures AtMost(less, x, y)
  {
    assert !less(x, x);
  }

  ghost predicate SortedSlice<T>(less: (T, T) -> bool, s: seq<T>, lo: int, hi: int) {
    0 <= lo && hi <= |s| && forall p, q :: lo <= p < q < hi ==> AtMost(less, s[p], s[q])
  }

  // No two elements of the slice are equal, and it is in order.
  ghost predicate Increasing<T>(less: (T, T) -> bool, s: seq<T>, lo: int, hi: int) {
    0 <= lo && hi <= |s| && forall p, q :: lo <= p < q < hi ==> less(s[p], s[q])
  }

  lemma IncreasingPart<T>(less: (T, T) -> bool, s: seq<T>, lo: int, hi: int, lo': int, hi': int)
    requires Increasing(less, s, lo, hi) && lo <= lo' && hi' <= hi
    ensures Increasing(less, s, lo', hi')
  {
  }

  // The numbers below n are such a slice.
  lemma IncreasingExists(n: nat)
    ensures var less := (x: int, y: int) => x < y;
            StrictWeakOrder(less) && Increasing(less, seq(n, i => i), 0, n)
  {
  }

  // `b` is `a` with the elements of the slice [lo, hi) rearranged and nothing else changed.
  ghost predicate Permutes<T>(a: seq<T>, b: seq<T>, lo: int, hi: int) {
    && |a| == |b|
    && (forall k :: 0 <= k < |a| && !(lo <= k < hi) ==> a[k] == b[k])
    && multiset(a) == multiset(b)
  }

  lemma Widen<T>(a: seq<T>, b: seq<T>, lower: int, lo: int, hi: int)
    requires Permutes(a, b, lo, hi) && lower <= lo
    ensures Permutes(a, b, lower, hi)
  {
  }

  lemma SliceMultiset<T>(a: seq<T>, b: seq<T>, lo: int, hi: int)
    requires Permutes(a, b, lo, hi) && 0 <= lo <= hi <= |a|
    ensures multiset(a[lo..hi]) == multiset(b[lo..hi])
  {
    var front, back := a[..lo], a[hi..];
    assert b[..lo] == front && b[hi..] == back;
    assert a == front + a[lo..hi] + back;
    assert b == front + b[lo..hi] + back;
    CancelOutside(front, a[lo..hi], b[lo..hi], back);
  }

  lemma CancelOutside<T>(front: seq<T>, x: seq<T>, y: seq<T>, back: seq<T>)
    requires multiset(front + x + back) == multiset(front + y + back)
    ensures multiset(x) == multiset(y)
  {
    assert multiset(front + x + back) == multiset(front) + multiset(x) + multiset(back);
    assert multiset(front + y + back) == multiset(front) + multiset(y) + multiset(back);
    forall e: T
      ensures multiset(x)[e] == multiset(y)[e]
    {
      assert multiset(front + x + back)[e] == multiset(front)[e] + multiset(x)[e] + multiset(back)[e];
      assert multiset(front + y + back)[e] == multiset(front)[e] + multiset(y)[e] + multiset(back)[e];
    }
  }

  // An element of the new slice comes from the old slice.
  lemma Origin<T>(a: seq<T>, b: seq<T>, lo: int, hi: int, k: int) returns (m: int)
    requires Permutes(a, b, lo, hi) && 0 <= lo <= k < hi <= |a|
    ensures lo <= m < hi && a[m] == b[k]
  {
    SliceMultiset(a, b, lo, hi);
    assert b[k] == b[lo..hi][k - lo];
    assert b[k] in multiset(b[lo..hi]);
    assert b[k] in a[lo..hi];
    var i :| 0 <= i < hi - lo && a[lo..hi][i] == b[k];
    m := lo + i;
  }

  // ---------- open segments ----------

  datatype Segment = Segment(lo: int, hi: int) {
    function Length(): int { hi - lo }
  }

  // Positions p and q are in a segment that is still to be sorted.
  ghost predicate Open(segs: seq<Segment>, p: int, q: int) {
    exists k :: 0 <= k < |segs| && segs[k].lo <= p && q < segs[k].hi
  }

  // Any two positions of the slice are in order unless one open segment contains both.
  ghost predicate SortedOutside<T>(less: (T, T) -> bool, s: seq<T>, start: int, end: int, segs: seq<Segment>) {
    && 0 <= start && end <= |s|
    && forall p, q :: start <= p < q < end ==> AtMost(less, s[p], s[q]) || Open(segs, p, q)
  }

  ghost predicate Disjoint(segs: seq<Segment>) {
    forall k, m :: 0 <= k < m < |segs| ==> segs[k].hi <= segs[m].lo || segs[m].hi <= segs[k].lo
  }

  // Rearranging the open segment `cur` so that it is in order outside `parts` leaves only `parts` open.
  lemma Refine<T>(less: (T, T) -> bool, s: seq<T>, t: seq<T>, start: int, end: int,
                  rest: seq<Segment>, cur: Segment, parts: seq<Segment>)
    requires SortedOutside(less, s, start, end, rest + [cur]) && Disjoint(rest + [cur])
    requires start <= cur.lo && cur.hi <= end && Permutes(s, t, cur.lo, cur.hi)
    requires forall p, q :: cur.lo <= p < q < cur.hi ==> AtMost(less, t[p], t[q]) || Open(parts, p, q)
    ensures SortedOutside(less, t, start, end, rest + parts)
  {
    var segs := rest + [cur];
    forall p, q | start <= p < q < end
      ensures AtMost(less, t[p], t[q]) || Open(rest + parts, p, q)
    {
      var p', q' := p, q;
      if cur.lo <= p < cur.hi <= q {
        p' := Origin(s, t, cur.lo, cur.hi, p);
      } else if p < cur.lo <= q < cur.hi {
        q' := Origin(s, t, cur.lo, cur.hi, q);
      }
      if cur.lo <= p && q < cur.hi {
        if Open(parts, p, q) {
          var k :| 0 <= k < |parts| && parts[k].lo <= p && q < parts[k].hi;
          assert (rest + parts)[|rest| + k] == parts[k];
        }
      } else {
        assert t[p] == s[p'] && t[q] == s[q'];
        if Open(segs, p', q') {
          var k :| 0 <= k < |segs| && segs[k].lo <= p' && q' < segs[k].hi;
          assert k < |rest|;
          assert segs[k].hi <= cur.lo || cur.hi <= segs[k].lo by {
            assert segs[|rest|] == cur;
          }
          assert (rest + parts)[k] == segs[k];
        }
      }
    }
  }

  lemma NothingOpen<T>(less: (T, T) -> bool, s: seq<T>, start: int, end: int)
    requires SortedOutside(less, s, start, end, [])
    ensures SortedSlice(less, s, start, end)
  {
  }

  // ---------- the stack bound and the termination measure ----------

  function Pow2(k: nat): (r: nat)
    ensures r > 0
  {
    if k == 0 then 1 else 2 * Pow2(k - 1)
  }

  lemma {:induction false} Pow2Monotone(j: nat, k: nat)
    requires j <= k
    ensures Pow2(j) <= Pow2(k)
    decreases k
  {
    if j < k {
      Pow2Monotone(j, k - 1);
    }
  }

  lemma Pow2Of40()
    ensures Pow2(40) == 0x100_0000_0000
  {
    assert Pow2(10) == 1024;
    assert Pow2(20) == 0x10_0000;
    assert Pow2(30) == 0x4000_0000;
  }

  // The segment at depth k is no longer than (n + 1) / 2^k - 1: a split takes the pivot out, and what is left in hand
  // is at most half of the rest.
  ghost predicate Halving(segs: seq<Segment>, n: int) {
    forall k :: 0 <= k < |segs| ==> (segs[k].Length() + 1) * Pow2(k) <= n + 1
  }

  // The shortest slice for which the stack may be too small.
  const TOO_LONG := 11 * 0x100_0000_0000 - 1

  // A segment long enough to be partitioned is at a depth for which the stack has room.
  lemma StackHasRoom(segs: seq<Segment>, n: int)
    requires Halving(segs, n) && segs != []
    requires segs[|segs| - 1].Length() > 9
    requires n < TOO_LONG
    ensures |segs| <= 40
  {
    var k := |segs| - 1;
    assert (segs[k].Length() + 1) * Pow2(k) <= n + 1;
    Pow2Small(segs[k].Length() + 1, k);
  }

  // What is left of a long slice after k halvings.
  ghost predicate Deep(k: nat, length: int) {
    k <= 40 && length + 1 >= 11 * Pow2(40 - k)
  }

  lemma DeepStarts(length: int)
    requires length >= TOO_LONG
    ensures Deep(0, length)
  {
    Pow2Of40();
  }

  lemma DeepIsLong(k: nat, length: int)
    requires Deep(k, length)
    ensures length > 9
  {
  }

  lemma DeepGoesOn(k: nat, length: int)
    requires Deep(k, length) && k < 40
    ensures Deep(k + 1, (length - 1) / 2)
  {
    assert Pow2(40 - k) == 2 * Pow2(40 - (k + 1));
  }

  lemma ProductMonotone(a: int, b: int, p: int, q: int)
    requires 0 <= a <= b && 0 <= p <= q
    ensures a * p <= b * q
  {
    assert a * p <= b * p <= b * q;
  }

  lemma Pow2Small(length: int, k: nat)
    requires length > 10 && length * Pow2(k) < 11 * 0x100_0000_0000
    ensures k < 40
  {
    if k >= 40 {
      Pow2Of40();
      Pow2Monotone(40, k);
      ProductMonotone(11, length, Pow2(40), Pow2(k));
    }
  }

  // Replacing the deepest segment by a part and a half of it keeps the bound.
  lemma HalvingKept(rest: seq<Segment>, cur: Segment, big: Segment, small: Segment, n: int)
    requires Halving(rest + [cur], n) && 0 <= n
    requires big.Length() <= cur.Length() && 2 * small.Length() < cur.Length()
    ensures Halving(rest + [big, small], n)
  {
    var d := |rest|;
    var segs := rest + [big, small];
    assert (rest + [cur])[d] == cur;
    HalfLength(cur.Length() + 1, big.Length() + 1, small.Length() + 1, d, n + 1);
    forall k | 0 <= k < |segs|
      ensures (segs[k].Length() + 1) * Pow2(k) <= n + 1
    {
      if k < d {
        assert segs[k] == (rest + [cur])[k];
      }
    }
  }

  lemma HalfLength(cur: int, big: int, small: int, d: nat, n: int)
    requires cur * Pow2(d) <= n && big <= cur && 2 * small <= cur
    ensures big * Pow2(d) <= n && small * Pow2(d + 1) <= n
  {
    var p := Pow2(d);
    Scale(big, cur, p);
    Scale(2 * small, cur, p);
    assert Pow2(d + 1) == 2 * p;
    assert small * (2 * p) == (2 * small) * p;
  }

  lemma Scale(x: int, y: int, p: nat)
    requires x <= y
    ensures x * p <= y * p
  {
  }

  // Work left: partitioning a segment takes at least one element out, sorting it takes it away.
  function Work(segs: seq<Segment>): nat {
    if segs == [] then 0
    else Work(segs[..|segs| - 1]) + 2 * (if segs[|segs| - 1].Length() > 0 then segs[|segs| - 1].Length() else 0) + 1
  }

  lemma WorkAppend(rest: seq<Segment>, g: Segment)
    ensures Work(rest + [g]) == Work(rest) + 2 * (if g.Length() > 0 then g.Length() else 0) + 1
  {
    assert (rest + [g])[..|rest|] == rest;
  }
}

// QuickSortSliced, QuickSortSlicedSafe, InsertionSortSliced and the bound searches of OVR_Alg.h.
module Sorting {
  import opened SortingTheory

  const THRESHOLD := 9
  const STACK_SLOTS := 80

  function Exchanged<T>(s: seq<T>, i: nat, j: nat): seq<T>
    requires i < |s| && j < |s|
  {
    s[i := s[j]][j := s[i]]
  }

  // Exchanges two elements of the slice [lo, hi) that is being rearranged from `was`.
  method Swap<T>(arr: array<T>, i: nat, j: nat, ghost was: seq<T>, ghost lo: int, ghost hi: int)
    requires i < arr.Length && j < arr.Length
    requires lo <= i < hi && lo <= j < hi && Permutes(was, arr[..], lo, hi)
    modifies arr
    ensures arr[i] == old(arr[j]) && arr[j] == old(arr[i])
    ensures forall k :: 0 <= k < arr.Length && k != i && k != j ==> arr[k] == old(arr[k])
    ensures Permutes(was, arr[..], lo, hi)
  {
    arr[i], arr[j] := arr[j], arr[i];
    assert multiset(arr[..]) == old(multiset(arr[..]));
  }

  // The same, as a sequence.
  method SwapAll<T>(arr: array<T>, i: nat, j: nat, ghost was: seq<T>, ghost lo: int, ghost hi: int)
    requires i < arr.Length && j < arr.Length
    requires lo <= i < hi && lo <= j < hi && Permutes(was, arr[..], lo, hi)
    modifies arr
    ensures arr[..] == Exchanged(old(arr[..]), i, j)
    ensures Permutes(was, arr[..], lo, hi)
  {
    hide Permutes;
    Swap(arr, i, j, was, lo, hi);
  }

  // The insertion sort that finishes a short segment.
  method InsertionSort<T(!new)>(arr: array<T>, base: int, limit: int, less: (T, T) -> bool, ghost ordered: bool)
    requires base < limit ==> 0 <= base && limit <= arr.Length
    requires ordered ==> StrictWeakOrder(less)
    modifies arr
    ensures Permutes(old(arr[..]), arr[..], base, limit)
    ensures ordered && base < limit ==> SortedSlice(less, arr[..], base, limit)
  {
    var j, i := base, base + 1;
    while i < limit
      invariant j == i - 1 && (base < limit ==> i <= limit)
      invariant base < i
      invariant Permutes(old(arr[..]), arr[..], base, limit)
      invariant ordered && base < limit ==> SortedSlice(less, arr[..], base, i)
    {
      Insert(arr, base, limit, i, less, ordered);
      j, i := i, i + 1;
    }
  }

  // The inner loop: moves element i down to its place among the sorted elements before it.
  method Insert<T(!new)>(arr: array<T>, base: int, limit: int, i: int, less: (T, T) -> bool, ghost ordered: bool)
    requires 0 <= base < i < limit <= arr.Length
    requires ordered ==> StrictWeakOrder(less) && SortedSlice(less, arr[..], base, i)
    modifies arr
    ensures Permutes(old(arr[..]), arr[..], base, limit)
    ensures ordered ==> SortedSlice(less, arr[..], base, i + 1)
  {
    hide StrictWeakOrder;
    ghost var was := arr[..];
    var j := i - 1;
    while less(arr[j + 1], arr[j])
      invariant base <= j < i
      invariant Permutes(was, arr[..], base, limit)
      invariant ordered ==> forall p, q :: base <= p < q <= i && q != j + 1 ==> AtMost(less, arr[p], arr[q])
      decreases j
    {
      Swap(arr, j + 1, j, was, base, limit);
      if j == base {
        if ordered {
          LessIsAtMost(less, arr[j], arr[j + 1]);
        }
        return;
      }
      if ordered {
        LessIsAtMost(less, arr[j], arr[j + 1]);
      }
      j := j - 1;
    }
    if ordered {
      forall p | base <= p < j + 1
        ensures AtMost(less, arr[p], arr[j + 1])
      {
        if p < j {
          AtMostTransitive(less, arr[p], arr[j], arr[j + 1]);
        }
      }
    }
  }

  function Middle(base: int, limit: int): int {
    base + (limit - base) / 2
  }

  // In an increasing slice with the middle element in front, the sentinels are in order.
  lemma MiddleStays<T(!new)>(less: (T, T) -> bool, was: seq<T>, base: nat, limit: nat)
    requires StrictWeakOrder(less) && Increasing(less, was, base, limit) && base + THRESHOLD < limit
    ensures var s := Exchanged(was, base, Middle(base, limit));
            && !less(s[limit - 1], s[base + 1]) && !less(s[base], s[base + 1]) && !less(s[limit - 1], s[base])
  {
    var s, mid := Exchanged(was, base, Middle(base, limit)), Middle(base, limit);
    LessIsAtMost(less, was[base + 1], was[limit - 1]);
    LessIsAtMost(less, was[base + 1], was[mid]);
    LessIsAtMost(less, was[mid], was[limit - 1]);
  }

  // And the scans meet in the middle.
  lemma ScansMeet<T(!new)>(less: (T, T) -> bool, was: seq<T>, s: seq<T>, base: nat, limit: nat, i: nat, j: nat)
    requires StrictWeakOrder(less) && Increasing(less, was, base, limit) && base + THRESHOLD < limit
    requires s == Exchanged(was, base, Middle(base, limit))
    requires base + 1 < i < limit && AtMost(less, s[base], s[i])
    requires forall k :: base + 1 < k < i ==> less(s[k], s[base])
    requires base <= j < limit - 1 && AtMost(less, s[j], s[base])
    requires forall k :: j < k < limit - 1 ==> less(s[base], s[k])
    ensures j == Middle(base, limit) && i == j + 1
  {
    var mid := Middle(base, limit);
    assert s[base] == was[mid] && s[mid] == was[base];
    assert forall k :: base < k < limit && k != mid ==> s[k] == was[k];
    LessIsAtMost(less, was[mid], was[mid + 1]);
    LessIsAtMost(less, was[base], was[mid]);
    assert i > mid && !(i > mid + 1);
    assert !(j > mid) && !(j < mid);
  }

  lemma PermutesItself<T>(s: seq<T>, lo: int, hi: int)
    ensures Permutes(s, s, lo, hi)
  {
  }

  // Brings the middle element to `base` and orders the sentinels: arr[base + 1] <= arr[base] <= arr[limit - 1].
  method ChoosePivot<T(!new)>(arr: array<T>, base: nat, limit: nat, less: (T, T) -> bool, ghost ordered: bool)
    requires base + THRESHOLD < limit <= arr.Length
    requires ordered ==> StrictWeakOrder(less)
    modifies arr
    ensures Permutes(old(arr[..]), arr[..], base, limit)
    ensures ordered ==> AtMost(less, arr[base + 1], arr[base]) && AtMost(less, arr[base], arr[limit - 1])
    ensures ordered && Increasing(less, old(arr[..]), base, limit) ==>
              arr[..] == Exchanged(old(arr[..]), base, Middle(base, limit))
  {
    hide Permutes, Increasing, StrictWeakOrder, Exchanged, AtMost;
    ghost var was := arr[..];
    PermutesItself(was, base, limit);
    var len := limit - base;
    var pivot := base + len / 2;
    SwapAll(arr, base, pivot, was, base, limit);
    if ordered && Increasing(less, was, base, limit) {
      MiddleStays(less, was, base, limit);
    }
    Sentinels(arr, base, base + 1, limit - 1, less, was, limit);
  }

  // Puts three elements in order, arr[i] <= arr[base] <= arr[j], by at most three exchanges.
  method Sentinels<T(!new)>(arr: array<T>, base: nat, i: nat, j: nat, less: (T, T) -> bool, ghost was: seq<T>, ghost limit: nat)
    requires base < i < j < limit <= arr.Length && Permutes(was, arr[..], base, limit)
    modifies arr
    ensures Permutes(was, arr[..], base, limit)
    ensures StrictWeakOrder(less) ==> AtMost(less, arr[i], arr[base]) && AtMost(less, arr[base], arr[j])
    ensures old(!less(arr[j], arr[i]) && !less(arr[base], arr[i]) && !less(arr[j], arr[base])) ==> arr[..] == old(arr[..])
  {
    hide Permutes;
    if less(arr[j], arr[i]) { Swap(arr, j, i, was, base, limit); }
    if less(arr[base], arr[i]) { Swap(arr, base, i, was, base, limit); }
    if less(arr[j], arr[base]) { Swap(arr, j, base, was, base, limit); }
  }

  // After partitioning, everything before `i` is at most the pivot arr[j] and everything after `j` is at least it.
  ghost predicate Partitioned<T>(less: (T, T) -> bool, s: seq<T>, base: int, limit: int, i: int, j: int) {
    && 0 <= base <= j < i <= limit <= |s|
    && (forall k :: base <= k < i ==> AtMost(less, s[k], s[j]))
    && (forall k :: j <= k < limit ==> AtMost(less, s[j], s[k]))
  }

  // do i++; while (less(arr[i], arr[base])): there is no bounds test, the sentinel at `stop` ends the scan.
  method ScanUp<T(!new)>(arr: array<T>, from: nat, base: nat, less: (T, T) -> bool, ghost stop: nat) returns (i: nat)
    requires base < arr.Length && from < stop < arr.Length
    requires StrictWeakOrder(less) && AtMost(less, arr[base], arr[stop])
    ensures from < i <= stop && AtMost(less, arr[base], arr[i])
    ensures forall k :: from < k < i ==> less(arr[k], arr[base]) && AtMost(less, arr[k], arr[base])
  {
    i := from + 1;
    while less(arr[i], arr[base])
      invariant from < i <= stop
      invariant forall k :: from < k < i ==> less(arr[k], arr[base]) && AtMost(less, arr[k], arr[base])
      decreases stop - i
    {
      LessIsAtMost(less, arr[i], arr[base]);
      i := i + 1;
    }
  }

  // do j--; while (less(arr[base], arr[j]))
  method ScanDown<T(!new)>(arr: array<T>, from: nat, base: nat, less: (T, T) -> bool, ghost stop: nat) returns (j: nat)
    requires base < arr.Length && stop < from < arr.Length
    requires StrictWeakOrder(less) && AtMost(less, arr[stop], arr[base])
    ensures stop <= j < from && AtMost(less, arr[j], arr[base])
    ensures forall k :: j < k < from ==> less(arr[base], arr[k]) && AtMost(less, arr[base], arr[k])
  {
    j := from - 1;
    while less(arr[base], arr[j])
      invariant stop <= j < from
      invariant forall k :: j < k < from ==> less(arr[base], arr[k]) && AtMost(less, arr[base], arr[k])
      decreases j
    {
      LessIsAtMost(less, arr[base], arr[j]);
      j := j - 1;
    }
  }

  // What is before `i`, after the pivot, is at most the pivot, and what is from `j` on at least it.
  ghost predicate LowSide<T>(less: (T, T) -> bool, s: seq<T>, base: int, i: int) {
    0 <= base < |s| && i < |s| && forall k :: base < k <= i ==> AtMost(less, s[k], s[base])
  }

  ghost predicate HighSide<T>(less: (T, T) -> bool, s: seq<T>, base: int, j: int, limit: int) {
    0 <= base < |s| && 0 <= j && limit <= |s| && forall k :: j <= k < limit ==> AtMost(less, s[base], s[k])
  }

  // The scans have gone from i0 to i and from j0 to j.
  ghost predicate Scanned<T>(less: (T, T) -> bool, s: seq<T>, base: int, limit: int, i0: int, j0: int, i: int, j: int) {
    && 0 <= base < i0 < i < limit <= |s| && base < j < j0 < limit
    && AtMost(less, s[base], s[i]) && AtMost(less, s[j], s[base])
    && (forall k :: i0 < k < i ==> less(s[k], s[base]) && AtMost(less, s[k], s[base]))
    && (forall k :: j < k < j0 ==> less(s[base], s[k]) && AtMost(less, s[base], s[k]))
  }

  lemma AfterScans<T(!new)>(less: (T, T) -> bool, s: seq<T>, base: nat, limit: nat, i0: nat, j0: nat, i: nat, j: nat)
    requires LowSide(less, s, base, i0) && HighSide(less, s, base, j0, limit) && Scanned(less, s, base, limit, i0, j0, i, j)
    ensures i <= j ==> LowSide(less, Exchanged(s, i, j), base, i) && HighSide(less, Exchanged(s, i, j), base, j, limit)
    ensures i > j && StrictWeakOrder(less) ==> Partitioned(less, Exchanged(s, base, j), base, limit, i, j)
  {
    hide StrictWeakOrder, AtMost;
    if i > j && StrictWeakOrder(less) {
      AtMostReflexive(less, s[base]);
    }
  }

  // One round of both scans.
  method Scans<T(!new)>(arr: array<T>, i0: nat, j0: nat, base: nat, limit: nat, less: (T, T) -> bool) returns (i: nat, j: nat)
    requires StrictWeakOrder(less) && base < i0 <= j0 < limit <= arr.Length
    requires i0 == j0 ==> base + 1 < i0 && j0 < limit - 1
    requires LowSide(less, arr[..], base, i0) && HighSide(less, arr[..], base, j0, limit)
    ensures Scanned(less, arr[..], base, limit, i0, j0, i, j)
  {
    hide StrictWeakOrder, AtMost;
    i := ScanUp(arr, i0, base, less, if i0 < j0 then j0 else j0 + 1);
    j := ScanDown(arr, j0, base, less, if i0 < j0 then i0 else i0 - 1);
  }

  // The partition loop. The scans are stopped by arr[limit - 1] and arr[base + 1], later by the elements just
  // exchanged, or once `i` and `j` have met by the elements next to them.
  method Partition<T(!new)>(arr: array<T>, base: nat, limit: nat, less: (T, T) -> bool) returns (i: nat, j: nat)
    requires base + THRESHOLD < limit <= arr.Length
    requires StrictWeakOrder(less)
    modifies arr
    ensures base < j < i < limit
    ensures Permutes(old(arr[..]), arr[..], base, limit)
    ensures Partitioned(less, arr[..], base, limit, i, j)
    ensures Increasing(less, old(arr[..]), base, limit) ==>
              arr[..] == old(arr[..]) && j == Middle(base, limit) && i == j + 1
  {
    hide StrictWeakOrder, Permutes, AtMost, Increasing, LowSide, HighSide, Partitioned, Exchanged;
    ghost var was := arr[..];
    ghost var increasing := Increasing(less, was, base, limit);
    ChoosePivot(arr, base, limit, less, true);
    SidesAtFirst(less, arr[..], base, limit);
    ghost var s := arr[..];
    i, j := base + 1, limit - 1;
    while true
      invariant base < i <= j < limit && (i == j ==> base + 1 < i && j < limit - 1)
      invariant LowSide(less, arr[..], base, i) && HighSide(less, arr[..], base, j, limit)
      invariant Permutes(was, arr[..], base, limit)
      invariant increasing ==> arr[..] == s && i == base + 1 && j == limit - 1
      decreases j - i
    {
      ghost var i0, j0, t := i, j, arr[..];
      i, j := Scans(arr, i, j, base, limit, less);
      AfterScans(less, t, base, limit, i0, j0, i, j);
      if increasing {
        ScansMeetInside(less, was, s, base, limit, i, j);
      }
      if i > j {
        break;
      }
      SwapAll(arr, i, j, was, base, limit);
    }
    SwapAll(arr, base, j, was, base, limit);
    if increasing {
      ExchangedBack(was, base, j);
    }
  }

  lemma SidesAtFirst<T>(less: (T, T) -> bool, s: seq<T>, base: nat, limit: nat)
    requires base + THRESHOLD < limit <= |s|
    requires AtMost(less, s[base + 1], s[base]) && AtMost(less, s[base], s[limit - 1])
    ensures LowSide(less, s, base, base + 1) && HighSide(less, s, base, limit - 1, limit)
  {
  }

  lemma ExchangedBack<T>(s: seq<T>, i: nat, j: nat)
    requires i < |s| && j < |s|
    ensures Exchanged(Exchanged(s, i, j), i, j) == s
  {
  }

  // The guarded scans give up instead of leaving [0, limit).
  method ScanUpSafe<T(!new)>(arr: array<T>, from: nat, base: nat, limit: nat, less: (T, T) -> bool,
                             ghost ordered: bool, ghost stop: nat)
    returns (ok: bool, i: nat)
    requires base < limit <= arr.Length && from < limit
    requires ordered ==> StrictWeakOrder(less) && from < stop < limit && AtMost(less, arr[base], arr[stop])
    ensures ok ==> from < i < limit
    ensures ordered ==> ok && i <= stop && AtMost(less, arr[base], arr[i])
    ensures ordered ==> forall k :: from < k < i ==> less(arr[k], arr[base]) && AtMost(less, arr[k], arr[base])
  {
    i := from + 1;
    if i >= limit {
      return false, i;
    }
    while less(arr[i], arr[base])
      invariant from < i < limit && (ordered ==> i <= stop)
      invariant ordered ==> forall k :: from < k < i ==> less(arr[k], arr[base]) && AtMost(less, arr[k], arr[base])
      decreases limit - i
    {
      if ordered {
        LessIsAtMost(less, arr[i], arr[base]);
      }
      i := i + 1;
      if i >= limit {
        return false, i;
      }
    }
    ok := true;
  }

  method ScanDownSafe<T(!new)>(arr: array<T>, from: nat, base: nat, less: (T, T) -> bool,
                               ghost ordered: bool, ghost stop: nat)
    returns (ok: bool, j: nat)
    requires base < arr.Length && from < arr.Length
    requires ordered ==> StrictWeakOrder(less) && stop < from && AtMost(less, arr[stop], arr[base])
    ensures ok ==> j < from
    ensures ordered ==> ok && stop <= j && AtMost(less, arr[j], arr[base])
    ensures ordered ==> forall k :: j < k < from ==> less(arr[base], arr[k]) && AtMost(less, arr[base], arr[k])
  {
    if from == 0 {
      return false, 0;
    }
    j := from - 1;
    while less(arr[base], arr[j])
      invariant j < from && (ordered ==> stop <= j)
      invariant ordered ==> forall k :: j < k < from ==> less(arr[base], arr[k]) && AtMost(less, arr[base], arr[k])
      decreases j
    {
      if ordered {
        LessIsAtMost(less, arr[base], arr[j]);
      }
      if j == 0 {
        return false, 0;
      }
      j := j - 1;
    }
    ok := true;
  }

  // One round of both guarded scans.
  method ScansSafe<T(!new)>(arr: array<T>, i0: nat, j0: nat, base: nat, limit: nat, less: (T, T) -> bool, ghost ordered: bool)
    returns (ok: bool, i: nat, j: nat)
    requires ordered ==> StrictWeakOrder(less)
    requires base < i0 <= j0 < limit <= arr.Length
    requires i0 == j0 ==> base + 1 < i0 && j0 < limit - 1
    requires ordered ==> LowSide(less, arr[..], base, i0) && HighSide(less, arr[..], base, j0, limit)
    ensures ok ==> i0 < i < limit && j < j0
    ensures ordered ==> ok && base < j && Scanned(less, arr[..], base, limit, i0, j0, i, j)
  {
    hide StrictWeakOrder, AtMost;
    j := j0;
    ok, i := ScanUpSafe(arr, i0, base, limit, less, ordered, if i0 < j0 then j0 else j0 + 1);
    if ok {
      ok, j := ScanDownSafe(arr, j0, base, less, ordered, if i0 < j0 then i0 else i0 - 1);
    }
  }

  // The partition loop of the guarded sort. With an arbitrary comparison `j` may run below `base`.
  method PartitionSafe<T(!new)>(arr: array<T>, base: nat, limit: nat, less: (T, T) -> bool, ghost ordered: bool)
    returns (ok: bool, i: nat, j: nat)
    requires base + THRESHOLD < limit <= arr.Length
    requires ordered ==> StrictWeakOrder(less)
    modifies arr
    ensures Permutes(old(arr[..]), arr[..], if ordered then base else 0, limit)
    ensures ok ==> base + 1 < i < limit && j < i && j < limit - 1
    ensures ordered ==> ok && base < j
    ensures ordered ==> Partitioned(less, arr[..], base, limit, i, j)
    ensures ordered && Increasing(less, old(arr[..]), base, limit) ==>
              arr[..] == old(arr[..]) && j == Middle(base, limit) && i == j + 1
  {
    hide StrictWeakOrder, Permutes, AtMost, Increasing, LowSide, HighSide, Partitioned, Exchanged, Scanned;
    ghost var was := arr[..];
    ghost var increasing := ordered && Increasing(less, was, base, limit);
    ChoosePivot(arr, base, limit, less, ordered);
    if ordered {
      SidesAtFirst(less, arr[..], base, limit);
    }
    ghost var s := arr[..];
    i, j := base + 1, limit - 1;
    while true
      invariant base < i <= j < limit && (i == j ==> base + 1 < i && j < limit - 1)
      invariant ordered ==> LowSide(less, arr[..], base, i) && HighSide(less, arr[..], base, j, limit)
      invariant Permutes(was, arr[..], base, limit)
      invariant increasing ==> arr[..] == s && i == base + 1 && j == limit - 1
      decreases j - i
    {
      ghost var i0, j0, t := i, j, arr[..];
      Widen(was, arr[..], if ordered then base else 0, base, limit);
      ok, i, j := ScansSafe(arr, i, j, base, limit, less, ordered);
      if !ok {
        return;
      }
      if ordered {
        AfterScans(less, t, base, limit, i0, j0, i, j);
      }
      if increasing {
        ScansMeetInside(less, was, s, base, limit, i, j);
      }
      if i > j {
        break;
      }
      SwapAll(arr, i, j, was, base, limit);
    }
    ghost var lowest := if ordered then base else 0;
    Widen(was, arr[..], lowest, base, limit);
    SwapAll(arr, base, j, was, lowest, limit);
    if increasing {
      ExchangedBack(was, base, j);
    }
  }

  lemma ScansMeetInside<T(!new)>(less: (T, T) -> bool, was: seq<T>, s: seq<T>, base: nat, limit: nat, i: nat, j: nat)
    requires StrictWeakOrder(less) && Increasing(less, was, base, limit) && base + THRESHOLD < limit
    requires s == Exchanged(was, base, Middle(base, limit))
    requires Scanned(less, s, base, limit, base + 1, limit - 1, i, j)
    ensures j == Middle(base, limit) && i == j + 1
  {
    hide StrictWeakOrder, Increasing, Exchanged, AtMost;
    ScansMeet(less, was, s, base, limit, i, j);
  }

  // The stack holds the pending segments, two slots each.
  ghost predicate OnStack(stack: seq<int>, pending: seq<Segment>) {
    && |stack| == STACK_SLOTS && 2 * |pending| <= STACK_SLOTS
    && forall k :: 0 <= k < |pending| ==> stack[2 * k] == pending[k].lo && stack[2 * k + 1] == pending[k].hi
  }

  // What the loop of the quicksort keeps: `pending` on the stack and `cur` in hand are the open segments.
  ghost predicate InProgress(pending: seq<Segment>, cur: Segment, start: int, end: int) {
    && Disjoint(pending + [cur])
    && Halving(pending + [cur], end - start)
    && start <= cur.lo <= end && cur.hi <= end
    && (forall k :: 0 <= k < |pending| ==> start <= pending[k].lo <= pending[k].hi <= end)
  }

  // `cur` can be split into the part to push and the smaller part to take next; with an arbitrary comparison
  // the latter may have negative length and lie below `cur`.
  ghost predicate Splits(cur: Segment, big: Segment, small: Segment) {
    && cur.lo <= big.lo <= big.hi <= cur.hi && cur.lo <= small.lo <= cur.hi && small.hi <= cur.hi
    && (big.hi <= small.lo || small.hi <= big.lo)
    && 2 * small.Length() < cur.Length() && big.Length() < cur.Length()
    && (small.Length() > 0 ==> big.Length() + small.Length() < cur.Length())
  }

  lemma SplitDisjoint(pending: seq<Segment>, cur: Segment, big: Segment, small: Segment)
    requires Disjoint(pending + [cur]) && Splits(cur, big, small)
    ensures Disjoint(pending + [big, small])
  {
    var d := |pending|;
    var segs, segs' := pending + [cur], pending + [big, small];
    forall k, m | 0 <= k < m < |segs'|
      ensures segs'[k].hi <= segs'[m].lo || segs'[m].hi <= segs'[k].lo
    {
      if k < d {
        assert segs[k] == segs'[k] && segs[d] == cur;
        assert m < d ==> segs[m] == segs'[m];
      }
    }
  }

  lemma SplitWork(pending: seq<Segment>, cur: Segment, big: Segment, small: Segment)
    requires Splits(cur, big, small)
    ensures Work(pending + [big] + [small]) < Work(pending + [cur])
  {
    WorkAppend(pending, cur);
    WorkAppend(pending, big);
    WorkAppend(pending + [big], small);
  }

  // The segment in hand is split: one part is pushed, the other is taken next.
  lemma Split(pending: seq<Segment>, cur: Segment, big: Segment, small: Segment, start: int, end: int)
    requires InProgress(pending, cur, start, end) && start <= end && Splits(cur, big, small)
    ensures InProgress(pending + [big], small, start, end)
    ensures pending + [big] + [small] == pending + [big, small]
    ensures Work(pending + [big] + [small]) < Work(pending + [cur])
  {
    hide Disjoint, Halving, Work;
    HalvingKept(pending, cur, big, small, end - start);
    SplitDisjoint(pending, cur, big, small);
    SplitWork(pending, cur, big, small);
    assert pending + [big] + [small] == pending + [big, small];
  }

  // The segment in hand is done: the last one pushed comes next.
  lemma Next(pending: seq<Segment>, cur: Segment, start: int, end: int)
    requires InProgress(pending, cur, start, end) && pending != []
    ensures InProgress(pending[..|pending| - 1], pending[|pending| - 1], start, end)
    ensures Work(pending) < Work(pending + [cur])
  {
    hide Disjoint, Halving, Work;
    var d := |pending| - 1;
    assert pending[..d] + [pending[d]] == pending;
    NextDisjoint(pending, cur);
    NextHalving(pending, cur, end - start);
    WorkAppend(pending, cur);
  }

  lemma NextDisjoint(pending: seq<Segment>, cur: Segment)
    requires Disjoint(pending + [cur])
    ensures Disjoint(pending)
  {
    assert forall k :: 0 <= k < |pending| ==> pending[k] == (pending + [cur])[k];
  }

  lemma NextHalving(pending: seq<Segment>, cur: Segment, n: int)
    requires Halving(pending + [cur], n)
    ensures Halving(pending, n)
  {
    assert forall k :: 0 <= k < |pending| ==> pending[k] == (pending + [cur])[k];
  }

  // Pushes a segment.
  method Push(stack: array<int>, top: nat, seg: Segment, ghost pending: seq<Segment>)
    requires OnStack(stack[..], pending) && top == 2 * |pending| && top + 2 <= STACK_SLOTS
    modifies stack
    ensures OnStack(stack[..], pending + [seg])
  {
    stack[top] := seg.lo;
    stack[top + 1] := seg.hi;
  }

  // The part that is pushed, which is the larger one, and the part that is sorted next.
  ghost function Halves(cur: Segment, i: int, j: int): (Segment, Segment) {
    if j - cur.lo > cur.hi - i then (Segment(cur.lo, j), Segment(i, cur.hi))
    else (Segment(i, cur.hi), Segment(cur.lo, j))
  }

  // Partitioning `cur` leaves its two parts open.
  lemma PartitionRefines<T(!new)>(less: (T, T) -> bool, s: seq<T>, t: seq<T>, start: int, end: int,
                            pending: seq<Segment>, cur: Segment, i: int, j: int, big: Segment, small: Segment)
    requires SortedOutside(less, s, start, end, pending + [cur]) && Disjoint(pending + [cur])
    requires start <= cur.lo && cur.hi <= end && Permutes(s, t, cur.lo, cur.hi)
    requires Partitioned(less, t, cur.lo, cur.hi, i, j)
    requires StrictWeakOrder(less)
    requires (big, small) == Halves(cur, i, j)
    ensures SortedOutside(less, t, start, end, pending + [big, small])
  {
    var parts := [big, small];
    assert parts[0] == big && parts[1] == small;
    forall p, q | cur.lo <= p < q < cur.hi
      ensures AtMost(less, t[p], t[q]) || Open(parts, p, q)
    {
      if p < i && j <= q {
        AtMostTransitive(less, t[p], t[j], t[q]);
      }
    }
    Refine(less, s, t, start, end, pending, cur, parts);
  }

  // Pushes the larger part and returns the other.
  method PushLarger(stack: array<int>, top: nat, base: int, limit: int, i: int, j: int, ghost pending: seq<Segment>)
    returns (base': int, limit': int)
    requires OnStack(stack[..], pending) && top == 2 * |pending| && top + 2 <= STACK_SLOTS
    modifies stack
    ensures OnStack(stack[..], pending + [Halves(Segment(base, limit), i, j).0])
    ensures Segment(base', limit') == Halves(Segment(base, limit), i, j).1
  {
    base', limit' := base, limit;
    if j - base > limit - i {
      Push(stack, top, Segment(base, j), pending);
      base' := i;
    } else {
      Push(stack, top, Segment(i, limit), pending);
      limit' := j;
    }
  }

  // Takes the last segment pushed.
  method Pop(stack: array<int>, top: nat, ghost pending: seq<Segment>, ghost cur: Segment, ghost start: int, ghost end: int)
    returns (base: int, limit: int, ghost pending': seq<Segment>)
    requires OnStack(stack[..], pending) && top + 2 == 2 * |pending|
    requires InProgress(pending, cur, start, end)
    ensures pending == pending' + [Segment(base, limit)]
    ensures OnStack(stack[..], pending') && base <= limit
    ensures InProgress(pending', Segment(base, limit), start, end)
    ensures Work(pending) < Work(pending + [cur])
  {
    base := stack[top];
    limit := stack[top + 1];
    Next(pending, cur, start, end);
    pending' := pending[..|pending| - 1];
  }

  // One short segment: sort it. It is no longer open.
  method SortShort<T(!new)>(arr: array<T>, base: int, limit: int, less: (T, T) -> bool, ghost ordered: bool,
                            ghost start: nat, ghost end: nat, ghost pending: seq<Segment>)
    requires ordered ==> StrictWeakOrder(less)
    requires end <= arr.Length
    requires InProgress(pending, Segment(base, limit), start, end)
    requires ordered ==> SortedOutside(less, arr[..], start, end, pending + [Segment(base, limit)])
    modifies arr
    ensures Permutes(old(arr[..]), arr[..], base, limit)
    ensures ordered ==> SortedOutside(less, arr[..], start, end, pending)
  {
    ghost var before := arr[..];
    InsertionSort(arr, base, limit, less, ordered);
    if ordered {
      Refine(less, before, arr[..], start, end, pending, Segment(base, limit), []);
      assert pending + [] == pending;
    }
  }

  // The middle split: what is taken next has half the length, rounded down, of what is left without the pivot.
  lemma MiddleHalves(cur: Segment, i: int, j: int)
    requires cur.Length() > 0 && j == Middle(cur.lo, cur.hi) && i == j + 1
    ensures Halves(cur, i, j).1.Length() == (cur.Length() - 1) / 2
    ensures cur.lo <= Halves(cur, i, j).1.lo && Halves(cur, i, j).1.hi <= cur.hi
  {
  }

  // One long segment: partition it, push the larger part, go on with the other. When the stack is full the original
  // writes past its end; `fits` says that it was not.
  method PartitionStep<T(!new)>(arr: array<T>, stack: array<int>, top: nat, base: nat, limit: nat,
                                less: (T, T) -> bool, ghost start: nat, ghost end: nat, ghost pending: seq<Segment>)
    returns (fits: bool, base': nat, limit': nat, ghost pending': seq<Segment>)
    requires StrictWeakOrder(less) && end <= arr.Length
    requires OnStack(stack[..], pending) && top == 2 * |pending|
    requires InProgress(pending, Segment(base, limit), start, end) && limit - base > THRESHOLD
    requires SortedOutside(less, arr[..], start, end, pending + [Segment(base, limit)])
    requires arr as object != stack
    modifies arr, stack
    ensures fits <==> |pending| < 40
    ensures fits ==> OnStack(stack[..], pending') && top + 2 == 2 * |pending'|
    ensures fits ==> InProgress(pending', Segment(base', limit'), start, end) && base' <= limit'
    ensures fits ==> SortedOutside(less, arr[..], start, end, pending' + [Segment(base', limit')])
    ensures fits ==> Work(pending' + [Segment(base', limit')]) < Work(pending + [Segment(base, limit)])
    ensures Permutes(old(arr[..]), arr[..], base, limit)
    ensures Increasing(less, old(arr[..]), base, limit) ==>
              arr[..] == old(arr[..]) && (fits ==> limit' - base' == (limit - base - 1) / 2)
  {
    hide StrictWeakOrder, Permutes, Increasing, SortedOutside, Partitioned, Disjoint, Halving, Work;
    ghost var cur, before := Segment(base, limit), arr[..];
    var i, j := Partition(arr, base, limit, less);
    if top == STACK_SLOTS {
      fits, base', limit', pending' := false, base, limit, pending;
      return;
    }
    ghost var after := arr[..];
    ghost var (big, small) := Halves(cur, i, j);
    PartitionRefines(less, before, after, start, end, pending, cur, i, j, big, small);
    Split(pending, cur, big, small, start, end);
    if Increasing(less, before, base, limit) {
      MiddleHalves(cur, i, j);
    }
    pending' := pending + [big];
    base', limit' := PushLarger(stack, top, base, limit, i, j, pending);
    fits := true;
    assert arr[..] == after;
  }

  // At the start the whole slice is one open segment.
  lemma Start<T>(less: (T, T) -> bool, s: seq<T>, start: nat, end: nat)
    requires start <= end <= |s|
    ensures InProgress([], Segment(start, end), start, end)
    ensures SortedOutside(less, s, start, end, [] + [Segment(start, end)])
  {
    var segs := [] + [Segment(start, end)];
    assert segs[0] == Segment(start, end) && Pow2(0) == 1;
  }

  // QuickSortSliced: the slice is sorted, its elements are the same and nothing outside it changes, provided the 80 slots
  // are enough. They are for every slice shorter than TOO_LONG, and are not for any increasing slice from there on.
  method QuickSortSliced<T(!new)>(arr: array<T>, start: nat, end: nat, less: (T, T) -> bool) returns (fits: bool)
    requires start <= end <= arr.Length
    requires StrictWeakOrder(less)
    modifies arr
    ensures Permutes(old(arr[..]), arr[..], start, end)
    ensures fits ==> SortedSlice(less, arr[..], start, end)
    ensures end - start < TOO_LONG ==> fits
    ensures end - start >= TOO_LONG && Increasing(less, old(arr[..]), start, end) ==> !fits
  {
    hide StrictWeakOrder, SortedOutside, Disjoint, Halving, Work, Increasing, Permutes, Deep;
    ghost var was := arr[..];
    PermutesItself(was, start, end);
    if end - start < 2 {
      return true;
    }
    ghost var overflows := end - start >= TOO_LONG && Increasing(less, was, start, end);
    if overflows {
      DeepStarts(end - start);
    }
    var stack := new int[STACK_SLOTS];
    var top := 0;
    var base, limit := start, end;
    ghost var pending: seq<Segment> := [];
    Start(less, arr[..], start, end);
    while true
      invariant OnStack(stack[..], pending) && top == 2 * |pending|
      invariant InProgress(pending, Segment(base, limit), start, end) && base <= limit
      invariant Permutes(was, arr[..], start, end)
      invariant SortedOutside(less, arr[..], start, end, pending + [Segment(base, limit)])
      invariant overflows ==> arr[..] == was && Deep(|pending|, limit - base)
      decreases Work(pending + [Segment(base, limit)])
    {
      ghost var before := arr[..];
      if overflows {
        DeepIsLong(|pending|, limit - base);
        IncreasingPart(less, was, start, end, base, limit);
      }
      if limit - base > THRESHOLD {
        ghost var depth, length := |pending|, limit - base;
        if end - start < TOO_LONG {
          StackHasRoom(pending + [Segment(base, limit)], end - start);
        }
        ghost var lo, hi := base, limit;
        fits, base, limit, pending := PartitionStep(arr, stack, top, base, limit, less, start, end, pending);
        PermutesOn(was, before, arr[..], start, end, lo, hi);
        if !fits {
          return;
        }
        if overflows {
          DeepGoesOn(depth, length);
        }
        top := top + 2;
      } else {
        SortShort(arr, base, limit, less, true, start, end, pending);
        PermutesOn(was, before, arr[..], start, end, base, limit);
        if top == 0 {
          break;
        }
        top := top - 2;
        base, limit, pending := Pop(stack, top, pending, Segment(base, limit), start, end);
      }
    }
    fits := true;
    NothingOpen(less, arr[..], start, end);
  }

  // A rearrangement of a part after one of the whole.
  lemma PermutesOn<T>(a: seq<T>, b: seq<T>, c: seq<T>, lo: int, hi: int, lo': int, hi': int)
    requires Permutes(a, b, lo, hi) && Permutes(b, c, lo', hi') && lo <= lo' && hi' <= hi
    ensures Permutes(a, c, lo, hi)
  {
  }

  // The same step of the guarded sort.
  method PartitionStepSafe<T(!new)>(arr: array<T>, stack: array<int>, top: nat, base: nat, limit: nat,
                                    less: (T, T) -> bool, ghost ordered: bool,
                                    ghost start: nat, ghost end: nat, ghost pending: seq<Segment>)
    returns (ok: bool, fits: bool, base': nat, limit': nat, ghost pending': seq<Segment>)
    requires ordered ==> StrictWeakOrder(less)
    requires end <= arr.Length
    requires OnStack(stack[..], pending) && top == 2 * |pending|
    requires InProgress(pending, Segment(base, limit), start, end) && limit - base > THRESHOLD
    requires ordered ==> SortedOutside(less, arr[..], start, end, pending + [Segment(base, limit)])
    requires arr as object != stack
    modifies arr, stack
    ensures if ordered then ok && (fits <==> |pending| < 40) else |pending| < 40 ==> fits
    ensures ok && fits ==> OnStack(stack[..], pending') && top + 2 == 2 * |pending'|
    ensures ok && fits ==> InProgress(pending', Segment(base', limit'), start, end)
    ensures ordered && fits ==> base' <= limit' && SortedOutside(less, arr[..], start, end, pending' + [Segment(base', limit')])
    ensures ok && fits ==> Work(pending' + [Segment(base', limit')]) < Work(pending + [Segment(base, limit)])
    ensures Permutes(old(arr[..]), arr[..], if ordered then base else 0, limit)
    ensures ordered && Increasing(less, old(arr[..]), base, limit) ==>
              arr[..] == old(arr[..]) && (fits ==> limit' - base' == (limit - base - 1) / 2)
  {
    hide StrictWeakOrder, Permutes, Increasing, SortedOutside, Partitioned, Disjoint, Halving, Work;
    ghost var cur, before := Segment(base, limit), arr[..];
    fits, base', limit', pending' := true, base, limit, pending;
    var i, j;
    ok, i, j := PartitionSafe(arr, base, limit, less, ordered);
    if !ok {
      return;
    }
    if top == STACK_SLOTS {
      fits := false;
      return;
    }
    ghost var after := arr[..];
    ghost var (big, small) := Halves(cur, i, j);
    if ordered {
      PartitionRefines(less, before, after, start, end, pending, cur, i, j, big, small);
    }
    Split(pending, cur, big, small, start, end);
    if ordered && Increasing(less, before, base, limit) {
      MiddleHalves(cur, i, j);
    }
    pending' := pending + [big];
    base', limit' := PushLarger(stack, top, base, limit, i, j, pending);
    assert arr[..] == after;
  }

  // QuickSortSlicedSafe: with any comparison at all it terminates within [0, end) and loses no element; with a strict weak
  // order it never gives up and does what QuickSortSliced does. Its stack is enough for the same lengths.
  method QuickSortSlicedSafe<T(!new)>(arr: array<T>, start: nat, end: nat, less: (T, T) -> bool) returns (ok: bool, fits: bool)
    requires start <= end <= arr.Length
    modifies arr
    ensures Permutes(old(arr[..]), arr[..], 0, end)
    ensures StrictWeakOrder(less) ==> Permutes(old(arr[..]), arr[..], start, end)
    ensures StrictWeakOrder(less) && fits ==> ok && SortedSlice(less, arr[..], start, end)
    ensures end - start < TOO_LONG ==> fits
    ensures StrictWeakOrder(less) && end - start >= TOO_LONG && Increasing(less, old(arr[..]), start, end) ==> !fits
  {
    ok, fits := SortGuarded(arr, start, end, less, StrictWeakOrder(less));
  }

  method SortGuarded<T(!new)>(arr: array<T>, start: nat, end: nat, less: (T, T) -> bool, ghost ordered: bool)
    returns (ok: bool, fits: bool)
    requires start <= end <= arr.Length
    requires ordered ==> StrictWeakOrder(less)
    modifies arr
    ensures Permutes(old(arr[..]), arr[..], if ordered then start else 0, end)
    ensures ordered && fits ==> ok && SortedSlice(less, arr[..], start, end)
    ensures end - start < TOO_LONG ==> fits
    ensures ordered && end - start >= TOO_LONG && Increasing(less, old(arr[..]), start, end) ==> !fits
  {
    hide StrictWeakOrder, SortedOutside, Disjoint, Halving, Work, Increasing, Permutes, Deep;
    ghost var was, lowest := arr[..], if ordered then start else 0;
    PermutesItself(was, lowest, end);
    if end - start < 2 {
      return true, true;
    }
    ghost var overflows := ordered && end - start >= TOO_LONG && Increasing(less, was, start, end);
    if overflows {
      DeepStarts(end - start);
    }
    var stack := new int[STACK_SLOTS];
    var top := 0;
    var base, limit := start, end;
    ghost var pending: seq<Segment> := [];
    Start(less, arr[..], start, end);
    while true
      invariant OnStack(stack[..], pending) && top == 2 * |pending|
      invariant InProgress(pending, Segment(base, limit), start, end)
      invariant Permutes(was, arr[..], lowest, end)
      invariant ordered ==> base <= limit && SortedOutside(less, arr[..], start, end, pending + [Segment(base, limit)])
      invariant overflows ==> arr[..] == was && Deep(|pending|, limit - base)
      decreases Work(pending + [Segment(base, limit)])
    {
      ghost var before := arr[..];
      if overflows {
        DeepIsLong(|pending|, limit - base);
        IncreasingPart(less, was, start, end, base, limit);
      }
      if limit - base > THRESHOLD {
        ghost var depth, length := |pending|, limit - base;
        if end - start < TOO_LONG {
          StackHasRoom(pending + [Segment(base, limit)], end - start);
        }
        ghost var lo, hi := if ordered then base else 0, limit;
        ok, fits, base, limit, pending := PartitionStepSafe(arr, stack, top, base, limit, less, ordered, start, end, pending);
        PermutesOn(was, before, arr[..], lowest, end, lo, hi);
        if !ok || !fits {
          ok := false;
          return;
        }
        if overflows {
          DeepGoesOn(depth, length);
        }
        top := top + 2;
      } else {
        SortShort(arr, base, limit, less, ordered, start, end, pending);
        PermutesOn(was, before, arr[..], lowest, end, base, limit);
        if top == 0 {
          break;
        }
        top := top - 2;
        base, limit, pending := Pop(stack, top, pending, Segment(base, limit), start, end);
      }
    }
    ok, fits := true, true;
    if ordered {
      NothingOpen(less, arr[..], start, end);
    }
  }

  // InsertionSortSliced
  method InsertionSortSliced<T(!new)>(arr: array<T>, start: nat, end: nat, less: (T, T) -> bool)
    requires start <= end <= arr.Length
    requires StrictWeakOrder(less)
    modifies arr
    ensures SortedSlice(less, arr[..], start, end)
    ensures Permutes(old(arr[..]), arr[..], start, end)
  {
    InsertionSort(arr, start, end, less, true);
  }

  // LowerBoundSliced: the first position whose element is not less than `val`.
  method LowerBoundSliced<T(!new)>(arr: array<T>, start: nat, end: nat, val: T, less: (T, T) -> bool) returns (first: nat)
    requires start <= end <= arr.Length
    requires StrictWeakOrder(less) && SortedSlice(less, arr[..], start, end)
    ensures start <= first <= end
    ensures forall k :: start <= k < first ==> less(arr[k], val)
    ensures forall k :: first <= k < end ==> !less(arr[k], val)
  {
    first := start;
    var len := end - start;
    while len > 0
      invariant 0 <= len && start <= first && first + len <= end
      invariant forall k :: start <= k < first ==> less(arr[k], val)
      invariant forall k :: first + len <= k < end ==> !less(arr[k], val)
    {
      var half := len / 2;
      var middle := first + half;
      if less(arr[middle], val) {
        forall k | start <= k < middle ensures less(arr[k], val) {
          Below(less, arr[..][k], arr[..][middle], val);
        }
        first := middle + 1;
        len := len - half - 1;
      } else {
        forall k | middle < k < end ensures !less(arr[k], val) {
          AtMostTransitive(less, val, arr[..][middle], arr[..][k]);
        }
        len := half;
      }
    }
  }

  // UpperBoundSliced: the first position whose element `val` is less than.
  method UpperBoundSliced<T(!new)>(arr: array<T>, start: nat, end: nat, val: T, less: (T, T) -> bool) returns (first: nat)
    requires start <= end <= arr.Length
    requires StrictWeakOrder(less) && SortedSlice(less, arr[..], start, end)
    ensures start <= first <= end
    ensures forall k :: start <= k < first ==> !less(val, arr[k])
    ensures forall k :: first <= k < end ==> less(val, arr[k])
  {
    first := start;
    var len := end - start;
    while len > 0
      invariant 0 <= len && start <= first && first + len <= end
      invariant forall k :: start <= k < first ==> !less(val, arr[k])
      invariant forall k :: first + len <= k < end ==> less(val, arr[k])
    {
      var half := len / 2;
      var middle := first + half;
      if less(val, arr[middle]) {
        forall k | middle < k < end ensures less(val, arr[k]) {
          Above(less, val, arr[..][middle], arr[..][k]);
        }
        len := half;
      } else {
        forall k | start <= k < middle ensures !less(val, arr[k]) {
          AtMostTransitive(less, arr[..][k], arr[..][middle], val);
        }
        first := middle + 1;
        len := len - half - 1;
      }
    }
  }

  lemma Below<T(!new)>(less: (T, T) -> bool, x: T, y: T, z: T)
    requires StrictWeakOrder(less) && AtMost(less, x, y) && less(y, z)
    ensures less(x, z)
  {
    if !less(x, z) {
      AtMostTransitive(less, z, x, y);
    }
  }

  lemma Above<T(!new)>(less: (T, T) -> bool, x: T, y: T, z: T)
    requires StrictWeakOrder(less) && less(x, y) && AtMost(less, y, z)
    ensures less(x, z)
  {
    if !less(x, z) {
      AtMostTransitive(less, y, z, x);
    }
  }
}
