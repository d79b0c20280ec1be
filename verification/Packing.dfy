// Which views may have a dense copy of their own (vx_view_copy_packable), and
// why that is safe: the accepted layouts reach no element twice.
module Packing {
  import opened Strided
  import opened Abi

  // Dimension `e` starts past the end of dimension `d`.
  predicate Past(sizes: seq<int>, strides: seq<int>, d: int, e: int)
    requires |sizes| == |strides| && 0 <= d < |sizes| && 0 <= e < |sizes|
  {
    strides[e] >= strides[d] * sizes[d]
  }

  // Of any two dimensions of more than one element, one starts past the end of
  // the other. The order of the dimensions does not matter.
  predicate Nested(sizes: seq<int>, strides: seq<int>)
    requires |sizes| == |strides|
  {
    && (forall d :: 0 <= d < |sizes| && sizes[d] > 1 ==> strides[d] > 0)
    && (forall d, e :: 0 <= d < |sizes| && 0 <= e < |sizes| && d != e && sizes[d] > 1 && sizes[e] > 1
                       ==> Past(sizes, strides, d, e) || Past(sizes, strides, e, d))
  }

  // What the dimensions of more than one element and a stride below `T` reach.
  function SumBelow(sizes: seq<int>, strides: seq<int>, T: int): int
    requires |sizes| == |strides|
  {
    if |sizes| == 0 then 0
    else
      var n := |sizes| - 1;
      SumBelow(sizes[..n], strides[..n], T)
      + if sizes[n] > 1 && strides[n] < T then (sizes[n] - 1) * strides[n] else 0
  }

  // How many tuples those dimensions have.
  function CountBelow(sizes: seq<int>, strides: seq<int>, T: int): int
    requires |sizes| == |strides|
  {
    if |sizes| == 0 then 1
    else
      var n := |sizes| - 1;
      CountBelow(sizes[..n], strides[..n], T) * if sizes[n] > 1 && strides[n] < T then sizes[n] else 1
  }

  predicate Below(sizes: seq<int>, strides: seq<int>, T: int, d: int)
    requires |sizes| == |strides|
  {
    0 <= d < |sizes| && sizes[d] > 1 && strides[d] < T
  }

  lemma {:induction false} BelowSame(sizes: seq<int>, strides: seq<int>, T: int, U: int)
    requires |sizes| == |strides|
    requires forall d :: 0 <= d < |sizes| && sizes[d] > 1 ==> (strides[d] < T <==> strides[d] < U)
    ensures SumBelow(sizes, strides, T) == SumBelow(sizes, strides, U)
    ensures CountBelow(sizes, strides, T) == CountBelow(sizes, strides, U)
  {
    if |sizes| > 0 {
      BelowSame(sizes[..|sizes| - 1], strides[..|sizes| - 1], T, U);
    }
  }

  // With no dimension below `T` there is one tuple, and it reaches nothing.
  lemma {:induction false} BelowNone(sizes: seq<int>, strides: seq<int>, T: int)
    requires |sizes| == |strides| && forall d :: !Below(sizes, strides, T, d)
    ensures SumBelow(sizes, strides, T) == 0 && CountBelow(sizes, strides, T) == 1
  {
    if |sizes| > 0 {
      var n := |sizes| - 1;
      assert !Below(sizes, strides, T, n);
      forall d ensures !Below(sizes[..n], strides[..n], T, d) {
        assert !Below(sizes, strides, T, d);
      }
      BelowNone(sizes[..n], strides[..n], T);
    }
  }

  // The dimension of the largest stride below `T` comes apart from the rest.
  lemma {:induction false} BelowSplit(sizes: seq<int>, strides: seq<int>, T: int, m: int)
    requires |sizes| == |strides| && Below(sizes, strides, T, m)
    requires forall d :: Below(sizes, strides, T, d) && d != m ==> strides[d] < strides[m]
    ensures SumBelow(sizes, strides, T)
         == (sizes[m] - 1) * strides[m] + SumBelow(sizes, strides, strides[m])
    ensures CountBelow(sizes, strides, T) == sizes[m] * CountBelow(sizes, strides, strides[m])
  {
    var n := |sizes| - 1;
    var s', t' := sizes[..n], strides[..n];
    if m == n {
      forall d | 0 <= d < n && s'[d] > 1
        ensures t'[d] < T <==> t'[d] < strides[m]
      {
        assert Below(sizes, strides, T, d) ==> strides[d] < strides[m];
      }
      BelowSame(s', t', T, strides[m]);
    } else {
      forall d | Below(s', t', T, d) && d != m
        ensures t'[d] < t'[m]
      {
        assert Below(sizes, strides, T, d);
      }
      BelowSplit(s', t', T, m);
      assert Below(sizes, strides, T, n) ==> strides[n] < strides[m];
      MulAssoc(sizes[m], CountBelow(s', t', strides[m]), sizes[n]);
    }
  }

  // The dimension of the largest stride below `T`, or -1 when there is none.
  lemma {:induction false} LargestBelow(sizes: seq<int>, strides: seq<int>, T: int) returns (m: int)
    requires |sizes| == |strides|
    ensures m == -1 ==> forall d :: !Below(sizes, strides, T, d)
    ensures m != -1 ==> Below(sizes, strides, T, m)
    ensures m != -1 ==> forall d :: Below(sizes, strides, T, d) ==> strides[d] <= strides[m]
  {
    if |sizes| == 0 {
      m := -1;
    } else {
      var n := |sizes| - 1;
      m := LargestBelow(sizes[..n], strides[..n], T);
      forall d | Below(sizes, strides, T, d) && d != n
        ensures m != -1 && strides[d] <= strides[m]
      {
        assert Below(sizes[..n], strides[..n], T, d);
      }
      if Below(sizes, strides, T, n) && (m == -1 || strides[n] > strides[m]) {
        m := n;
      }
    }
  }

  // Of two dimensions that are nested, the one of the smaller stride ends
  // before the other starts.
  lemma NestedOrder(sizes: seq<int>, strides: seq<int>, d: int, e: int)
    requires |sizes| == |strides| && Nested(sizes, strides)
    requires 0 <= d < |sizes| && 0 <= e < |sizes| && d != e && sizes[d] > 1 && sizes[e] > 1
    requires strides[d] <= strides[e]
    ensures Past(sizes, strides, d, e) && strides[d] < strides[e]
  {
    assert strides[d] * sizes[d] >= strides[d] * 2;
    assert strides[e] * sizes[e] >= strides[e] * 2;
  }

  // Dimensions that all end by `T` reach less than `T` together, and reach at
  // least as many places as they have tuples.
  lemma {:induction false} BelowGap(sizes: seq<int>, strides: seq<int>, T: int)
    requires |sizes| == |strides| && Nested(sizes, strides) && T > 0
    requires forall d :: Below(sizes, strides, T, d) ==> strides[d] * sizes[d] <= T
    ensures 0 <= SumBelow(sizes, strides, T) < T
    ensures CountBelow(sizes, strides, T) <= 1 + SumBelow(sizes, strides, T)
    decreases T
  {
    var m := LargestBelow(sizes, strides, T);
    if m == -1 {
      BelowNone(sizes, strides, T);
    } else {
      var t, s := strides[m], sizes[m];
      forall d | Below(sizes, strides, T, d) && d != m
        ensures strides[d] < strides[m]
      {
        NestedOrder(sizes, strides, d, m);
      }
      forall d | Below(sizes, strides, t, d)
        ensures strides[d] * sizes[d] <= t
      {
        NestedOrder(sizes, strides, d, m);
      }
      BelowSplit(sizes, strides, T, m);
      BelowGap(sizes, strides, t);
      GapStep(s, t, SumBelow(sizes, strides, t), CountBelow(sizes, strides, t), T);
    }
  }

  lemma Distribute(x: int, s: int)
    ensures x * s == x * (s - 1) + x && s * x == x * s && (s - 1) * x == x * (s - 1)
  {}

  lemma GapStep(s: int, t: int, sum: int, count: int, T: int)
    requires s > 1 && 0 <= sum < t && count <= 1 + sum && t * s <= T
    ensures 0 <= (s - 1) * t + sum < T
    ensures s * count <= 1 + (s - 1) * t + sum
  {
    MulLe(count, 1 + sum, s);
    MulLe(1 + sum, t, s - 1);
    Distribute(1 + sum, s);
    Distribute(t, s);
  }

  lemma {:induction false} LinearUpdate(i: seq<int>, strides: seq<int>, m: nat, x: int)
    requires |i| == |strides| && m < |i|
    ensures Linear(i[m := x], strides) == Linear(i, strides) + (x - i[m]) * strides[m]
  {
    var n := |i| - 1;
    if m == n {
      assert i[m := x][..n] == i[..n];
    } else {
      assert i[m := x][..n] == i[..n][m := x];
      LinearUpdate(i[..n], strides[..n], m, x);
    }
  }

  // Two tuples that agree in every dimension of stride `T` or more are at most
  // SumBelow apart.
  lemma {:induction false} DistanceBound(i: seq<int>, j: seq<int>, sizes: seq<int>, strides: seq<int>, T: int)
    requires InRange(i, sizes) && InRange(j, sizes) && |sizes| == |strides|
    requires forall d :: 0 <= d < |sizes| && sizes[d] > 1 ==> strides[d] > 0
    requires forall d :: 0 <= d < |sizes| && i[d] != j[d] ==> strides[d] < T
    ensures -SumBelow(sizes, strides, T) <= Linear(i, strides) - Linear(j, strides) <= SumBelow(sizes, strides, T)
  {
    if |i| > 0 {
      var n := |i| - 1;
      DistanceBound(i[..n], j[..n], sizes[..n], strides[..n], T);
      if i[n] != j[n] {
        DigitDistance(i[n], j[n], sizes[n], strides[n]);
      }
    }
  }

  lemma DigitDistance(x: int, y: int, s: int, t: int)
    requires 0 <= x < s && 0 <= y < s && t > 0
    ensures -((s - 1) * t) <= x * t - y * t <= (s - 1) * t
  {
    assert 0 <= x * t <= (s - 1) * t;
    assert 0 <= y * t <= (s - 1) * t;
  }

  // The dimension of the largest stride among those where two tuples differ.
  lemma LargestDifference(i: seq<int>, j: seq<int>, strides: seq<int>) returns (m: nat)
    requires |i| == |j| == |strides| && i != j
    ensures m < |i| && i[m] != j[m]
    ensures forall d :: 0 <= d < |i| && i[d] != j[d] ==> strides[d] <= strides[m]
  {
    m :| 0 <= m < |i| && i[m] != j[m];
    for k := 0 to |i|
      invariant m < |i| && i[m] != j[m]
      invariant forall d :: 0 <= d < k && i[d] != j[d] ==> strides[d] <= strides[m]
    {
      if i[k] != j[k] && strides[k] > strides[m] {
        m := k;
      }
    }
  }

  // A nested layout reaches no element twice.
  lemma NestedInjective(i: seq<int>, j: seq<int>, sizes: seq<int>, strides: seq<int>)
    requires InRange(i, sizes) && InRange(j, sizes) && |sizes| == |strides| && Nested(sizes, strides)
    requires Linear(i, strides) == Linear(j, strides)
    ensures i == j
  {
    if i != j {
      var m := LargestDifference(i, j, strides);
      var t := strides[m];
      var k := i[m := j[m]];
      forall d | 0 <= d < |sizes| && k[d] != j[d]
        ensures strides[d] < t
      {
        NestedOrder(sizes, strides, d, m);
      }
      DistanceBound(k, j, sizes, strides, t);
      LinearUpdate(i, strides, m, j[m]);
      forall d | Below(sizes, strides, t, d)
        ensures strides[d] * sizes[d] <= t
      {
        NestedOrder(sizes, strides, d, m);
      }
      BelowGap(sizes, strides, t);
      FarApart(j[m] - i[m], t);
    }
  }

  lemma FarApart(x: int, t: int)
    requires x != 0 && t > 0
    ensures x * t >= t || x * t <= -t
  {}

  lemma {:induction false} BelowAll(sizes: seq<int>, strides: seq<int>, T: int)
    requires |sizes| == |strides| && AllPositive(sizes)
    requires forall d :: 0 <= d < |strides| ==> strides[d] < T
    ensures SumBelow(sizes, strides, T) == Last(sizes, strides)
    ensures CountBelow(sizes, strides, T) == Product(sizes)
  {
    if |sizes| > 0 {
      BelowAll(sizes[..|sizes| - 1], strides[..|sizes| - 1], T);
    }
  }

  lemma {:induction false} BoundAll(sizes: seq<int>, strides: seq<int>) returns (T: int)
    requires |sizes| == |strides|
    ensures T > 0
    ensures forall d :: 0 <= d < |strides| ==> strides[d] < T && strides[d] * sizes[d] <= T
  {
    if |sizes| == 0 {
      T := 1;
    } else {
      var n := |sizes| - 1;
      T := BoundAll(sizes[..n], strides[..n]);
      if T <= strides[n] { T := strides[n] + 1; }
      if T < strides[n] * sizes[n] { T := strides[n] * sizes[n]; }
    }
  }

  // A nested layout has no more elements than places, so their count cannot
  // exceed a count that already fits.
  lemma NestedCount(sizes: seq<int>, strides: seq<int>)
    requires |sizes| == |strides| && AllPositive(sizes) && Nested(sizes, strides)
    ensures Product(sizes) <= Last(sizes, strides) + 1
  {
    var T := BoundAll(sizes, strides);
    BelowGap(sizes, strides, T);
    BelowAll(sizes, strides, T);
  }

  lemma DenseStrideStep(sizes: seq<int>, d: nat, e: nat)
    requires AllPositive(sizes) && d < e < |sizes|
    ensures Product(sizes[d + 1..]) >= Product(sizes[e + 1..]) * sizes[e]
  {
    hide Product;
    ProductSplit(sizes, e);
    ProductConcat(sizes[d + 1..e], sizes[e..]);
    assert sizes[d + 1..e] + sizes[e..] == sizes[d + 1..];
    ProductPositive(sizes[d + 1..e]);
    ProductPositive(sizes[e..]);
    MulGrows(Product(sizes[d + 1..e]), sizes[e], Product(sizes[e + 1..]), Product(sizes[e..]));
  }

  lemma MulGrows(x: int, s: int, y: int, z: int)
    requires x >= 1 && z == s * y && z >= 0
    ensures x * z >= y * s
  {
    MulLe(1, x, z);
  }

  // `ds` lists each dimension of more than one element once.
  ghost predicate ListsBig(ds: seq<int>, sizes: seq<int>) {
    forall d :: multiset(ds)[d] == if 0 <= d < |sizes| && sizes[d] > 1 then 1 else 0
  }

  lemma BigMember(ds: seq<int>, sizes: seq<int>, k: nat)
    requires ListsBig(ds, sizes) && k < |ds|
    ensures 0 <= ds[k] < |sizes| && sizes[ds[k]] > 1
  {
    assert ds[k] in multiset(ds);
  }

  lemma BigIndex(ds: seq<int>, sizes: seq<int>, d: nat) returns (k: nat)
    requires ListsBig(ds, sizes) && d < |sizes| && sizes[d] > 1
    ensures k < |ds| && ds[k] == d
  {
    assert d in multiset(ds);
    k :| 0 <= k < |ds| && ds[k] == d;
  }

  // The order of the source's sort, which is stable: by stride, and by place where strides agree.
  predicate Before(strides: seq<int>, d: int, e: int)
    requires 0 <= d < |strides| && 0 <= e < |strides|
  {
    strides[d] < strides[e] || (strides[d] == strides[e] && d < e)
  }

  ghost predicate Sorted(ds: seq<int>, strides: seq<int>, n: nat)
    requires n <= |ds| && ValidDims(ds, strides)
  {
    forall j, k :: 0 <= j < k < n ==> Before(strides, ds[j], ds[k])
  }

  ghost predicate ValidDims(ds: seq<int>, strides: seq<int>) {
    forall k :: 0 <= k < |ds| ==> 0 <= ds[k] < |strides|
  }

  // The test of the source on two dimensions: the product is a signed 64-bit one, and one of 2^63 or
  // more wraps to a negative number.
  predicate TestPast(sizes: seq<int>, strides: seq<int>, d: int, e: int)
    requires |sizes| == |strides| && 0 <= d < |sizes| && 0 <= e < |sizes|
  {
    strides[e] >= WrapI64(strides[d] * sizes[d])
  }

  // Adjacent dimensions of a list pass the test.
  ghost predicate Chained(ds: seq<int>, sizes: seq<int>, strides: seq<int>, n: nat)
    requires |sizes| == |strides| && n <= |ds| && ValidDims(ds, strides)
  {
    forall k :: 1 <= k < n ==> TestPast(sizes, strides, ds[k - 1], ds[k])
  }

  // `d` comes before `e` in the sort, and both have more than one element.
  predicate BigPair(sizes: seq<int>, strides: seq<int>, d: int, e: int)
    requires |sizes| == |strides|
  {
    0 <= d < |sizes| && 0 <= e < |sizes| && sizes[d] > 1 && sizes[e] > 1 && Before(strides, d, e)
  }

  // What the neighbour tests decide: each pair in the order of the sort is past one another, or the
  // product of the first overflows.
  ghost predicate TestNested(sizes: seq<int>, strides: seq<int>)
    requires |sizes| == |strides|
  {
    && StepsForward(sizes, strides)
    && forall d, e :: BigPair(sizes, strides, d, e) ==>
         Past(sizes, strides, d, e) || strides[d] * sizes[d] >= TWO_63
  }

  // No product of the neighbour tests overflows.
  ghost predicate ProductsFit(sizes: seq<int>, strides: seq<int>)
    requires |sizes| == |strides|
  {
    forall d, e :: BigPair(sizes, strides, d, e) ==> strides[d] * sizes[d] < TWO_63
  }

  lemma TestIffPast(sizes: seq<int>, strides: seq<int>, d: nat, e: nat)
    requires |sizes| == |strides| && AllPositive(sizes) && AllNatural(strides)
    requires BigPair(sizes, strides, d, e) && Last(sizes, strides) < TWO_64
    ensures TestPast(sizes, strides, d, e) <==> Past(sizes, strides, d, e) || strides[d] * sizes[d] >= TWO_63
  {
    LastOfTwo(sizes, strides, d, e);
    hide Last;
    OnePastTwo(sizes[d], strides[d], sizes[e], strides[e]);
    assert 0 <= strides[d] * sizes[d] < TWO_64;
  }

  lemma ChainSpreads(ds: seq<int>, sizes: seq<int>, strides: seq<int>, j: nat, k: nat)
    requires |sizes| == |strides| && ValidDims(ds, strides)
    requires Chained(ds, sizes, strides, |ds|) && Sorted(ds, strides, |ds|)
    requires j < k < |ds|
    ensures TestPast(sizes, strides, ds[j], ds[k])
  {
    assert TestPast(sizes, strides, ds[j + 1 - 1], ds[j + 1]);
  }

  // In the order of the sort, the neighbour tests decide the pairwise rule.
  lemma ChainedIffPairwise(ds: seq<int>, sizes: seq<int>, strides: seq<int>)
    requires |sizes| == |strides| && ListsBig(ds, sizes) && ValidDims(ds, strides)
    requires AllPositive(sizes) && AllNatural(strides) && Last(sizes, strides) < TWO_64
    requires StepsForward(sizes, strides) && Sorted(ds, strides, |ds|)
    ensures Chained(ds, sizes, strides, |ds|) <==> TestNested(sizes, strides)
  {
    hide Last;
    if Chained(ds, sizes, strides, |ds|) {
      forall d, e | BigPair(sizes, strides, d, e)
        ensures Past(sizes, strides, d, e) || strides[d] * sizes[d] >= TWO_63
      {
        var j := BigIndex(ds, sizes, d);
        var k := BigIndex(ds, sizes, e);
        assert j < k;
        ChainSpreads(ds, sizes, strides, j, k);
        TestIffPast(sizes, strides, d, e);
      }
    }
    if TestNested(sizes, strides) {
      forall k | 1 <= k < |ds|
        ensures TestPast(sizes, strides, ds[k - 1], ds[k])
      {
        BigMember(ds, sizes, k - 1);
        BigMember(ds, sizes, k);
        assert Before(strides, ds[k - 1], ds[k]);
        TestIffPast(sizes, strides, ds[k - 1], ds[k]);
      }
    }
  }

  method SwapDown(dims: array<int>, n: nat, j: nat)
    requires 1 <= j < n <= dims.Length
    modifies dims
    ensures dims[..n] == old(dims[..n])[j := old(dims[j - 1])][j - 1 := old(dims[j])]
    ensures multiset(dims[..n]) == multiset(old(dims[..n]))
  {
    ghost var before := dims[..n];
    var t := dims[j];
    dims[j] := dims[j - 1];
    dims[j - 1] := t;
    assert dims[..n] == before[j := before[j - 1]][j - 1 := before[j]];
  }

  // `ds` is sorted up to `at`, except for the element at `j` that is still moving left. It came last,
  // so the others have smaller places.
  ghost predicate SortedButFor(ds: seq<int>, strides: seq<int>, at: nat, j: nat)
    requires j <= at < |ds| && ValidDims(ds, strides)
  {
    && (forall a, b :: 0 <= a < b <= at && a != j && b != j ==> Before(strides, ds[a], ds[b]))
    && (forall b :: j < b <= at ==> strides[ds[j]] < strides[ds[b]])
    && (forall a :: 0 <= a <= at && a != j ==> ds[a] < ds[j])
  }

  lemma MoveLeft(ds: seq<int>, strides: seq<int>, at: nat, j: nat)
    requires 1 <= j <= at < |ds| && ValidDims(ds, strides) && SortedButFor(ds, strides, at, j)
    requires strides[ds[j]] < strides[ds[j - 1]]
    ensures ValidDims(ds[j := ds[j - 1]][j - 1 := ds[j]], strides)
    ensures SortedButFor(ds[j := ds[j - 1]][j - 1 := ds[j]], strides, at, j - 1)
  {}

  // Move dims[at] left to its place among the sorted dimensions before it.
  method Insert(dims: array<int>, n: nat, at: nat, strides: seq<int>)
    requires at < n <= dims.Length && ValidDims(dims[..n], strides)
    requires Sorted(dims[..n], strides, at) && forall a :: 0 <= a < at ==> dims[a] < dims[at]
    modifies dims
    ensures multiset(dims[..n]) == multiset(old(dims[..n]))
    ensures ValidDims(dims[..n], strides)
    ensures Sorted(dims[..n], strides, at + 1)
    ensures forall a :: 0 <= a <= at ==> dims[a] <= old(dims[at])
    ensures forall a :: at < a < n ==> dims[a] == old(dims[a])
  {
    var j := at;
    while j > 0 && strides[dims[j]] < strides[dims[j - 1]]
      invariant 0 <= j <= at
      invariant multiset(dims[..n]) == multiset(old(dims[..n]))
      invariant ValidDims(dims[..n], strides)
      invariant SortedButFor(dims[..n], strides, at, j)
      invariant dims[j] == old(dims[at]) && forall a :: at < a < n ==> dims[a] == old(dims[a])
    {
      MoveLeft(dims[..n], strides, at, j);
      SwapDown(dims, n, j);
      j := j - 1;
    }
    SettledIsSorted(dims[..n], strides, at, j);
  }

  lemma SettledIsSorted(ds: seq<int>, strides: seq<int>, at: nat, j: nat)
    requires j <= at < |ds| && ValidDims(ds, strides) && SortedButFor(ds, strides, at, j)
    requires j == 0 || strides[ds[j - 1]] <= strides[ds[j]]
    ensures Sorted(ds, strides, at + 1) && forall a :: 0 <= a <= at ==> ds[a] <= ds[j]
  {
    forall a, b | 0 <= a < b < at + 1
      ensures Before(strides, ds[a], ds[b])
    {
      if b == j && a < j - 1 {
        assert Before(strides, ds[a], ds[j - 1]);
      }
    }
  }

  // From `i` on, places rise, and all are above those before.
  ghost predicate Rising(ds: seq<int>, i: nat) {
    forall a, b :: 0 <= a < b < |ds| && i <= b ==> ds[a] < ds[b]
  }

  // The insertion sort of vx_view_copy_packable.
  method SortDims(dims: array<int>, n: nat, strides: seq<int>)
    requires n <= dims.Length && ValidDims(dims[..n], strides) && Rising(dims[..n], 0)
    modifies dims
    ensures multiset(dims[..n]) == multiset(old(dims[..n]))
    ensures ValidDims(dims[..n], strides)
    ensures Sorted(dims[..n], strides, n)
  {
    var i := 1;
    while i < n
      invariant 1 <= i
      invariant multiset(dims[..n]) == multiset(old(dims[..n]))
      invariant ValidDims(dims[..n], strides)
      invariant Sorted(dims[..n], strides, if i <= n then i else n) && Rising(dims[..n], i)
    {
      ghost var before := dims[..n];
      assert forall a :: 0 <= a < i ==> before[a] < before[i];
      Insert(dims, n, i, strides);
      StillRising(before, dims[..n], i);
      i := i + 1;
    }
  }

  lemma StillRising(ds: seq<int>, ds': seq<int>, i: nat)
    requires |ds'| == |ds| && i < |ds| && Rising(ds, i)
    requires forall a :: 0 <= a <= i ==> ds'[a] <= ds[i]
    requires forall a :: i < a < |ds| ==> ds'[a] == ds[a]
    ensures Rising(ds', i + 1)
  {
    forall a, b | 0 <= a < b < |ds'| && i + 1 <= b
      ensures ds'[a] < ds'[b]
    {
      assert ds[i] < ds[b];
    }
  }

  // One unsigned 64-bit multiplication, which wraps.
  function MulU64(x: int, y: int): (r: int)
    ensures 0 <= r < TWO_64
  {
    x * y % 0x1_0000_0000_0000_0000
  }

  lemma {:induction false} WrapShift(k: nat, x: int)
    ensures (k * TWO_64 + x) % 0x1_0000_0000_0000_0000 == x % 0x1_0000_0000_0000_0000
  {
    if k > 0 {
      WrapShift(k - 1, x);
    }
  }

  lemma WrapMul(p: int, s: int)
    requires 0 <= p && 0 <= s
    ensures MulU64(p % 0x1_0000_0000_0000_0000, s) == p * s % 0x1_0000_0000_0000_0000
  {
    var q, r := p / 0x1_0000_0000_0000_0000, p % 0x1_0000_0000_0000_0000;
    assert p == q * TWO_64 + r;
    assert p * s == (q * s) * TWO_64 + r * s;
    assert q * s >= 0;
    WrapShift(q * s, r * s);
  }

  // The element count as the source computes it, modulo 2^64.
  function WrappedProduct(sizes: seq<int>): int {
    if |sizes| == 0 then 1 else MulU64(WrappedProduct(sizes[..|sizes| - 1]), sizes[|sizes| - 1])
  }

  lemma {:induction false} WrappedIsProduct(sizes: seq<int>)
    requires AllPositive(sizes)
    ensures WrappedProduct(sizes) == Product(sizes) % 0x1_0000_0000_0000_0000
  {
    if |sizes| > 0 {
      var n := |sizes| - 1;
      WrappedIsProduct(sizes[..n]);
      ProductPositive(sizes[..n]);
      WrapMul(Product(sizes[..n]), sizes[n]);
    }
  }

  ghost predicate StepsForward(sizes: seq<int>, strides: seq<int>)
    requires |sizes| == |strides|
  {
    forall d :: 0 <= d < |sizes| && sizes[d] > 1 ==> strides[d] > 0
  }

  // The dimensions of more than one element, in order.
  function BigDims(sizes: seq<int>): seq<int> {
    if |sizes| == 0 then []
    else BigDims(sizes[..|sizes| - 1]) + if sizes[|sizes| - 1] > 1 then [|sizes| - 1] else []
  }

  lemma {:induction false} BigDimsLists(sizes: seq<int>)
    ensures ListsBig(BigDims(sizes), sizes)
  {
    if |sizes| > 0 {
      BigDimsLists(sizes[..|sizes| - 1]);
    }
  }

  lemma {:induction false} BigDimsRise(sizes: seq<int>)
    ensures Rising(BigDims(sizes), 0)
    ensures forall k :: 0 <= k < |BigDims(sizes)| ==> 0 <= BigDims(sizes)[k] < |sizes|
  {
    if |sizes| > 0 {
      BigDimsRise(sizes[..|sizes| - 1]);
    }
  }

  method Append(dims: array<int>, n: nat, d: int)
    requires n < dims.Length
    modifies dims
    ensures dims[..n + 1] == old(dims[..n]) + [d]
  {
    dims[n] := d;
  }

  // The first loop of vx_view_copy_packable: the dimensions of more than one
  // element, and the element count modulo 2^64.
  method CollectDims(sizes: seq<int>, strides: seq<int>, dims: array<int>) returns (ok: bool, n: nat, elements: int)
    requires |sizes| == |strides| <= dims.Length && AllPositive(sizes)
    modifies dims
    ensures ok <==> StepsForward(sizes, strides)
    ensures ok ==> n <= dims.Length && dims[..n] == BigDims(sizes)
    ensures ok ==> elements == WrappedProduct(sizes)
  {
    n, elements := 0, 1;
    var d := 0;
    while d < |sizes|
      invariant 0 <= n <= d <= |sizes|
      invariant dims[..n] == BigDims(sizes[..d])
      invariant elements == WrappedProduct(sizes[..d])
      invariant forall k :: 0 <= k < d && sizes[k] > 1 ==> strides[k] > 0
    {
      assert sizes[..d + 1][..d] == sizes[..d];
      elements := MulU64(elements, sizes[d]);
      if sizes[d] > 1 {
        if strides[d] <= 0 {
          return false, n, elements;
        }
        Append(dims, n, d);
        n := n + 1;
      }
      d := d + 1;
    }
    assert sizes[..d] == sizes;
    ok := true;
  }

  // The last loop: does each dimension, in the order of the sort, start past the one before?
  method CheckChain(ds: seq<int>, sizes: seq<int>, strides: seq<int>) returns (ok: bool)
    requires |sizes| == |strides| && ValidDims(ds, strides)
    ensures ok <==> Chained(ds, sizes, strides, |ds|)
  {
    var i := 1;
    while i < |ds|
      invariant 1 <= i
      invariant Chained(ds, sizes, strides, if i <= |ds| then i else |ds|)
    {
      if strides[ds[i]] < WrapI64(strides[ds[i - 1]] * sizes[ds[i - 1]]) {
        assert !TestPast(sizes, strides, ds[i - 1], ds[i]);
        return false;
      }
      i := i + 1;
    }
    ok := true;
  }

  lemma ValidFromBig(ds: seq<int>, sizes: seq<int>, strides: seq<int>)
    requires ListsBig(ds, sizes) && |sizes| == |strides|
    ensures ValidDims(ds, strides)
  {
    forall k | 0 <= k < |ds|
      ensures 0 <= ds[k] < |strides|
    {
      BigMember(ds, sizes, k);
    }
  }

  lemma NestedFits(sizes: seq<int>, strides: seq<int>, b: int, bytes: int)
    requires |sizes| == |strides| && AllPositive(sizes) && Nested(sizes, strides) && 1 <= b
    requires bytes == (Last(sizes, strides) + 1) * b < TWO_64
    ensures MulU64(WrappedProduct(sizes), b) == Product(sizes) * b
  {
    WrappedIsProduct(sizes);
    NestedCount(sizes, strides);
    ProductPositive(sizes);
    CountFits(Product(sizes), Last(sizes, strides) + 1, b);
  }

  lemma CountFits(p: int, count: int, b: int)
    requires 0 <= p <= count && 1 <= b && count * b < TWO_64
    ensures MulU64(p % 0x1_0000_0000_0000_0000, b) == p * b
  {
    MulLe(p, count, b);
    MulLe(1, b, count);
    WrapMul(p, b);
  }

  // What vx_view_copy_packable accepts.
  ghost predicate TestPackable(sizes: seq<int>, strides: seq<int>, b: int, bytes: int)
    requires |sizes| == |strides|
  {
    |sizes| <= MAX_RANK && TestNested(sizes, strides) && MulU64(WrappedProduct(sizes), b) < bytes
  }

  // What its documentation says it accepts.
  ghost predicate ShouldPack(sizes: seq<int>, strides: seq<int>, b: int, bytes: int)
    requires |sizes| == |strides|
  {
    |sizes| <= MAX_RANK && Nested(sizes, strides) && Product(sizes) * b < bytes
  }

  // vx_view_copy_packable for a view that is not empty. `bytes` is the view's span.
  method Packable(sizes: seq<int>, strides: seq<int>, b: int, bytes: int) returns (ok: bool, dense: int)
    requires |sizes| == |strides| && AllPositive(sizes) && AllNatural(strides) && 1 <= b
    requires bytes == (Last(sizes, strides) + 1) * b < TWO_64
    ensures ok <==> TestPackable(sizes, strides, b, bytes)
    ensures ok ==> dense == MulU64(WrappedProduct(sizes), b)
    ensures ok && Nested(sizes, strides) ==> dense == Product(sizes) * b
  {
    hide Nested, TestNested, Product, Last, WrappedProduct, MulU64;
    LastBelow(Last(sizes, strides), b, bytes);
    var elements;
    ok, elements := TestDims(sizes, strides);
    if !ok {
      return false, 0;
    }
    if Nested(sizes, strides) {
      NestedFits(sizes, strides, b, bytes);
    }
    dense := MulU64(elements, b);
    ok := dense < bytes;
  }

  // The tests on the dimensions, and the element count modulo 2^64.
  method TestDims(sizes: seq<int>, strides: seq<int>) returns (ok: bool, elements: int)
    requires |sizes| == |strides| && AllPositive(sizes) && AllNatural(strides) && Last(sizes, strides) < TWO_64
    ensures ok <==> |sizes| <= MAX_RANK && TestNested(sizes, strides)
    ensures ok ==> elements == WrappedProduct(sizes)
  {
    hide TestNested, ListsBig, Sorted, Rising, ValidDims, Last, WrappedProduct, Chained;
    if |sizes| > MAX_RANK {
      return false, 0;
    }
    var dims := new int[MAX_RANK];
    var forward, n;
    forward, n, elements := CollectDims(sizes, strides, dims);
    if !forward {
      NotForward(sizes, strides);
      return false, 0;
    }
    BigDimsLists(sizes);
    BigDimsRise(sizes);
    ValidFromBig(dims[..n], sizes, strides);
    ghost var listed := dims[..n];
    SortDims(dims, n, strides);
    StillLists(listed, dims[..n], sizes);
    ok := CheckChain(dims[..n], sizes, strides);
    ChainedIffPairwise(dims[..n], sizes, strides);
  }

  lemma NotForward(sizes: seq<int>, strides: seq<int>)
    requires |sizes| == |strides| && !StepsForward(sizes, strides)
    ensures !TestNested(sizes, strides) && !Nested(sizes, strides)
  {}

  lemma StillLists(ds: seq<int>, ds': seq<int>, sizes: seq<int>)
    requires ListsBig(ds, sizes) && multiset(ds') == multiset(ds)
    ensures ListsBig(ds', sizes)
  {}

  lemma LastBelow(last: int, b: int, bytes: int)
    requires 1 <= b && bytes == (last + 1) * b && bytes < TWO_64
    ensures last < TWO_64
  {
    if last >= TWO_64 {
      MulLe(1, b, last + 1);
    }
  }

  // ---- Products that overflow ----

  // Of two dimensions whose product overflows, neither starts past the other.
  lemma OverflowIsNotPast(sizes: seq<int>, strides: seq<int>, d: nat, e: nat)
    requires |sizes| == |strides| && BigPair(sizes, strides, d, e) && 0 < strides[d] && strides[e] < TWO_63
    requires strides[d] * sizes[d] >= TWO_63
    ensures !Past(sizes, strides, d, e) && !Past(sizes, strides, e, d)
  {
    MulLe(2, sizes[e], strides[e]);
  }

  // A view that the neighbour tests let through is nested exactly when no product overflows. A nested
  // view always passes them.
  lemma TestIffNested(sizes: seq<int>, strides: seq<int>)
    requires |sizes| == |strides| && forall k :: 0 <= k < |strides| ==> strides[k] < TWO_63
    ensures TestNested(sizes, strides) ==> (Nested(sizes, strides) <==> ProductsFit(sizes, strides))
    ensures Nested(sizes, strides) ==> TestNested(sizes, strides)
  {
    if TestNested(sizes, strides) && Nested(sizes, strides) {
      forall d, e | BigPair(sizes, strides, d, e)
        ensures strides[d] * sizes[d] < TWO_63
      {
        if strides[d] * sizes[d] >= TWO_63 {
          OverflowIsNotPast(sizes, strides, d, e);
        }
      }
    }
    if TestNested(sizes, strides) && ProductsFit(sizes, strides) {
      forall d, e | 0 <= d < |sizes| && 0 <= e < |sizes| && d != e && sizes[d] > 1 && sizes[e] > 1
        ensures Past(sizes, strides, d, e) || Past(sizes, strides, e, d)
      {
        assert BigPair(sizes, strides, d, e) || BigPair(sizes, strides, e, d);
      }
    }
    if Nested(sizes, strides) {
      forall d, e | BigPair(sizes, strides, d, e)
        ensures Past(sizes, strides, d, e)
      {
        NestedOrder(sizes, strides, d, e);
      }
    }
  }

  // The source takes a view that it should not exactly when it takes one with a product of 2^63 or
  // more. It refuses none that it should take.
  lemma WrongIff(sizes: seq<int>, strides: seq<int>, b: int, bytes: int)
    requires |sizes| == |strides| && AllPositive(sizes) && AllNatural(strides) && 1 <= b
    requires bytes == (Last(sizes, strides) + 1) * b < TWO_64
    requires forall k :: 0 <= k < |strides| ==> strides[k] < TWO_63
    ensures TestPackable(sizes, strides, b, bytes) && !ShouldPack(sizes, strides, b, bytes)
       <==> TestPackable(sizes, strides, b, bytes) && !ProductsFit(sizes, strides)
    ensures ShouldPack(sizes, strides, b, bytes) ==> TestPackable(sizes, strides, b, bytes)
  {
    TestIffNested(sizes, strides);
    if Nested(sizes, strides) {
      NestedFits(sizes, strides, b, bytes);
    }
  }

  // Where no product overflows, the source and its documentation agree.
  lemma FittingAgrees(sizes: seq<int>, strides: seq<int>, b: int, bytes: int)
    requires |sizes| == |strides| && AllPositive(sizes) && AllNatural(strides) && 1 <= b
    requires bytes == (Last(sizes, strides) + 1) * b < TWO_64 && ProductsFit(sizes, strides)
    ensures TestPackable(sizes, strides, b, bytes) <==> ShouldPack(sizes, strides, b, bytes)
  {
    if TestNested(sizes, strides) {
      forall d, e | 0 <= d < |sizes| && 0 <= e < |sizes| && d != e && sizes[d] > 1 && sizes[e] > 1
        ensures Past(sizes, strides, d, e) || Past(sizes, strides, e, d)
      {
        assert BigPair(sizes, strides, d, e) || BigPair(sizes, strides, e, d);
      }
    }
    if Nested(sizes, strides) {
      forall d, e | BigPair(sizes, strides, d, e)
        ensures Past(sizes, strides, d, e)
      {
        NestedOrder(sizes, strides, d, e);
      }
      NestedFits(sizes, strides, b, bytes);
    }
  }

  // No product overflows in a view that reaches fewer than 2^63 places.
  lemma ShortFits(sizes: seq<int>, strides: seq<int>)
    requires |sizes| == |strides| && AllPositive(sizes) && AllNatural(strides) && Last(sizes, strides) < TWO_63
    ensures ProductsFit(sizes, strides)
  {
    forall d, e | BigPair(sizes, strides, d, e)
      ensures strides[d] * sizes[d] < TWO_63
    {
      LastOfTwo(sizes, strides, d, e);
      hide Last;
      OnePastTwo(sizes[d], strides[d], sizes[e], strides[e]);
    }
  }

  lemma OnePastTwo(a: int, s: int, b: int, t: int)
    requires a >= 1 && b > 1 && 0 <= s <= t
    ensures 0 <= s * a <= (a - 1) * s + (b - 1) * t
  {
    assert s * a == (a - 1) * s + s;
    assert (a - 1) * s >= 0;
    assert (b - 1) * t >= t;
  }

  // Two dimensions reach no farther than all of them.
  lemma {:induction false} LastOfTwo(sizes: seq<int>, strides: seq<int>, d: nat, e: nat)
    requires |sizes| == |strides| && AllPositive(sizes) && AllNatural(strides) && d < |sizes| && e < |sizes| && d != e
    ensures (sizes[d] - 1) * strides[d] + (sizes[e] - 1) * strides[e] <= Last(sizes, strides)
    decreases |sizes|
  {
    var n := |sizes| - 1;
    assert (sizes[n] - 1) * strides[n] >= 0;
    if d == n {
      LastOfOne(sizes[..n], strides[..n], e);
    } else if e == n {
      LastOfOne(sizes[..n], strides[..n], d);
    } else {
      LastOfTwo(sizes[..n], strides[..n], d, e);
    }
  }

  lemma {:induction false} LastOfOne(sizes: seq<int>, strides: seq<int>, d: nat)
    requires |sizes| == |strides| && AllPositive(sizes) && AllNatural(strides) && d < |sizes|
    ensures (sizes[d] - 1) * strides[d] <= Last(sizes, strides)
    decreases |sizes|
  {
    var n := |sizes| - 1;
    if d == n {
      LastNatural(sizes[..n], strides[..n]);
    } else {
      assert (sizes[n] - 1) * strides[n] >= 0;
      LastOfOne(sizes[..n], strides[..n], d);
    }
  }

  // A signed 64-bit product that wraps.
  function WrapI64(x: int): int {
    (x + TWO_63) % 0x1_0000_0000_0000_0000 - TWO_63
  }

  // A view that passes and reaches an element twice.
  lemma WrapAccepts()
    ensures var sizes, strides := [2, 2], [0x4000_0000_0000_0000, 0x4000_0000_0000_0000];
            && TestPackable(sizes, strides, 1, Last(sizes, strides) + 1) && !Nested(sizes, strides)
            && InRange([0, 1], sizes) && InRange([1, 0], sizes) && Linear([0, 1], strides) == Linear([1, 0], strides)
  {
    var big := 0x4000_0000_0000_0000;
    var sizes, strides := [2, 2], [big, big];
    TwoDims(sizes, strides);
    WrappedIsProduct(sizes);
    LinearOfUnit(strides, 0);
    LinearOfUnit(strides, 1);
    assert Zeros(2)[0 := 1] == [1, 0] && Zeros(2)[1 := 1] == [0, 1];
    assert !Past(sizes, strides, 0, 1) && !Past(sizes, strides, 1, 0);
  }

  lemma OneDim(sizes: seq<int>, strides: seq<int>)
    requires |sizes| == |strides| == 1
    ensures Product(sizes) == sizes[0] && Last(sizes, strides) == (sizes[0] - 1) * strides[0]
  {
    assert sizes[..0] == [] && strides[..0] == [];
  }

  lemma TwoDims(sizes: seq<int>, strides: seq<int>)
    requires |sizes| == |strides| == 2
    ensures Product(sizes) == sizes[0] * sizes[1]
    ensures Last(sizes, strides) == (sizes[0] - 1) * strides[0] + (sizes[1] - 1) * strides[1]
  {
    var p, l := Product(sizes[..1]), Last(sizes[..1], strides[..1]);
    assert Product(sizes) == p * sizes[1] && Last(sizes, strides) == l + (sizes[1] - 1) * strides[1];
    hide Product, Last;
    OneDim(sizes[..1], strides[..1]);
  }

  // ---- What a dense copy saves ----

  // No element of the view is at index `l`.
  ghost predicate Unreached(sizes: seq<int>, strides: seq<int>, l: int)
    requires |sizes| == |strides|
  {
    forall t :: InRange(t, sizes) ==> Linear(t, strides) != l
  }

  // The indices of the first `n` elements.
  function Reached(sizes: seq<int>, strides: seq<int>, n: int): set<int>
    requires |sizes| == |strides| && AllPositive(sizes)
  {
    set p: nat | p < n :: OffsetAt(p, sizes, strides)
  }

  lemma {:induction false} ReachedSize(sizes: seq<int>, strides: seq<int>, n: nat)
    requires |sizes| == |strides| && AllPositive(sizes) && Nested(sizes, strides) && n <= Product(sizes)
    ensures |Reached(sizes, strides, n)| == n
  {
    hide Nested, OffsetAt, Product;
    if n > 0 {
      ReachedSize(sizes, strides, n - 1);
      var x := OffsetAt(n - 1, sizes, strides);
      assert Reached(sizes, strides, n) == Reached(sizes, strides, n - 1) + {x};
      if x in Reached(sizes, strides, n - 1) {
        var p: nat :| p < n - 1 && OffsetAt(p, sizes, strides) == x;
        SameElement(sizes, strides, p, n - 1);
      }
    }
  }

  lemma SameElement(sizes: seq<int>, strides: seq<int>, p: nat, q: nat)
    requires |sizes| == |strides| && AllPositive(sizes) && Nested(sizes, strides)
    requires p < Product(sizes) && q < Product(sizes) && OffsetAt(p, sizes, strides) == OffsetAt(q, sizes, strides)
    ensures p == q
  {
    hide Nested, OffsetAt, Product, TupleAt;
    PositionOfTuple(p, sizes);
    PositionOfTuple(q, sizes);
    OffsetIsLinear(p, sizes, strides);
    OffsetIsLinear(q, sizes, strides);
    NestedInjective(TupleAt(p, sizes), TupleAt(q, sizes), sizes, strides);
  }

  function UpTo(n: nat): (r: set<int>)
    ensures |r| == n && forall x :: x in r <==> 0 <= x < n
  {
    if n == 0 then {} else UpTo(n - 1) + {n - 1}
  }

  // An index is reached exactly when some element is there.
  lemma ReachedIff(sizes: seq<int>, strides: seq<int>, l: int)
    requires |sizes| == |strides| && AllPositive(sizes)
    ensures l in Reached(sizes, strides, Product(sizes)) <==> !Unreached(sizes, strides, l)
  {
    hide OffsetAt, Product, TupleAt;
    if l in Reached(sizes, strides, Product(sizes)) {
      var p: nat :| p < Product(sizes) && OffsetAt(p, sizes, strides) == l;
      PositionOfTuple(p, sizes);
      OffsetIsLinear(p, sizes, strides);
    }
    if !Unreached(sizes, strides, l) {
      var t :| InRange(t, sizes) && Linear(t, strides) == l;
      PositionBound(t, sizes);
      OffsetOfTuple(t, sizes, strides);
    }
  }

  // A dense copy of a nested view is smaller than its span exactly when the span has an element that the
  // view does not reach.
  lemma SavesIff(sizes: seq<int>, strides: seq<int>, b: int)
    requires |sizes| == |strides| && AllPositive(sizes) && AllNatural(strides) && Nested(sizes, strides) && 1 <= b
    ensures Product(sizes) * b < (Last(sizes, strides) + 1) * b
       <==> exists l :: 0 <= l <= Last(sizes, strides) && Unreached(sizes, strides, l)
  {
    hide Nested, Product, Last, OffsetAt, Unreached;
    var n, last := Product(sizes), Last(sizes, strides);
    ProductPositive(sizes);
    LastNatural(sizes, strides);
    ReachedSize(sizes, strides, n);
    var some, all := Reached(sizes, strides, n), UpTo(last + 1);
    forall x | x in some
      ensures x in all
    {
      ReachedInside(sizes, strides, x);
    }
    if n < last + 1 {
      MulLe(n + 1, last + 1, b);
      Fewer(some, all);
      var l :| l in all && l !in some;
      ReachedIff(sizes, strides, l);
    } else {
      MulLe(last + 1, n, b);
      Smaller(some, all);
      forall l | 0 <= l <= last
        ensures !Unreached(sizes, strides, l)
      {
        ReachedIff(sizes, strides, l);
      }
    }
  }

  // So the rule asks for a dense copy exactly of a nested view that leaves part of its span alone.
  lemma ShouldPackIff(sizes: seq<int>, strides: seq<int>, b: int, bytes: int)
    requires |sizes| == |strides| && AllPositive(sizes) && AllNatural(strides) && 1 <= b
    requires bytes == (Last(sizes, strides) + 1) * b
    ensures ShouldPack(sizes, strides, b, bytes)
       <==> && |sizes| <= MAX_RANK && Nested(sizes, strides)
            && exists l :: 0 <= l <= Last(sizes, strides) && Unreached(sizes, strides, l)
  {
    hide Nested, Unreached, Product, Last;
    if Nested(sizes, strides) {
      SavesIff(sizes, strides, b);
    }
  }

  lemma ReachedInside(sizes: seq<int>, strides: seq<int>, x: int)
    requires |sizes| == |strides| && AllPositive(sizes) && AllNatural(strides)
    requires x in Reached(sizes, strides, Product(sizes))
    ensures 0 <= x <= Last(sizes, strides)
  {
    hide OffsetAt, Product, TupleAt;
    var p: nat :| p < Product(sizes) && OffsetAt(p, sizes, strides) == x;
    PositionOfTuple(p, sizes);
    OffsetIsLinear(p, sizes, strides);
    LinearBound(TupleAt(p, sizes), sizes, strides);
  }

  lemma Smaller(a: set<int>, b: set<int>)
    requires a <= b && |a| >= |b|
    ensures a == b
  {
    forall x | x in b
      ensures x in a
    {
      if x !in a {
        SubsetSize(a, b - {x});
      }
    }
  }

  lemma Fewer(a: set<int>, b: set<int>)
    requires |a| < |b|
    ensures exists x :: x in b && x !in a
  {
    if forall x :: x in b ==> x in a {
      SubsetSize(b, a);
    }
  }

  lemma SubsetSize(a: set<int>, b: set<int>)
    requires a <= b
    ensures |a| <= |b|
  {
    assert b == a + (b - a);
    assert |b| == |a| + |b - a|;
  }
}
