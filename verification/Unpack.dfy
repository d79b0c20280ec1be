// vx_view_copy_unpack: a descriptor that points into a dense copy, rewritten as
// the same elements in the layout of the view.
module Unpack {
  import opened Strided
  import opened Abi
  import opened Packing

  // `base` with t[j] * times[j] added to digit into[j], for each j that has one.
  function Spread(base: seq<int>, into: seq<int>, times: seq<int>, t: seq<int>): (r: seq<int>)
    requires |into| == |times| == |t|
    requires forall j :: 0 <= j < |into| ==> into[j] < |base|
    ensures |r| == |base|
  {
    if |t| == 0 then base
    else
      var n := |t| - 1;
      var r := Spread(base, into[..n], times[..n], t[..n]);
      if into[n] < 0 then r else r[into[n] := r[into[n]] + t[n] * times[n]]
  }

  // The stride of dimension j in the layout `strides`.
  function Through(into: seq<int>, times: seq<int>, strides: seq<int>): (r: seq<int>)
    requires |into| == |times| && forall j :: 0 <= j < |into| ==> into[j] < |strides|
    ensures |r| == |into|
  {
    seq(|into|, j requires 0 <= j < |into| => if into[j] < 0 then 0 else times[j] * strides[into[j]])
  }

  lemma {:induction false} SpreadLinear(base: seq<int>, into: seq<int>, times: seq<int>, t: seq<int>, strides: seq<int>)
    requires |into| == |times| == |t| && |base| == |strides|
    requires forall j :: 0 <= j < |into| ==> into[j] < |base|
    ensures Linear(Spread(base, into, times, t), strides) ==
            Linear(base, strides) + Linear(t, Through(into, times, strides))
  {
    if |t| > 0 {
      var n := |t| - 1;
      SpreadLinear(base, into[..n], times[..n], t[..n], strides);
      assert Through(into, times, strides)[..n] == Through(into[..n], times[..n], strides);
      if into[n] >= 0 {
        var r := Spread(base, into[..n], times[..n], t[..n]);
        LinearUpdate(r, strides, into[n], r[into[n]] + t[n] * times[n]);
        MulAssoc(t[n], times[n], strides[into[n]]);
      }
    }
  }

  // Digits grow with the tuple, so the last tuple bounds them all.
  lemma {:induction false} SpreadBound(idx: seq<int>, into: seq<int>, times: seq<int>, t: seq<int>, last: seq<int>,
                                       k: nat)
    requires |into| == |times| == |t| == |last| && k < |idx|
    requires forall j :: 0 <= j < |into| ==> into[j] < |idx|
    requires forall j :: 0 <= j < |t| && into[j] >= 0 ==> 0 <= t[j] <= last[j] && times[j] >= 0
    ensures idx[k] <= Spread(idx, into, times, t)[k] <= idx[k] + Spread(Zeros(|idx|), into, times, last)[k]
  {
    if |t| > 0 {
      var n := |t| - 1;
      SpreadBound(idx, into[..n], times[..n], t[..n], last[..n], k);
      if into[n] >= 0 {
        MulLe(t[n], last[n], times[n]);
        MulLe(0, t[n], times[n]);
      }
    }
  }

  // vx_view_copy_dense_stride.
  method DenseStride(sizes: seq<int>, d: nat) returns (stride: int)
    requires d < |sizes|
    ensures stride == DenseStrides(sizes)[d]
  {
    stride := 1;
    var k := |sizes| - 1;
    while k > d
      invariant d <= k < |sizes|
      invariant stride == Product(sizes[k + 1..])
    {
      ProductSplit(sizes, k);
      stride := stride * sizes[k];
      k := k - 1;
    }
  }

  method DivMod(a: int, b: int) returns (q: int, r: int)
    requires a >= 0 && b >= 1
    ensures a == q * b + r && 0 <= r < b && 0 <= q
  {
    q, r := a / b, a % b;
  }

  // The first loop: the digits of the offset, and what is left of it.
  method OffsetDigits(sizes: seq<int>, offset: int) returns (idx: seq<int>, rest: int)
    requires AllPositive(sizes) && offset >= 0
    ensures |idx| == |sizes| && AllNatural(idx)
    ensures Linear(idx, DenseStrides(sizes)) + rest == offset
    ensures 0 <= rest < (if |sizes| == 0 then offset + 1 else 1)
    ensures forall k :: 1 <= k < |sizes| ==> idx[k] < sizes[k]
  {
    hide Product;
    idx, rest := [], offset;
    var k := 0;
    while k < |sizes|
      invariant 0 <= k <= |sizes| && |idx| == k && AllNatural(idx)
      invariant Linear(idx, DenseStrides(sizes)[..k]) + rest == offset
      invariant 0 <= rest < (if k == 0 then offset + 1 else DenseStrides(sizes)[k - 1])
      invariant forall j :: 1 <= j < k ==> idx[j] < sizes[j]
    {
      var dense := DenseStride(sizes, k);
      ProductPositive(sizes[k + 1..]);
      var q, r := DivMod(rest, dense);
      if k > 0 {
        DigitFits(sizes, k, rest, q, r);
      }
      LinearAppend(idx, DenseStrides(sizes)[..k], q, dense);
      assert DenseStrides(sizes)[..k + 1] == DenseStrides(sizes)[..k] + [dense];
      idx, rest := idx + [q], r;
      k := k + 1;
    }
    assert DenseStrides(sizes)[..k] == DenseStrides(sizes);
    LastDenseStride(sizes);
  }

  lemma LastDenseStride(sizes: seq<int>)
    ensures |sizes| > 0 ==> DenseStrides(sizes)[|sizes| - 1] == 1
  {
    if |sizes| > 0 {
      assert sizes[|sizes|..] == [];
    }
  }

  // A rest below the dense stride before leaves a digit below its size.
  lemma DigitFits(sizes: seq<int>, k: nat, rest: int, q: int, r: int)
    requires AllPositive(sizes) && 1 <= k < |sizes| && rest < DenseStrides(sizes)[k - 1]
    requires rest == q * DenseStrides(sizes)[k] + r && r >= 0
    ensures q < sizes[k]
  {
    ProductSplit(sizes, k);
    ProductPositive(sizes[k + 1..]);
    QuotBelow(q, sizes[k], Product(sizes[k + 1..]), r);
  }

  // When the offset lies in the copy, its digits are the tuple at that position.
  lemma DigitsAreTuple(sizes: seq<int>, offset: nat, idx: seq<int>, rest: int)
    requires AllPositive(sizes) && |idx| == |sizes| && AllNatural(idx)
    requires Linear(idx, DenseStrides(sizes)) + rest == offset
    requires 0 <= rest < (if |sizes| == 0 then offset + 1 else 1)
    requires forall k :: 1 <= k < |sizes| ==> idx[k] < sizes[k]
    ensures rest == 0 && offset < Product(sizes) ==> idx == TupleAt(offset, sizes)
    ensures offset < Product(sizes) ==> rest == 0
    ensures InRange(idx, sizes) && rest == 0 ==> offset < Product(sizes)
  {
    DenseIsPosition(idx, sizes);
    if InRange(idx, sizes) {
      PositionBound(idx, sizes);
    }
    if rest == 0 && offset < Product(sizes) {
      if |sizes| > 0 {
        FirstDigit(idx, sizes);
      }
      TupleOfPosition(idx, sizes);
    }
  }

  lemma FirstDigit(idx: seq<int>, sizes: seq<int>)
    requires AllPositive(sizes) && |idx| == |sizes| && |sizes| > 0 && AllNatural(idx)
    requires Position(idx, sizes) < Product(sizes)
    ensures idx[0] < sizes[0]
  {
    PositionFirst(idx, sizes);
    ProductSplit(sizes, 0);
    assert sizes[0..] == sizes;
    ProductPositive(sizes[1..]);
    QuotBelow(idx[0], sizes[0], Product(sizes[1..]), Position(idx, sizes) - idx[0] * Product(sizes[1..]));
  }

  lemma {:induction false} PositionFirst(idx: seq<int>, sizes: seq<int>)
    requires AllPositive(sizes) && |idx| == |sizes| && |sizes| > 0 && AllNatural(idx)
    ensures Position(idx, sizes) >= idx[0] * Product(sizes[1..])
  {
    var n := |sizes| - 1;
    if n == 0 {
      assert sizes[1..] == [];
      assert Position(idx[..0], sizes[..0]) == 0;
    } else {
      PositionFirst(idx[..n], sizes[..n]);
      assert sizes[1..][..n - 1] == sizes[..n][1..];
      MulLe(idx[0] * Product(sizes[..n][1..]), Position(idx[..n], sizes[..n]), sizes[n]);
      MulAssoc(idx[0], Product(sizes[..n][1..]), sizes[n]);
    }
  }

  lemma LinearAppend(i: seq<int>, t: seq<int>, x: int, s: int)
    requires |i| == |t|
    ensures Linear(i + [x], t + [s]) == Linear(i, t) + x * s
  {
    assert (i + [x])[..|i|] == i && (t + [s])[..|t|] == t;
  }

  // A stride steps through dimension k when k has more than one element and its
  // dense stride divides the stride.
  predicate Steps(vsizes: seq<int>, stride: int, k: nat)
    requires AllPositive(vsizes) && k < |vsizes|
  {
    vsizes[k] > 1 && stride > 0 && DenseStrides(vsizes)[k] >= 1 && Rem(stride, DenseStrides(vsizes)[k]) == 0
  }

  // The first dimension from `k` on that a stride steps through, or -1.
  function DimOf(vsizes: seq<int>, stride: int, k: nat): (d: int)
    requires AllPositive(vsizes) && k <= |vsizes|
    ensures d == -1 || (k <= d < |vsizes| && Steps(vsizes, stride, d))
    ensures forall j :: k <= j < |vsizes| && (d == -1 || j < d) ==> !Steps(vsizes, stride, j)
    decreases |vsizes| - k
  {
    if k == |vsizes| then -1 else if Steps(vsizes, stride, k) then k else DimOf(vsizes, stride, k + 1)
  }

  function IntoOf(vsizes: seq<int>, sizes: seq<int>, strides: seq<int>): (into: seq<int>)
    requires AllPositive(vsizes) && |sizes| == |strides|
    ensures |into| == |sizes| && forall j :: 0 <= j < |into| ==> into[j] < |vsizes|
  {
    seq(|sizes|, j requires 0 <= j < |sizes| => if sizes[j] <= 1 then -1 else DimOf(vsizes, strides[j], 0))
  }

  // How many elements of dimension k one step of the stride takes.
  function TimesAt(vsizes: seq<int>, stride: int, k: int): int
    requires AllPositive(vsizes) && k < |vsizes|
  {
    if k < 0 || !Steps(vsizes, stride, k) then 0 else Quot(stride, DenseStrides(vsizes)[k])
  }

  function TimesOf(vsizes: seq<int>, strides: seq<int>, into: seq<int>): (times: seq<int>)
    requires AllPositive(vsizes) && |into| == |strides| && forall j :: 0 <= j < |into| ==> into[j] < |vsizes|
    ensures |times| == |into|
  {
    seq(|into|, j requires 0 <= j < |into| => TimesAt(vsizes, strides[j], into[j]))
  }

  // Whether a descriptor has an exact layout in the view: its offset is an
  // element of the copy, every dimension steps through one of the view, and no
  // digit reaches past its dimension.
  predicate Accepts(vsizes: seq<int>, sizes: seq<int>, offset: int, strides: seq<int>)
    requires AllPositive(vsizes) && |sizes| == |strides|
  {
    var into := IntoOf(vsizes, sizes, strides);
    && 0 <= offset < Product(vsizes) && |sizes| <= MAX_RANK
    && (forall j :: 0 <= j < |sizes| && sizes[j] > 1 ==> into[j] >= 0)
    && var reach := Spread(Zeros(|vsizes|), into, TimesOf(vsizes, strides, into), LastTuple(sizes));
       forall k :: 0 <= k < |vsizes| ==> TupleAt(offset, vsizes)[k] + reach[k] < vsizes[k]
  }

  method TestDim(vsizes: seq<int>, stride: int, k: nat) returns (steps: bool, times: int)
    requires AllPositive(vsizes) && k < |vsizes|
    ensures steps <==> Steps(vsizes, stride, k)
    ensures times == TimesAt(vsizes, stride, k)
  {
    var dense := DenseStride(vsizes, k);
    ProductPositive(vsizes[k + 1..]);
    steps, times := false, 0;
    if vsizes[k] > 1 && stride > 0 {
      var q, r := DivMod(stride, dense);
      DigitSplit(stride, q, r, dense);
      if r == 0 {
        steps, times := true, q;
      }
    }
  }

  // The inner loop: the first dimension of more than one element whose dense
  // stride divides the stride.
  method FindDim(vsizes: seq<int>, stride: int) returns (into: int, times: int)
    requires AllPositive(vsizes)
    ensures into == DimOf(vsizes, stride, 0)
    ensures times == TimesAt(vsizes, stride, into)
  {
    hide TimesAt, Steps;
    var k := 0;
    while k < |vsizes|
      invariant 0 <= k <= |vsizes|
      invariant DimOf(vsizes, stride, k) == DimOf(vsizes, stride, 0)
    {
      var steps, q := TestDim(vsizes, stride, k);
      if steps {
        return k, q;
      }
      k := k + 1;
    }
    NoTimes(vsizes, stride);
    return -1, 0;
  }

  lemma NoTimes(vsizes: seq<int>, stride: int)
    requires AllPositive(vsizes)
    ensures TimesAt(vsizes, stride, -1) == 0
  {}

  // Dimension j of the descriptor steps times[j] elements at a time through
  // dimension into[j] of the view, or does not step at all.
  ghost predicate StepsThrough(vsizes: seq<int>, sizes: seq<int>, strides: seq<int>, into: seq<int>, times: seq<int>)
    requires |sizes| == |strides|
  {
    |into| == |times| == |sizes| && forall j :: 0 <= j < |sizes| ==>
      && -1 <= into[j] < |vsizes|
      && (into[j] < 0 ==> sizes[j] <= 1)
      && (into[j] >= 0 ==> sizes[j] > 1 && times[j] >= 1 && strides[j] == times[j] * DenseStrides(vsizes)[into[j]])
  }

  lemma IntoSteps(vsizes: seq<int>, sizes: seq<int>, strides: seq<int>, into: seq<int>, times: seq<int>)
    requires AllPositive(vsizes) && |sizes| == |strides| && into == IntoOf(vsizes, sizes, strides)
    requires forall j :: 0 <= j < |sizes| && sizes[j] > 1 ==> into[j] >= 0
    requires times == TimesOf(vsizes, strides, into)
    ensures StepsThrough(vsizes, sizes, strides, into, times)
  {
    forall j | 0 <= j < |sizes| && into[j] >= 0
      ensures times[j] >= 1 && strides[j] == times[j] * DenseStrides(vsizes)[into[j]]
    {
      assert Steps(vsizes, strides[j], into[j]);
      QuotRem(strides[j], DenseStrides(vsizes)[into[j]]);
    }
  }

  // The second loop: the dimension of each stride, and how far the descriptor
  // reaches in each dimension of the view.
  method FindDims(vsizes: seq<int>, sizes: seq<int>, strides: seq<int>)
    returns (ok: bool, into: seq<int>, times: seq<int>, reach: seq<int>)
    requires AllPositive(vsizes) && |sizes| == |strides|
    ensures ok <==> forall j :: 0 <= j < |sizes| && sizes[j] > 1 ==> IntoOf(vsizes, sizes, strides)[j] >= 0
    ensures ok ==> into == IntoOf(vsizes, sizes, strides) && times == TimesOf(vsizes, strides, into)
    ensures ok ==> reach == Spread(Zeros(|vsizes|), into, times, LastTuple(sizes))
  {
    hide TimesAt, Steps, DimOf, Spread, AddReach;
    into, times, reach := [], [], Zeros(|vsizes|);
    SpreadNone(reach);
    ghost var all := IntoOf(vsizes, sizes, strides);
    var j := 0;
    while j < |sizes|
      invariant 0 <= j <= |sizes|
      invariant into == all[..j] && times == TimesOf(vsizes, strides, all)[..j]
      invariant forall i :: 0 <= i < j && sizes[i] > 1 ==> all[i] >= 0
      invariant reach == Spread(Zeros(|vsizes|), into, times, LastTuple(sizes)[..j])
    {
      var k, q := -1, 0;
      NoTimes(vsizes, strides[j]);
      if sizes[j] > 1 {
        k, q := FindDim(vsizes, strides[j]);
        if k < 0 {
          return false, into, times, reach;
        }
      }
      SpreadAppend(Zeros(|vsizes|), into, times, LastTuple(sizes)[..j], k, q, sizes[j] - 1);
      reach := AddReach(reach, k, (sizes[j] - 1) * q);
      assert LastTuple(sizes)[..j + 1] == LastTuple(sizes)[..j] + [sizes[j] - 1];
      into, times := into + [k], times + [q];
      j := j + 1;
    }
    assert LastTuple(sizes)[..j] == LastTuple(sizes) && all[..j] == all;
    assert TimesOf(vsizes, strides, all)[..j] == TimesOf(vsizes, strides, all);
    ok := true;
  }

  lemma SpreadNone(base: seq<int>)
    ensures Spread(base, [], [], []) == base
  {}

  function AddReach(r: seq<int>, k: int, x: int): seq<int>
    requires k < |r|
  {
    if k < 0 then r else r[k := r[k] + x]
  }

  lemma SpreadAppend(base: seq<int>, into: seq<int>, times: seq<int>, t: seq<int>, k: int, q: int, x: int)
    requires |into| == |times| == |t| && k < |base|
    requires forall j :: 0 <= j < |into| ==> into[j] < |base|
    ensures Spread(base, into + [k], times + [q], t + [x]) == AddReach(Spread(base, into, times, t), k, x * q)
  {
    var into', times', t' := into + [k], times + [q], t + [x];
    assert into'[..|into|] == into && times'[..|into|] == times && t'[..|into|] == t;
    assert t'[|into|] * times'[|into|] == x * q;
  }

  // The third loop: does the descriptor stay inside every dimension of the view?
  method CheckReach(vsizes: seq<int>, vstrides: seq<int>, idx: seq<int>, reach: seq<int>, offset: int)
    returns (ok: bool, out: int)
    requires |vsizes| == |vstrides| == |idx| == |reach|
    ensures ok <==> forall k :: 0 <= k < |vsizes| ==> idx[k] + reach[k] < (if vsizes[k] > 0 then vsizes[k] else 1)
    ensures ok ==> out == offset + Linear(idx, vstrides)
  {
    out := offset;
    var k := 0;
    while k < |vsizes|
      invariant 0 <= k <= |vsizes|
      invariant forall j :: 0 <= j < k ==> idx[j] + reach[j] < (if vsizes[j] > 0 then vsizes[j] else 1)
      invariant out == offset + Linear(idx[..k], vstrides[..k])
    {
      if idx[k] + reach[k] >= (if vsizes[k] > 0 then vsizes[k] else 1) {
        return false, out;
      }
      assert idx[..k + 1][..k] == idx[..k] && vstrides[..k + 1][..k] == vstrides[..k];
      out := out + idx[k] * vstrides[k];
      k := k + 1;
    }
    assert idx[..k] == idx && vstrides[..k] == vstrides;
    ok := true;
  }

  // A rewritten descriptor is exact when every in-range tuple of it names, in
  // the view's layout, the element it named in the dense copy.
  ghost predicate SameElements(vsizes: seq<int>, vstrides: seq<int>, voffset: int, sizes: seq<int>, offset: int,
                               strides: seq<int>, offset': int, strides': seq<int>)
    requires |vsizes| == |vstrides| && AllPositive(vsizes) && |sizes| == |strides| == |strides'|
  {
    forall t :: InRange(t, sizes) ==>
      && 0 <= offset + Linear(t, strides) < Product(vsizes)
      && offset' + Linear(t, strides') == voffset + OffsetAt(offset + Linear(t, strides), vsizes, vstrides)
  }

  lemma {:induction false} LinearSame(t: seq<int>, a: seq<int>, b: seq<int>)
    requires |t| == |a| == |b| && forall j :: 0 <= j < |t| ==> t[j] == 0 || a[j] == b[j]
    ensures Linear(t, a) == Linear(t, b)
  {
    if |t| > 0 {
      LinearSame(t[..|t| - 1], a[..|t| - 1], b[..|t| - 1]);
    }
  }

  // What the loops found about a descriptor that was accepted.
  ghost predicate Found(vsizes: seq<int>, sizes: seq<int>, strides: seq<int>, offset: int, idx: seq<int>,
                        into: seq<int>, times: seq<int>)
    requires AllPositive(vsizes) && |sizes| == |strides|
  {
    && |idx| == |vsizes| && AllNatural(idx) && Linear(idx, DenseStrides(vsizes)) == offset
    && StepsThrough(vsizes, sizes, strides, into, times)
    && forall k :: 0 <= k < |vsizes| ==> idx[k] + Spread(Zeros(|vsizes|), into, times, LastTuple(sizes))[k] < vsizes[k]
  }

  // No carry: the digits of the element a tuple names are the digits of the
  // offset plus its steps, each below its size.
  lemma DigitsInRange(vsizes: seq<int>, sizes: seq<int>, strides: seq<int>, offset: int, idx: seq<int>, into: seq<int>,
                      times: seq<int>, t: seq<int>)
    requires AllPositive(vsizes) && |sizes| == |strides| && Found(vsizes, sizes, strides, offset, idx, into, times)
    requires InRange(t, sizes)
    ensures InRange(Spread(idx, into, times, t), vsizes)
    ensures Position(Spread(idx, into, times, t), vsizes) == offset + Linear(t, strides)
  {
    var digits := Spread(idx, into, times, t);
    forall k | 0 <= k < |vsizes|
      ensures 0 <= digits[k] < vsizes[k]
    {
      SpreadBound(idx, into, times, t, LastTuple(sizes), k);
    }
    var dense := DenseStrides(vsizes);
    SpreadLinear(idx, into, times, t, dense);
    LinearSame(t, Through(into, times, dense), strides);
    DenseIsPosition(digits, vsizes);
  }

  lemma UnpackTuple(vsizes: seq<int>, vstrides: seq<int>, sizes: seq<int>, strides: seq<int>, offset: int,
                    idx: seq<int>, into: seq<int>, times: seq<int>, t: seq<int>)
    requires |vsizes| == |vstrides| && AllPositive(vsizes) && |sizes| == |strides|
    requires Found(vsizes, sizes, strides, offset, idx, into, times) && InRange(t, sizes)
    ensures 0 <= offset + Linear(t, strides) < Product(vsizes)
    ensures Linear(idx, vstrides) + Linear(t, Through(into, times, vstrides)) ==
            OffsetAt(offset + Linear(t, strides), vsizes, vstrides)
  {
    var digits := Spread(idx, into, times, t);
    DigitsInRange(vsizes, sizes, strides, offset, idx, into, times, t);
    PositionBound(digits, vsizes);
    OffsetOfTuple(digits, vsizes, vstrides);
    SpreadLinear(idx, into, times, t, vstrides);
  }

  lemma UnpackExact(vsizes: seq<int>, vstrides: seq<int>, voffset: int, sizes: seq<int>, strides: seq<int>, offset: int,
                    idx: seq<int>, into: seq<int>, times: seq<int>, offset': int, strides': seq<int>)
    requires |vsizes| == |vstrides| && AllPositive(vsizes) && |sizes| == |strides|
    requires Found(vsizes, sizes, strides, offset, idx, into, times)
    requires offset' == voffset + Linear(idx, vstrides) && strides' == Through(into, times, vstrides)
    ensures SameElements(vsizes, vstrides, voffset, sizes, offset, strides, offset', strides')
  {
    forall t | InRange(t, sizes)
      ensures 0 <= offset + Linear(t, strides) < Product(vsizes)
      ensures offset' + Linear(t, strides') == voffset + OffsetAt(offset + Linear(t, strides), vsizes, vstrides)
    {
      UnpackTuple(vsizes, vstrides, sizes, strides, offset, idx, into, times, t);
    }
  }

  // ---- Which descriptors are parts of the view ----

  // How far the dimensions that step through dimension `k` reach in it.
  function StepSum(sizes: seq<int>, into: seq<int>, times: seq<int>, k: int): int
    requires |into| == |times| == |sizes|
  {
    if |sizes| == 0 then 0
    else
      var n := |sizes| - 1;
      StepSum(sizes[..n], into[..n], times[..n], k)
      + if sizes[n] > 1 && into[n] == k then (sizes[n] - 1) * times[n] else 0
  }

  // The descriptor starts at the tuple `lo` of the view. Its dimension `j` takes every times[j]-th
  // element of dimension into[j], and nothing goes past the end of a dimension.
  ghost predicate IsPart(vsizes: seq<int>, sizes: seq<int>, offset: int, strides: seq<int>, lo: seq<int>,
                         into: seq<int>, times: seq<int>)
    requires |sizes| == |strides|
  {
    && |lo| == |vsizes| && AllNatural(lo) && offset == Position(lo, vsizes) && |into| == |times| == |sizes|
    && (forall j :: 0 <= j < |sizes| && sizes[j] > 1 ==>
          && 0 <= into[j] < |vsizes| && times[j] >= 1
          && strides[j] == times[j] * DenseStrides(vsizes)[into[j]])
    && (forall k :: 0 <= k < |vsizes| ==> lo[k] + StepSum(sizes, into, times, k) < vsizes[k])
  }

  // The part in the view's own layout.
  ghost predicate InLayout(vstrides: seq<int>, voffset: int, sizes: seq<int>, lo: seq<int>, into: seq<int>,
                           times: seq<int>, offset': int, strides': seq<int>) {
    && |lo| == |vstrides| && offset' == voffset + Linear(lo, vstrides) && |strides'| == |into| == |times| == |sizes|
    && forall j :: 0 <= j < |sizes| ==>
         if sizes[j] > 1 then 0 <= into[j] < |vstrides| && strides'[j] == times[j] * vstrides[into[j]]
         else strides'[j] == 0
  }

  lemma {:induction false} SpreadIsSum(n: nat, sizes: seq<int>, into: seq<int>, times: seq<int>, k: nat)
    requires |into| == |times| == |sizes| && k < n
    requires forall j :: 0 <= j < |into| ==> into[j] < n && (into[j] >= 0 <==> sizes[j] > 1)
    ensures Spread(Zeros(n), into, times, LastTuple(sizes))[k] == StepSum(sizes, into, times, k)
  {
    if |sizes| > 0 {
      var m := |sizes| - 1;
      SpreadIsSum(n, sizes[..m], into[..m], times[..m], k);
      assert LastTuple(sizes)[..m] == LastTuple(sizes[..m]);
    }
  }

  lemma {:induction false} StepSumNatural(sizes: seq<int>, into: seq<int>, times: seq<int>, k: int)
    requires |into| == |times| == |sizes| && forall j :: 0 <= j < |sizes| && sizes[j] > 1 ==> times[j] >= 1
    ensures StepSum(sizes, into, times, k) >= 0
    ensures forall j :: 0 <= j < |sizes| && sizes[j] > 1 && into[j] == k ==> StepSum(sizes, into, times, k) >= times[j]
  {
    if |sizes| > 0 {
      var n := |sizes| - 1;
      StepSumNatural(sizes[..n], into[..n], times[..n], k);
      if sizes[n] > 1 {
        MulLe(1, sizes[n] - 1, times[n]);
      }
      forall j | 0 <= j < |sizes| && sizes[j] > 1 && into[j] == k
        ensures StepSum(sizes, into, times, k) >= times[j]
      {
        if j < n {
          assert sizes[..n][j] == sizes[j] && into[..n][j] == into[j] && times[..n][j] == times[j];
        }
      }
    }
  }

  // A stride of fewer steps than dimension `k` has elements goes through `k` and through none before.
  lemma OnlyDimension(vsizes: seq<int>, stride: int, k: nat, times: int)
    requires AllPositive(vsizes) && k < |vsizes| && 1 <= times < vsizes[k]
    requires stride == times * DenseStrides(vsizes)[k]
    ensures DimOf(vsizes, stride, 0) == k && TimesAt(vsizes, stride, k) == times
  {
    var dense := DenseStrides(vsizes)[k];
    ProductPositive(vsizes[k + 1..]);
    MulLe(1, times, dense);
    DigitSplit(stride, times, 0, dense);
    assert Steps(vsizes, stride, k);
    var d := DimOf(vsizes, stride, 0);
    if d < k {
      DenseStrideStep(vsizes, d, k);
      MulLe(times + 1, vsizes[k], dense);
      RemSmall(stride, DenseStrides(vsizes)[d]);
    }
  }

  lemma RemSmall(p: nat, s: int)
    requires 0 < p < s
    ensures Rem(p, s) != 0
  {}

  lemma PartDims(vsizes: seq<int>, sizes: seq<int>, offset: int, strides: seq<int>, lo: seq<int>, into: seq<int>,
                 times: seq<int>, j: nat)
    requires AllPositive(vsizes) && |sizes| == |strides| && IsPart(vsizes, sizes, offset, strides, lo, into, times)
    requires j < |sizes| && sizes[j] > 1
    ensures DimOf(vsizes, strides[j], 0) == into[j] && TimesAt(vsizes, strides[j], into[j]) == times[j]
  {
    hide DimOf, TimesAt, StepSum, DenseStrides;
    StepSumNatural(sizes, into, times, into[j]);
    OnlyDimension(vsizes, strides[j], into[j], times[j]);
  }

  // What is found for a part is the part.
  lemma PartFound(vsizes: seq<int>, sizes: seq<int>, offset: int, strides: seq<int>, lo: seq<int>, into: seq<int>,
                  times: seq<int>, k: nat)
    requires AllPositive(vsizes) && |sizes| == |strides| && IsPart(vsizes, sizes, offset, strides, lo, into, times)
    requires k < |vsizes|
    ensures var into' := IntoOf(vsizes, sizes, strides);
            Spread(Zeros(|vsizes|), into', TimesOf(vsizes, strides, into'), LastTuple(sizes))[k]
            == StepSum(sizes, into, times, k)
  {
    hide DimOf, TimesAt, StepSum, Spread, DenseStrides;
    var into' := IntoOf(vsizes, sizes, strides);
    var times' := TimesOf(vsizes, strides, into');
    forall j | 0 <= j < |sizes|
      ensures (into'[j] >= 0 <==> sizes[j] > 1) && (sizes[j] > 1 ==> into'[j] == into[j] && times'[j] == times[j])
    {
      if sizes[j] > 1 {
        PartDims(vsizes, sizes, offset, strides, lo, into, times, j);
      }
    }
    SpreadIsSum(|vsizes|, sizes, into', times', k);
    SameSum(sizes, into', times', into, times, k);
  }

  lemma {:induction false} SameSum(sizes: seq<int>, into: seq<int>, times: seq<int>, into': seq<int>, times': seq<int>,
                                   k: int)
    requires |into| == |times| == |into'| == |times'| == |sizes|
    requires forall j :: 0 <= j < |sizes| && sizes[j] > 1 ==> into[j] == into'[j] && times[j] == times'[j]
    ensures StepSum(sizes, into, times, k) == StepSum(sizes, into', times', k)
  {
    if |sizes| > 0 {
      var n := |sizes| - 1;
      SameSum(sizes[..n], into[..n], times[..n], into'[..n], times'[..n], k);
    }
  }

  lemma PartInRange(vsizes: seq<int>, sizes: seq<int>, offset: int, strides: seq<int>, lo: seq<int>, into: seq<int>,
                    times: seq<int>)
    requires AllPositive(vsizes) && |sizes| == |strides| && IsPart(vsizes, sizes, offset, strides, lo, into, times)
    ensures InRange(lo, vsizes)
  {
    hide StepSum;
    forall k | 0 <= k < |vsizes|
      ensures 0 <= lo[k] < vsizes[k]
    {
      StepSumNatural(sizes, into, times, k);
    }
  }

  lemma PartAccepted(vsizes: seq<int>, sizes: seq<int>, offset: int, strides: seq<int>, lo: seq<int>, into: seq<int>,
                     times: seq<int>)
    requires AllPositive(vsizes) && |sizes| == |strides| && IsPart(vsizes, sizes, offset, strides, lo, into, times)
    requires |sizes| <= MAX_RANK
    ensures Accepts(vsizes, sizes, offset, strides)
  {
    hide DimOf, TimesAt, StepSum, Spread, DenseStrides, Product, TupleAt, Position;
    PartInRange(vsizes, sizes, offset, strides, lo, into, times);
    PositionBound(lo, vsizes);
    TupleOfPosition(lo, vsizes);
    forall j | 0 <= j < |sizes| && sizes[j] > 1
      ensures IntoOf(vsizes, sizes, strides)[j] >= 0
    {
      PartDims(vsizes, sizes, offset, strides, lo, into, times, j);
    }
    forall k | 0 <= k < |vsizes|
      ensures var into' := IntoOf(vsizes, sizes, strides);
              var reach := Spread(Zeros(|vsizes|), into', TimesOf(vsizes, strides, into'), LastTuple(sizes));
              TupleAt(offset, vsizes)[k] + reach[k] < vsizes[k]
    {
      PartFound(vsizes, sizes, offset, strides, lo, into, times, k);
    }
  }

  lemma AcceptedIsPart(vsizes: seq<int>, sizes: seq<int>, offset: int, strides: seq<int>)
    requires AllPositive(vsizes) && |sizes| == |strides| && Accepts(vsizes, sizes, offset, strides)
    ensures var into := IntoOf(vsizes, sizes, strides);
            IsPart(vsizes, sizes, offset, strides, TupleAt(offset, vsizes), into, TimesOf(vsizes, strides, into))
  {
    hide DimOf, TimesAt, StepSum, Spread, DenseStrides, Product, TupleAt, Position;
    var into := IntoOf(vsizes, sizes, strides);
    var times := TimesOf(vsizes, strides, into);
    IntoSteps(vsizes, sizes, strides, into, times);
    PositionOfTuple(offset, vsizes);
    forall k | 0 <= k < |vsizes|
      ensures TupleAt(offset, vsizes)[k] + StepSum(sizes, into, times, k) < vsizes[k]
    {
      SpreadIsSum(|vsizes|, sizes, into, times, k);
    }
  }

  // A descriptor of any rank that the runtime holds is accepted exactly when it is a part of the view.
  lemma AcceptsIff(vsizes: seq<int>, sizes: seq<int>, offset: int, strides: seq<int>)
    requires AllPositive(vsizes) && |sizes| == |strides|
    ensures Accepts(vsizes, sizes, offset, strides)
       <==> |sizes| <= MAX_RANK && exists lo, into, times :: IsPart(vsizes, sizes, offset, strides, lo, into, times)
  {
    hide IsPart;
    if Accepts(vsizes, sizes, offset, strides) {
      AcceptedIsPart(vsizes, sizes, offset, strides);
    }
    if |sizes| <= MAX_RANK && exists lo, into, times :: IsPart(vsizes, sizes, offset, strides, lo, into, times) {
      var lo, into, times :| IsPart(vsizes, sizes, offset, strides, lo, into, times);
      PartAccepted(vsizes, sizes, offset, strides, lo, into, times);
    }
  }

  // vx_view_copy_unpack.
  method UnpackDesc(vsizes: seq<int>, vstrides: seq<int>, voffset: int, sizes: seq<int>, offset: int, strides: seq<int>)
    returns (ok: bool, offset': int, strides': seq<int>)
    requires |vsizes| == |vstrides| && AllPositive(vsizes) && |sizes| == |strides|
    ensures ok <==> Accepts(vsizes, sizes, offset, strides)
    ensures ok <==> |sizes| <= MAX_RANK && exists lo, into, times ::
                      IsPart(vsizes, sizes, offset, strides, lo, into, times)
    ensures ok ==> exists lo, into, times ::
              && IsPart(vsizes, sizes, offset, strides, lo, into, times)
              && InLayout(vstrides, voffset, sizes, lo, into, times, offset', strides')
    ensures ok ==> |strides'| == |strides|
    ensures ok ==> SameElements(vsizes, vstrides, voffset, sizes, offset, strides, offset', strides')
  {
    hide IsPart, InLayout, Spread, DenseStrides, Linear, TupleAt, DimOf, TimesAt, SameElements;
    AcceptsIff(vsizes, sizes, offset, strides);
    ok, offset', strides' := false, offset, strides;
    if offset < 0 || |sizes| > MAX_RANK {
      return;
    }
    var idx, rest := OffsetDigits(vsizes, offset);
    DigitsAreTuple(vsizes, offset, idx, rest);
    if rest != 0 {
      return;
    }
    var found, into, times, reach := FindDims(vsizes, sizes, strides);
    if !found {
      return;
    }
    IntoSteps(vsizes, sizes, strides, into, times);
    ReachNatural(vsizes, sizes, strides, into, times);
    var inside, out := CheckReach(vsizes, vstrides, idx, reach, voffset);
    if !inside {
      NotInside(vsizes, sizes, offset, strides, idx, reach);
      return;
    }
    assert InRange(idx, vsizes);
    ok, offset', strides' := true, out, Through(into, times, vstrides);
    UnpackExact(vsizes, vstrides, voffset, sizes, strides, offset, idx, into, times, offset', strides');
    PartInLayout(vsizes, vstrides, voffset, sizes, strides, offset, idx, into, times, offset', strides');
  }

  lemma PartInLayout(vsizes: seq<int>, vstrides: seq<int>, voffset: int, sizes: seq<int>, strides: seq<int>,
                     offset: int,
                     idx: seq<int>, into: seq<int>, times: seq<int>, offset': int, strides': seq<int>)
    requires |vsizes| == |vstrides| && AllPositive(vsizes) && |sizes| == |strides|
    requires Accepts(vsizes, sizes, offset, strides) && idx == TupleAt(offset, vsizes)
    requires into == IntoOf(vsizes, sizes, strides) && times == TimesOf(vsizes, strides, into)
    requires offset' == voffset + Linear(idx, vstrides) && strides' == Through(into, times, vstrides)
    ensures IsPart(vsizes, sizes, offset, strides, idx, into, times)
    ensures InLayout(vstrides, voffset, sizes, idx, into, times, offset', strides')
  {
    hide IsPart, TimesAt, DimOf, Spread, TupleAt;
    AcceptedIsPart(vsizes, sizes, offset, strides);
  }

  lemma ReachNatural(vsizes: seq<int>, sizes: seq<int>, strides: seq<int>, into: seq<int>, times: seq<int>)
    requires AllPositive(vsizes) && |sizes| == |strides| && StepsThrough(vsizes, sizes, strides, into, times)
    ensures AllNatural(Spread(Zeros(|vsizes|), into, times, LastTuple(sizes)))
  {
    forall k | 0 <= k < |vsizes|
      ensures Spread(Zeros(|vsizes|), into, times, LastTuple(sizes))[k] >= 0
    {
      SpreadBound(Zeros(|vsizes|), into, times, LastTuple(sizes), LastTuple(sizes), k);
    }
  }

  lemma NotInside(vsizes: seq<int>, sizes: seq<int>, offset: int, strides: seq<int>, idx: seq<int>, reach: seq<int>)
    requires AllPositive(vsizes) && |sizes| == |strides| && |idx| == |reach| == |vsizes|
    requires 0 <= offset < Product(vsizes) ==> idx == TupleAt(offset, vsizes)
    requires var into := IntoOf(vsizes, sizes, strides);
             reach == Spread(Zeros(|vsizes|), into, TimesOf(vsizes, strides, into), LastTuple(sizes))
    requires exists k :: 0 <= k < |vsizes| && idx[k] + reach[k] >= vsizes[k]
    ensures !Accepts(vsizes, sizes, offset, strides)
  {}

  // ---- Every box of the view is accepted ----

  lemma DenseStrideShrinks(vsizes: seq<int>, k: nat, j: nat)
    requires AllPositive(vsizes) && k < j < |vsizes| && vsizes[j] > 1
    ensures DenseStrides(vsizes)[k] > DenseStrides(vsizes)[j] >= 1
  {
    DenseStrideStep(vsizes, k, j);
    ProductPositive(vsizes[j + 1..]);
    MulLe(2, vsizes[j], Product(vsizes[j + 1..]));
  }

  // The dense stride of a dimension of more than one element steps through it.
  lemma OwnDimension(vsizes: seq<int>, j: nat)
    requires AllPositive(vsizes) && j < |vsizes| && vsizes[j] > 1
    ensures DimOf(vsizes, DenseStrides(vsizes)[j], 0) == j && TimesAt(vsizes, DenseStrides(vsizes)[j], j) == 1
  {
    var stride := DenseStrides(vsizes)[j];
    ProductPositive(vsizes[j + 1..]);
    DigitSplit(stride, 1, 0, stride);
    assert Steps(vsizes, stride, j);
    var d := DimOf(vsizes, stride, 0);
    if d < j {
      DenseStrideShrinks(vsizes, d, j);
    }
  }

  lemma {:induction false} SpreadDiagonal(n: nat, into: seq<int>, times: seq<int>, t: seq<int>, k: nat)
    requires |into| == |times| == |t| <= n && k < n
    requires forall j :: 0 <= j < |into| ==> into[j] == -1 || into[j] == j
    ensures Spread(Zeros(n), into, times, t)[k] == if k < |into| && into[k] >= 0 then t[k] * times[k] else 0
  {
    if |t| > 0 {
      var m := |t| - 1;
      SpreadDiagonal(n, into[..m], times[..m], t[..m], k);
    }
  }

  ghost predicate IsBox(vsizes: seq<int>, lo: seq<int>, sizes: seq<int>) {
    && AllPositive(vsizes) && |lo| == |sizes| == |vsizes|
    && forall k :: 0 <= k < |vsizes| ==> 0 <= lo[k] && 1 <= sizes[k] && lo[k] + sizes[k] <= vsizes[k]
  }

  lemma BoxDimension(vsizes: seq<int>, lo: seq<int>, sizes: seq<int>, j: nat)
    requires IsBox(vsizes, lo, sizes) && j < |sizes|
    ensures IntoOf(vsizes, sizes, DenseStrides(vsizes))[j] == if sizes[j] > 1 then j else -1
    ensures sizes[j] > 1 ==> TimesAt(vsizes, DenseStrides(vsizes)[j], j) == 1
  {
    if sizes[j] > 1 {
      OwnDimension(vsizes, j);
    }
  }

  lemma BoxReach(vsizes: seq<int>, lo: seq<int>, sizes: seq<int>, into: seq<int>, times: seq<int>, k: nat)
    requires IsBox(vsizes, lo, sizes) && k < |vsizes| && |into| == |times| == |sizes|
    requires forall j :: 0 <= j < |sizes| ==> into[j] == if sizes[j] > 1 then j else -1
    requires forall j :: 0 <= j < |sizes| && sizes[j] > 1 ==> times[j] == 1
    ensures lo[k] + Spread(Zeros(|vsizes|), into, times, LastTuple(sizes))[k] < vsizes[k]
  {
    hide Spread;
    SpreadDiagonal(|vsizes|, into, times, LastTuple(sizes), k);
  }

  // A box of the view is a descriptor with the view's strides, some offset and
  // smaller sizes: a row, a column, or the whole view.
  lemma BoxAccepted(vsizes: seq<int>, lo: seq<int>, sizes: seq<int>)
    requires IsBox(vsizes, lo, sizes) && |vsizes| <= MAX_RANK
    ensures Accepts(vsizes, sizes, Position(lo, vsizes), DenseStrides(vsizes))
  {
    hide Steps, DimOf, TimesAt, Spread, Product, TupleAt, Position;
    var strides := DenseStrides(vsizes);
    PositionBound(lo, vsizes);
    TupleOfPosition(lo, vsizes);
    var into := IntoOf(vsizes, sizes, strides);
    var times := TimesOf(vsizes, strides, into);
    forall j | 0 <= j < |sizes|
      ensures into[j] == (if sizes[j] > 1 then j else -1) && (sizes[j] > 1 ==> times[j] == 1)
    {
      BoxDimension(vsizes, lo, sizes, j);
    }
    forall k | 0 <= k < |vsizes|
      ensures lo[k] + Spread(Zeros(|vsizes|), into, times, LastTuple(sizes))[k] < vsizes[k]
    {
      BoxReach(vsizes, lo, sizes, into, times, k);
    }
  }
}
