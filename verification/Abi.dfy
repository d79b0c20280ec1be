// The ABI facts every part of the runtime shares: element sizes, argument tags,
// and the exact span of a strided view with its overflow verdicts.
module Abi {
  import opened Strided

  const TWO_63: int := 0x8000_0000_0000_0000
  const TWO_64: int := 0x1_0000_0000_0000_0000
  const MAX_RANK: int := 8

  type Byte = b: int | 0 <= b < 256

  function DtypeBytes(code: int): (b: int)
    ensures 0 <= b <= 8
  {
    if code == 1 || code == 2 then 1
    else if code == 3 || code == 8 || code == 9 then 2
    else if code == 4 || code == 6 then 4
    else if code == 5 || code == 7 then 8
    else 0
  }

  datatype Span =
    | SpanBytes(bytes: int)
    | UnknownElement
    | NegativeExtent(dim: int)
    | TooManyElements
    | TooManyBytes

  predicate HasZero(sizes: seq<int>) {
    exists d :: 0 <= d < |sizes| && sizes[d] == 0
  }

  predicate NegativeAt(sizes: seq<int>, strides: seq<int>, d: int)
    requires |sizes| == |strides|
  {
    0 <= d < |sizes| && (sizes[d] < 0 || strides[d] < 0)
  }

  predicate FirstNegative(sizes: seq<int>, strides: seq<int>, dim: int)
    requires |sizes| == |strides|
  {
    NegativeAt(sizes, strides, dim) && forall d :: 0 <= d < dim ==> !NegativeAt(sizes, strides, d)
  }

  predicate NoneNegative(sizes: seq<int>, strides: seq<int>)
    requires |sizes| == |strides|
  {
    AllNatural(sizes) && AllNatural(strides)
  }

  // The span a view must get. `Last` is the greatest linear index of a view with
  // no empty dimension (Strided.LinearBound and Strided.LastReached).
  ghost predicate IsSpanOf(sizes: seq<int>, strides: seq<int>, elem: int, r: Span)
    requires |sizes| == |strides|
  {
    var b := DtypeBytes(elem);
    match r
    case UnknownElement => b == 0
    case NegativeExtent(dim) => b != 0 && FirstNegative(sizes, strides, dim)
    case SpanBytes(bytes) =>
      && b != 0 && NoneNegative(sizes, strides)
      && (HasZero(sizes) ==> bytes == 0)
      && (!HasZero(sizes) ==> bytes == (Last(sizes, strides) + 1) * b && bytes < TWO_64)
    case TooManyElements =>
      b != 0 && NoneNegative(sizes, strides) && !HasZero(sizes) && Last(sizes, strides) + 1 >= TWO_64
    case TooManyBytes =>
      && b != 0 && NoneNegative(sizes, strides) && !HasZero(sizes)
      && Last(sizes, strides) + 1 < TWO_64 && (Last(sizes, strides) + 1) * b >= TWO_64
  }

  lemma {:induction false} LastMonotone(sizes: seq<int>, strides: seq<int>, k: nat)
    requires |sizes| == |strides| && k <= |sizes| && AllPositive(sizes) && AllNatural(strides)
    ensures 0 <= Last(sizes[..k], strides[..k]) <= Last(sizes, strides)
    decreases |sizes|
  {
    if k == |sizes| {
      assert sizes[..k] == sizes && strides[..k] == strides;
      LastNatural(sizes, strides);
    } else {
      var n := |sizes| - 1;
      LastMonotone(sizes[..n], strides[..n], k);
      assert sizes[..n][..k] == sizes[..k] && strides[..n][..k] == strides[..k];
      assert (sizes[n] - 1) * strides[n] >= 0;
    }
  }

  // The first loop of vx_memref_view_span: signs, and whether the view is empty.
  method CheckSigns(sizes: seq<int>, strides: seq<int>) returns (negative: int, empty: bool)
    requires |sizes| == |strides|
    ensures negative == -1 || FirstNegative(sizes, strides, negative)
    ensures negative == -1 ==> NoneNegative(sizes, strides) && (empty <==> HasZero(sizes))
  {
    empty := false;
    var d := 0;
    while d < |sizes|
      invariant 0 <= d <= |sizes|
      invariant forall k :: 0 <= k < d ==> !NegativeAt(sizes, strides, k)
      invariant empty <==> HasZero(sizes[..d])
    {
      if sizes[d] < 0 || strides[d] < 0 {
        return d, empty;
      }
      assert sizes[..d + 1] == sizes[..d] + [sizes[d]];
      if sizes[d] == 0 {
        assert sizes[..d + 1][d] == 0;
      }
      ZeroStep(sizes, d);
      empty := empty || sizes[d] == 0;
      d := d + 1;
    }
    assert sizes[..d] == sizes;
    forall k | 0 <= k < |sizes|
      ensures sizes[k] >= 0 && strides[k] >= 0
    {
      assert !NegativeAt(sizes, strides, k);
    }
    negative := -1;
  }

  lemma ZeroStep(sizes: seq<int>, d: nat)
    requires d < |sizes|
    ensures HasZero(sizes[..d + 1]) <==> HasZero(sizes[..d]) || sizes[d] == 0
  {
    if HasZero(sizes[..d]) {
      var k :| 0 <= k < d && sizes[..d][k] == 0;
      assert sizes[..d + 1][k] == 0;
    }
    if sizes[d] == 0 {
      assert sizes[..d + 1][d] == 0;
    }
    if HasZero(sizes[..d + 1]) {
      var k :| 0 <= k < d + 1 && sizes[..d + 1][k] == 0;
      assert k < d ==> sizes[..d][k] == 0;
    }
  }

  // The second loop: the last element, unless it does not fit in 64 bits.
  method LastIndex(sizes: seq<int>, strides: seq<int>) returns (fits: bool, last: int)
    requires |sizes| == |strides| && AllPositive(sizes) && AllNatural(strides)
    ensures fits <==> Last(sizes, strides) < TWO_64
    ensures fits ==> last == Last(sizes, strides)
  {
    last := 0;
    var d := 0;
    while d < |sizes|
      invariant 0 <= d <= |sizes|
      invariant last == Last(sizes[..d], strides[..d])
      invariant 0 <= last < TWO_64
    {
      var step := (sizes[d] - 1) * strides[d];
      assert sizes[..d + 1][..d] == sizes[..d] && strides[..d + 1][..d] == strides[..d];
      LastMonotone(sizes, strides, d + 1);
      if step >= TWO_64 || last + step >= TWO_64 {
        return false, 0;
      }
      last := last + step;
      d := d + 1;
    }
    assert sizes[..d] == sizes && strides[..d] == strides;
    fits := true;
  }

  // vx_memref_view_span.
  method ViewSpan(sizes: seq<int>, strides: seq<int>, elem: int) returns (r: Span)
    requires |sizes| == |strides|
    ensures IsSpanOf(sizes, strides, elem, r)
  {
    var b := DtypeBytes(elem);
    if b == 0 {
      return UnknownElement;
    }
    var negative, empty := CheckSigns(sizes, strides);
    if negative >= 0 {
      return NegativeExtent(negative);
    }
    if empty {
      return SpanBytes(0);
    }
    PositiveWithoutZero(sizes);
    var fits, last := LastIndex(sizes, strides);
    if !fits {
      return TooManyElements;
    }
    LastNatural(sizes, strides);
    var count := last + 1;
    if count >= TWO_64 {
      return TooManyElements;
    }
    if count * b >= TWO_64 {
      return TooManyBytes;
    }
    return SpanBytes(count * b);
  }

  lemma PositiveWithoutZero(sizes: seq<int>)
    requires AllNatural(sizes) && !HasZero(sizes)
    ensures AllPositive(sizes)
  {
    forall d | 0 <= d < |sizes|
      ensures 1 <= sizes[d]
    {
      assert sizes[d] != 0;
    }
  }

  // A view has exactly one span.
  lemma SpanUnique(sizes: seq<int>, strides: seq<int>, elem: int, r: Span, s: Span)
    requires |sizes| == |strides|
    requires IsSpanOf(sizes, strides, elem, r) && IsSpanOf(sizes, strides, elem, s)
    ensures r == s
  {}

  // What the span means: every element of the view ends inside it, one element
  // ends exactly at its end, and it is 0 only for a view with no element.
  lemma SpanMeaning(sizes: seq<int>, strides: seq<int>, elem: int, bytes: int)
    requires |sizes| == |strides| && IsSpanOf(sizes, strides, elem, SpanBytes(bytes))
    ensures forall i :: InRange(i, sizes) ==>
               0 <= Linear(i, strides) && (Linear(i, strides) + 1) * DtypeBytes(elem) <= bytes
    ensures bytes != 0 ==> exists i :: InRange(i, sizes) && (Linear(i, strides) + 1) * DtypeBytes(elem) == bytes
    ensures bytes == 0 <==> HasZero(sizes)
    ensures HasZero(sizes) <==> forall i :: !InRange(i, sizes)
  {
    var b := DtypeBytes(elem);
    if HasZero(sizes) {
      var d :| 0 <= d < |sizes| && sizes[d] == 0;
      forall i ensures !InRange(i, sizes) {
        if |i| == |sizes| { assert !(0 <= i[d] < sizes[d]); }
      }
    } else {
      PositiveWithoutZero(sizes);
      LastReached(sizes, strides);
      LastNatural(sizes, strides);
      forall i | InRange(i, sizes)
        ensures 0 <= Linear(i, strides) && (Linear(i, strides) + 1) * b <= bytes
      {
        LinearBound(i, sizes, strides);
        MulLe(Linear(i, strides) + 1, Last(sizes, strides) + 1, b);
      }
      assert InRange(LastTuple(sizes), sizes);
      assert (Last(sizes, strides) + 1) * b >= b;
    }
  }

  lemma MulLe(x: int, y: int, b: int)
    requires x <= y && 0 <= b
    ensures x * b <= y * b
  {}
}
