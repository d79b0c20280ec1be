// Index arithmetic of strided tensor views: the linear index of an index tuple,
// its row-major position, and the two dense-layout bijections between them.
module Strided {

  predicate InRange(i: seq<int>, sizes: seq<int>) {
    |i| == |sizes| && forall d :: 0 <= d < |i| ==> 0 <= i[d] < sizes[d]
  }

  predicate AllPositive(sizes: seq<int>) {
    forall d :: 0 <= d < |sizes| ==> 1 <= sizes[d]
  }

  predicate AllNatural(s: seq<int>) {
    forall d :: 0 <= d < |s| ==> 0 <= s[d]
  }

  // The element index a tuple reaches: the sum of i[d] * strides[d].
  function Linear(i: seq<int>, strides: seq<int>): int
    requires |i| == |strides|
  {
    if |i| == 0 then 0
    else Linear(i[..|i| - 1], strides[..|i| - 1]) + i[|i| - 1] * strides[|i| - 1]
  }

  function Product(sizes: seq<int>): int {
    if |sizes| == 0 then 1 else Product(sizes[..|sizes| - 1]) * sizes[|sizes| - 1]
  }

  // The greatest linear index of a view whose sizes are all positive.
  function Last(sizes: seq<int>, strides: seq<int>): int
    requires |sizes| == |strides|
  {
    if |sizes| == 0 then 0
    else Last(sizes[..|sizes| - 1], strides[..|sizes| - 1]) + (sizes[|sizes| - 1] - 1) * strides[|sizes| - 1]
  }

  // The row-major position of a tuple: the last dimension varies fastest.
  function Position(i: seq<int>, sizes: seq<int>): int
    requires |i| == |sizes|
  {
    if |i| == 0 then 0
    else Position(i[..|i| - 1], sizes[..|i| - 1]) * sizes[|i| - 1] + i[|i| - 1]
  }

  // The quotient and the remainder of a position by a size, by repeated subtraction.
  function Quot(p: nat, s: int): nat
    requires 1 <= s
  {
    if p < s then 0 else 1 + Quot(p - s, s)
  }

  function Rem(p: nat, s: int): nat
    requires 1 <= s
  {
    if p < s then p else Rem(p - s, s)
  }

  // The tuple at a row-major position.
  function TupleAt(p: nat, sizes: seq<int>): (i: seq<int>)
    requires AllPositive(sizes)
    ensures |i| == |sizes|
    decreases |sizes|
  {
    if |sizes| == 0 then []
    else
      var s := sizes[|sizes| - 1];
      TupleAt(Quot(p, s), sizes[..|sizes| - 1]) + [Rem(p, s)]
  }

  // The linear index, in the layout `strides`, of the element at row-major position `p`.
  function OffsetAt(p: nat, sizes: seq<int>, strides: seq<int>): int
    requires |sizes| == |strides| && AllPositive(sizes)
    decreases |sizes|
  {
    if |sizes| == 0 then 0
    else
      var n := |sizes| - 1;
      OffsetAt(Quot(p, sizes[n]), sizes[..n], strides[..n]) + Rem(p, sizes[n]) * strides[n]
  }

  // The strides of a dense row-major layout.
  function DenseStrides(sizes: seq<int>): (r: seq<int>)
    ensures |r| == |sizes|
  {
    seq(|sizes|, d requires 0 <= d < |sizes| => Product(sizes[d + 1..]))
  }

  lemma ProductPositive(sizes: seq<int>)
    requires AllPositive(sizes)
    ensures Product(sizes) >= 1
  {
    if |sizes| > 0 {
      ProductPositive(sizes[..|sizes| - 1]);
      assert Product(sizes[..|sizes| - 1]) * sizes[|sizes| - 1] >= 1;
    }
  }

  lemma ProductConcat(a: seq<int>, b: seq<int>)
    ensures Product(a + b) == Product(a) * Product(b)
  {
    if |b| == 0 {
      assert a + b == a;
    } else {
      var n := |b| - 1;
      assert (a + b)[..|a + b| - 1] == a + b[..n];
      ProductConcat(a, b[..n]);
      MulAssoc(Product(a), Product(b[..n]), b[n]);
    }
  }

  lemma MulAssoc(x: int, y: int, z: int)
    ensures (x * y) * z == x * (y * z)
  {}

  lemma ProductSplit(sizes: seq<int>, d: nat)
    requires d < |sizes|
    ensures Product(sizes[d..]) == sizes[d] * Product(sizes[d + 1..])
  {
    assert sizes[d..] == [sizes[d]] + sizes[d + 1..];
    ProductConcat([sizes[d]], sizes[d + 1..]);
    assert Product([sizes[d]]) == Product([]) * sizes[d];
  }

  lemma PositionBound(i: seq<int>, sizes: seq<int>)
    requires InRange(i, sizes)
    ensures 0 <= Position(i, sizes) < Product(sizes)
  {
    if |i| > 0 {
      var n := |i| - 1;
      PositionBound(i[..n], sizes[..n]);
      DigitBound(Position(i[..n], sizes[..n]), Product(sizes[..n]), i[n], sizes[n]);
    }
  }

  // A leading position below P and a digit below s give a position below P * s.
  lemma DigitBound(q: int, P: int, x: int, s: int)
    requires 0 <= q < P && 0 <= x < s
    ensures 0 <= q * s + x < P * s
  {
    assert (q + 1) * s <= P * s;
  }

  // A position splits into its quotient and a digit below the size.
  lemma {:induction false} QuotRem(p: nat, s: int)
    requires 1 <= s
    ensures Quot(p, s) * s + Rem(p, s) == p && Rem(p, s) < s
  {
    if p >= s {
      QuotRem(p - s, s);
      assert (1 + Quot(p - s, s)) * s == s + Quot(p - s, s) * s;
    }
  }

  // A multiple of the size plus a digit splits back into the two.
  lemma {:induction false} DigitSplit(p: nat, q: nat, x: nat, s: int)
    requires x < s && p == q * s + x
    ensures Quot(p, s) == q && Rem(p, s) == x
  {
    if q > 0 {
      assert (q - 1) * s + x == p - s;
      DigitSplit(p - s, q - 1, x, s);
    }
  }

  lemma DigitBack(p: nat, P: int, s: int)
    requires p < P * s && 1 <= s
    ensures Quot(p, s) < P && Rem(p, s) < s && Quot(p, s) * s + Rem(p, s) == p
  {
    QuotRem(p, s);
    QuotBelow(Quot(p, s), P, s, Rem(p, s));
  }

  lemma QuotBelow(q: int, P: int, s: int, x: nat)
    requires q * s + x < P * s && 1 <= s
    ensures q < P
  {
    assert (P - q) * s > 0;
  }

  // A tuple is recovered from its row-major position.
  lemma {:induction false} TupleOfPosition(i: seq<int>, sizes: seq<int>)
    requires InRange(i, sizes) && AllPositive(sizes)
    ensures Position(i, sizes) >= 0
    ensures TupleAt(Position(i, sizes), sizes) == i
  {
    PositionBound(i, sizes);
    if |i| > 0 {
      var n := |i| - 1;
      PositionBound(i[..n], sizes[..n]);
      DigitSplit(Position(i, sizes), Position(i[..n], sizes[..n]), i[n], sizes[n]);
      TupleOfPosition(i[..n], sizes[..n]);
      assert i == i[..n] + [i[n]];
    }
  }

  // Every position below the element count is the position of an in-range tuple.
  lemma {:induction false} PositionOfTuple(p: nat, sizes: seq<int>)
    requires AllPositive(sizes) && p < Product(sizes)
    ensures InRange(TupleAt(p, sizes), sizes)
    ensures Position(TupleAt(p, sizes), sizes) == p
    decreases |sizes|
  {
    if |sizes| > 0 {
      var n := |sizes| - 1;
      var s := sizes[n];
      DigitBack(p, Product(sizes[..n]), s);
      PositionOfTuple(Quot(p, s), sizes[..n]);
      var t := TupleAt(p, sizes);
      assert t[..n] == TupleAt(Quot(p, s), sizes[..n]);
    }
  }

  // Reading the layout at a position is reading it at the tuple of that position.
  lemma {:induction false} OffsetIsLinear(p: nat, sizes: seq<int>, strides: seq<int>)
    requires |sizes| == |strides| && AllPositive(sizes)
    ensures OffsetAt(p, sizes, strides) == Linear(TupleAt(p, sizes), strides)
    decreases |sizes|
  {
    if |sizes| > 0 {
      var n := |sizes| - 1;
      OffsetIsLinear(Quot(p, sizes[n]), sizes[..n], strides[..n]);
      var t := TupleAt(p, sizes);
      assert t[..n] == TupleAt(Quot(p, sizes[n]), sizes[..n]);
    }
  }

  lemma OffsetOfTuple(i: seq<int>, sizes: seq<int>, strides: seq<int>)
    requires InRange(i, sizes) && |sizes| == |strides| && AllPositive(sizes)
    ensures Position(i, sizes) >= 0
    ensures OffsetAt(Position(i, sizes), sizes, strides) == Linear(i, strides)
  {
    TupleOfPosition(i, sizes);
    OffsetIsLinear(Position(i, sizes), sizes, strides);
  }

  lemma {:induction false} LinearScale(i: seq<int>, t: seq<int>, u: seq<int>, c: int)
    requires |i| == |t| == |u|
    requires forall d :: 0 <= d < |t| ==> u[d] == t[d] * c
    ensures Linear(i, u) == Linear(i, t) * c
  {
    if |i| > 0 {
      var n := |i| - 1;
      LinearScale(i[..n], t[..n], u[..n], c);
      MulAssoc(i[n], t[n], c);
      assert (Linear(i[..n], t[..n]) + i[n] * t[n]) * c == Linear(i[..n], t[..n]) * c + i[n] * t[n] * c;
    }
  }

  // Adding a last dimension scales every dense stride by its size.
  lemma DenseStridesStep(sizes: seq<int>, d: nat)
    requires d < |sizes| - 1
    ensures DenseStrides(sizes)[d] == DenseStrides(sizes[..|sizes| - 1])[d] * sizes[|sizes| - 1]
  {
    var n := |sizes| - 1;
    assert sizes[d + 1..][..n - d - 1] == sizes[..n][d + 1..];
  }

  // The dense layout is the layout of the row-major position.
  lemma {:induction false} DenseIsPosition(i: seq<int>, sizes: seq<int>)
    requires |i| == |sizes|
    ensures Linear(i, DenseStrides(sizes)) == Position(i, sizes)
  {
    if |i| > 0 {
      var n := |i| - 1;
      var t, u := DenseStrides(sizes[..n]), DenseStrides(sizes);
      forall d | 0 <= d < n
        ensures u[..n][d] == t[d] * sizes[n]
      {
        DenseStridesStep(sizes, d);
      }
      LinearScale(i[..n], t, u[..n], sizes[n]);
      DenseIsPosition(i[..n], sizes[..n]);
      assert u[n] == Product([]);
    }
  }

  // Every tuple lies between 0 and the last element, and the last one is reached.
  lemma {:induction false} LinearBound(i: seq<int>, sizes: seq<int>, strides: seq<int>)
    requires InRange(i, sizes) && |sizes| == |strides| && AllNatural(strides)
    ensures 0 <= Linear(i, strides) <= Last(sizes, strides)
  {
    if |i| > 0 {
      var n := |i| - 1;
      LinearBound(i[..n], sizes[..n], strides[..n]);
      assert 0 <= i[n] * strides[n] <= (sizes[n] - 1) * strides[n];
    }
  }

  // The tuple that reaches the last element.
  function LastTuple(sizes: seq<int>): (i: seq<int>)
    ensures |i| == |sizes|
  {
    seq(|sizes|, d requires 0 <= d < |sizes| => sizes[d] - 1)
  }

  lemma {:induction false} LastReached(sizes: seq<int>, strides: seq<int>)
    requires |sizes| == |strides| && AllPositive(sizes)
    ensures InRange(LastTuple(sizes), sizes)
    ensures Linear(LastTuple(sizes), strides) == Last(sizes, strides)
  {
    if |sizes| > 0 {
      var n := |sizes| - 1;
      LastReached(sizes[..n], strides[..n]);
      assert LastTuple(sizes)[..n] == LastTuple(sizes[..n]);
    }
  }

  lemma {:induction false} LastNatural(sizes: seq<int>, strides: seq<int>)
    requires |sizes| == |strides| && AllPositive(sizes) && AllNatural(strides)
    ensures 0 <= Last(sizes, strides)
  {
    LastReached(sizes, strides);
    LinearBound(LastTuple(sizes), sizes, strides);
  }

  // Tuples of zeros, and tuples with a single one.
  function Zeros(n: nat): (i: seq<int>)
    ensures |i| == n
  {
    seq(n, d => 0)
  }

  lemma {:induction false} LinearOfZeros(strides: seq<int>)
    ensures Linear(Zeros(|strides|), strides) == 0
  {
    if |strides| > 0 {
      var n := |strides| - 1;
      assert Zeros(|strides|)[..n] == Zeros(n);
      LinearOfZeros(strides[..n]);
    }
  }

  lemma {:induction false} LinearOfUnit(strides: seq<int>, d: nat)
    requires d < |strides|
    ensures Linear(Zeros(|strides|)[d := 1], strides) == strides[d]
  {
    var n := |strides| - 1;
    var u := Zeros(|strides|)[d := 1];
    if d == n {
      assert u[..n] == Zeros(n);
      LinearOfZeros(strides[..n]);
    } else {
      assert u[..n] == Zeros(n)[d := 1];
      LinearOfUnit(strides[..n], d);
    }
  }
}
