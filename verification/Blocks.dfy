// The block odometer of a packed view (vx_view_copy_blocks): which bytes of the
// view each byte of its dense copy stands for, and that the blocks list them all
// once, in the order of the dense copy.
module Blocks {
  import opened Strided
  import opened Packing

  // A view's place and layout. `start` is the address of its first element.
  datatype Layout = Layout(start: int, sizes: seq<int>, strides: seq<int>, elem: int)

  predicate ValidLayout(v: Layout) {
    |v.sizes| == |v.strides| && AllPositive(v.sizes) && v.elem >= 1
  }

  // The bytes of the dense copy.
  function DenseBytes(v: Layout): int {
    Product(v.sizes) * v.elem
  }

  // The address of the view's byte that byte `c` of the dense copy stands for.
  function HostByte(v: Layout, c: nat): int
    requires ValidLayout(v)
  {
    v.start + OffsetAt(Quot(c, v.elem), v.sizes, v.strides) * v.elem + Rem(c, v.elem)
  }

  datatype Block = Block(dense: int, view: int, width: int, pitch: int, height: int)

  // The `width` bytes from address `view` on are those of the dense copy from byte `dense` on.
  ghost predicate RunFits(v: Layout, dense: int, view: int, width: int)
    requires ValidLayout(v)
  {
    dense >= 0 && forall c: nat :: dense <= c < dense + width ==> HostByte(v, c) == view + c - dense
  }

  // `height` runs of `width` bytes are the bytes of the view from byte `dense` on.
  ghost predicate BlockFits(v: Layout, k: Block)
    requires ValidLayout(v)
  {
    && k.dense >= 0 && k.width >= 1 && k.height >= 1
    && forall h :: 0 <= h < k.height ==> RunFits(v, k.dense + h * k.width, k.view + h * k.pitch, k.width)
  }

  // Where the first `k` blocks end in the dense copy.
  function TileEnd(calls: seq<Block>, k: nat): int
    requires k <= |calls|
  {
    if k == 0 then 0 else calls[k - 1].dense + calls[k - 1].height * calls[k - 1].width
  }

  // The blocks lie back to back in the dense copy, from byte 0 to byte `to`.
  ghost predicate Tiled(calls: seq<Block>, to: int) {
    && (forall k :: 0 <= k < |calls| ==> calls[k].dense == TileEnd(calls, k))
    && TileEnd(calls, |calls|) == to
  }

  // ---- Dimensions of one element do not matter ----

  function Pick(s: seq<int>, ds: seq<int>): (r: seq<int>)
    requires ValidDims(ds, s)
    ensures |r| == |ds|
  {
    seq(|ds|, k requires 0 <= k < |ds| => s[ds[k]])
  }

  lemma {:induction false} BigDimsValid(sizes: seq<int>)
    ensures ValidDims(BigDims(sizes), sizes)
  {
    if |sizes| > 0 {
      BigDimsValid(sizes[..|sizes| - 1]);
    }
  }

  lemma {:induction false} QuotByOne(p: nat)
    ensures Quot(p, 1) == p && Rem(p, 1) == 0
  {
    if p > 0 { QuotByOne(p - 1); }
  }

  // The entries of `s` at the dimensions of more than one element.
  function Squeezed(s: seq<int>, sizes: seq<int>): seq<int>
    requires |s| == |sizes|
  {
    if |sizes| == 0 then []
    else
      var n := |sizes| - 1;
      if sizes[n] > 1 then Squeezed(s[..n], sizes[..n]) + [s[n]] else Squeezed(s[..n], sizes[..n])
  }

  lemma {:induction false} SqueezedLength(s: seq<int>, t: seq<int>, sizes: seq<int>)
    requires |s| == |t| == |sizes|
    ensures |Squeezed(s, sizes)| == |Squeezed(t, sizes)|
  {
    if |sizes| > 0 {
      var n := |sizes| - 1;
      SqueezedLength(s[..n], t[..n], sizes[..n]);
    }
  }

  lemma {:induction false} PickIsSqueezed(s: seq<int>, sizes: seq<int>)
    requires |s| == |sizes|
    ensures ValidDims(BigDims(sizes), s) && Pick(s, BigDims(sizes)) == Squeezed(s, sizes)
  {
    BigDimsValid(sizes);
    if |sizes| > 0 {
      var n := |sizes| - 1;
      BigDimsValid(sizes[..n]);
      PickIsSqueezed(s[..n], sizes[..n]);
      assert Pick(s, BigDims(sizes[..n])) == Pick(s[..n], BigDims(sizes[..n]));
    }
  }

  lemma ProductAppend(q: seq<int>, s: int)
    ensures Product(q + [s]) == Product(q) * s
  {
    assert (q + [s])[..|q|] == q;
  }

  lemma {:induction false} SqueezedPositive(sizes: seq<int>)
    requires AllPositive(sizes)
    ensures AllPositive(Squeezed(sizes, sizes)) && Product(Squeezed(sizes, sizes)) == Product(sizes)
  {
    if |sizes| > 0 {
      var n := |sizes| - 1;
      SqueezedPositive(sizes[..n]);
      ProductAppend(Squeezed(sizes[..n], sizes[..n]), sizes[n]);
    }
  }

  lemma OffsetAppend(p: nat, sizes: seq<int>, strides: seq<int>, s: int, t: int)
    requires |sizes| == |strides| && AllPositive(sizes) && s >= 1
    ensures OffsetAt(p, sizes + [s], strides + [t]) == OffsetAt(Quot(p, s), sizes, strides) + Rem(p, s) * t
    ensures Product(sizes + [s]) == Product(sizes) * s
  {
    assert (sizes + [s])[..|sizes|] == sizes && (strides + [t])[..|sizes|] == strides;
  }

  // Dropping the dimensions of one element does not change where an element lies.
  lemma UnitDimension(p: nat, sizes: seq<int>, strides: seq<int>)
    requires |sizes| == |strides| && AllPositive(sizes) && |sizes| > 0 && sizes[|sizes| - 1] == 1
    ensures OffsetAt(p, sizes, strides) == OffsetAt(p, sizes[..|sizes| - 1], strides[..|sizes| - 1])
  {
    QuotByOne(p);
  }

  lemma {:induction false} SqueezeOffset(p: nat, sizes: seq<int>, strides: seq<int>)
    requires |sizes| == |strides| && AllPositive(sizes)
    requires AllPositive(Squeezed(sizes, sizes)) && |Squeezed(sizes, sizes)| == |Squeezed(strides, sizes)|
    ensures OffsetAt(p, sizes, strides) == OffsetAt(p, Squeezed(sizes, sizes), Squeezed(strides, sizes))
    decreases |sizes|
  {
    hide Product;
    if |sizes| > 0 {
      var n := |sizes| - 1;
      var qs, qt := Squeezed(sizes[..n], sizes[..n]), Squeezed(strides[..n], sizes[..n]);
      SqueezedPositive(sizes[..n]);
      SqueezedLength(sizes[..n], strides[..n], sizes[..n]);
      if sizes[n] > 1 {
        SqueezeOffset(Quot(p, sizes[n]), sizes[..n], strides[..n]);
        OffsetAppend(p, qs, qt, sizes[n], strides[n]);
      } else {
        SqueezeOffset(p, sizes[..n], strides[..n]);
        UnitDimension(p, sizes, strides);
      }
    }
  }

  // Dropping the dimensions of one element changes neither the element count
  // nor where an element lies.
  lemma Squeeze(p: nat, sizes: seq<int>, strides: seq<int>)
    requires |sizes| == |strides| && AllPositive(sizes)
    ensures ValidDims(BigDims(sizes), sizes)
    ensures AllPositive(Pick(sizes, BigDims(sizes)))
    ensures OffsetAt(p, sizes, strides) == OffsetAt(p, Pick(sizes, BigDims(sizes)), Pick(strides, BigDims(sizes)))
    ensures Product(sizes) == Product(Pick(sizes, BigDims(sizes)))
  {
    PickIsSqueezed(sizes, sizes);
    PickIsSqueezed(strides, sizes);
    SqueezedPositive(sizes);
    SqueezeOffset(p, sizes, strides);
  }

  // ---- The odometer ----

  lemma {:induction false} PositionOfZeros(a: seq<int>, k: nat, sizes: seq<int>)
    requires |a| + k == |sizes|
    ensures Position(a + Zeros(k), sizes) == Position(a, sizes[..|a|]) * Product(sizes[|a|..])
    decreases k
  {
    if k == 0 {
      assert a + Zeros(0) == a && sizes[..|a|] == sizes;
    } else {
      var n := |sizes| - 1;
      var t := a + Zeros(k);
      assert t[..n] == a + Zeros(k - 1);
      PositionOfZeros(a, k - 1, sizes[..n]);
      assert sizes[..n][..|a|] == sizes[..|a|];
      assert sizes[|a|..][..k - 1] == sizes[..n][|a|..];
      MulAssoc(Position(a, sizes[..|a|]), Product(sizes[..n][|a|..]), sizes[n]);
    }
  }

  // One past a full run of trailing digits.
  lemma CarryStep(o: seq<int>, sizes: seq<int>, d: nat)
    requires |o| == |sizes| && d < |o| && o[d] + 1 == sizes[d]
    ensures (Position(o[..d + 1], sizes[..d + 1]) + 1) * Product(sizes[d + 1..])
         == (Position(o[..d], sizes[..d]) + 1) * Product(sizes[d..])
  {
    assert o[..d + 1][..d] == o[..d] && sizes[..d + 1][..d] == sizes[..d];
    ProductSplit(sizes, d);
    var q := Position(o[..d], sizes[..d]);
    assert q * sizes[d] + o[d] + 1 == (q + 1) * sizes[d];
    MulAssoc(q + 1, sizes[d], Product(sizes[d + 1..]));
  }

  lemma CarryEnd(o: seq<int>, sizes: seq<int>, d: nat, t: seq<int>)
    requires InRange(o, sizes) && d < |o| && o[d] + 1 < sizes[d]
    requires |t| == |o| && t[d] == o[d] + 1
    requires forall k :: 0 <= k < d ==> t[k] == o[k]
    requires forall k :: d < k < |t| ==> t[k] == 0
    ensures InRange(t, sizes)
    ensures Position(t, sizes) == (Position(o[..d + 1], sizes[..d + 1]) + 1) * Product(sizes[d + 1..])
  {
    hide Product;
    var a := o[..d] + [o[d] + 1];
    assert t == a + Zeros(|o| - d - 1);
    assert a[..d] == o[..d] && o[..d + 1][..d] == o[..d];
    assert sizes[..|a|][..d] == sizes[..d];
    PositionOfZeros(a, |o| - d - 1, sizes);
  }

  // Count up, last digit first. `done` when every digit has turned over.
  method Advance(idx: array<int>, sizes: seq<int>) returns (done: bool)
    requires idx.Length == |sizes| && InRange(idx[..], sizes)
    modifies idx
    ensures done ==> old(Position(idx[..], sizes)) + 1 == Product(sizes)
    ensures !done ==> InRange(idx[..], sizes)
    ensures !done ==> Position(idx[..], sizes) == old(Position(idx[..], sizes)) + 1
  {
    ghost var o := idx[..];
    var d := |sizes| - 1;
    assert o[..d + 1] == o && sizes[..d + 1] == sizes && sizes[d + 1..] == [];
    while d >= 0
      invariant -1 <= d < |sizes|
      invariant forall k :: 0 <= k <= d ==> idx[k] == o[k]
      invariant forall k :: d < k < |o| ==> idx[k] == 0
      invariant Position(o, sizes) + 1 == (Position(o[..d + 1], sizes[..d + 1]) + 1) * Product(sizes[d + 1..])
    {
      idx[d] := idx[d] + 1;
      if idx[d] < sizes[d] {
        CarryEnd(o, sizes, d, idx[..]);
        return false;
      }
      CarryStep(o, sizes, d);
      idx[d] := 0;
      d := d - 1;
    }
    assert sizes[0..] == sizes;
    done := true;
  }

  // ---- Blocks ----

  // The same elements in the same order, with a last dimension of stride 1.
  ghost predicate SameOrder(v: Layout, gs: seq<int>, gt: seq<int>)
    requires ValidLayout(v)
  {
    && |gs| == |gt| && |gs| >= 1 && AllPositive(gs) && gt[|gt| - 1] == 1
    && Product(gs) == Product(v.sizes)
    && forall p: nat :: OffsetAt(p, gs, gt) == OffsetAt(p, v.sizes, v.strides)
  }

  // The dimensions of more than one element, and one more of size 1 unless the
  // last of them is a run.
  lemma BigSameOrder(v: Layout, run: bool, gs: seq<int>, gt: seq<int>)
    requires ValidLayout(v)
    requires ValidDims(BigDims(v.sizes), v.sizes)
    requires var fs, ft := Pick(v.sizes, BigDims(v.sizes)), Pick(v.strides, BigDims(v.sizes));
             if run then |ft| >= 1 && ft[|ft| - 1] == 1 && gs == fs && gt == ft
             else gs == fs + [1] && gt == ft + [1]
    ensures SameOrder(v, gs, gt)
  {
    var fs, ft := Pick(v.sizes, BigDims(v.sizes)), Pick(v.strides, BigDims(v.sizes));
    forall p: nat
      ensures AllPositive(gs) && OffsetAt(p, gs, gt) == OffsetAt(p, v.sizes, v.strides)
    {
      Squeeze(p, v.sizes, v.strides);
      if !run {
        OffsetAppend(p, fs, ft, 1, 1);
        QuotByOne(p);
      }
    }
    Squeeze(0, v.sizes, v.strides);
    if !run {
      OffsetAppend(0, fs, ft, 1, 1);
    }
  }

  // Byte `x` of run `h` of the block at outer position `q`.
  lemma RunByte(gs: seq<int>, gt: seq<int>, b: int, q: nat, h: nat, x: nat, c: nat)
    requires |gs| == |gt| && |gs| >= 2 && AllPositive(gs) && gt[|gt| - 1] == 1 && b >= 1
    requires h < gs[|gs| - 2] && x < gs[|gs| - 1] * b
    requires c == (q * gs[|gs| - 2] + h) * (gs[|gs| - 1] * b) + x
    ensures OffsetAt(Quot(c, b), gs, gt) * b + Rem(c, b)
         == OffsetAt(q, gs[..|gs| - 2], gt[..|gs| - 2]) * b + h * (gt[|gs| - 2] * b) + x
  {
    var n := |gs| - 1;
    var H, R := gs[n - 1], gs[n];
    DigitBack(x, R, b);
    var r, y := Quot(x, b), Rem(x, b);
    var o := q * H + h;
    var p := o * R + r;
    assert c == p * b + y by {
      MulAssoc(o, R, b);
      assert p * b == (o * R) * b + r * b;
    }
    DigitSplit(c, p, y, b);
    DigitSplit(p, o, r, R);
    DigitSplit(o, q, h, H);
    assert gs[..n][..n - 1] == gs[..n - 1] && gt[..n][..n - 1] == gt[..n - 1];
    var at := OffsetAt(q, gs[..n - 1], gt[..n - 1]);
    assert OffsetAt(p, gs, gt) == at + h * gt[n - 1] + r;
    RunSum(at, h, gt[n - 1], r, b);
  }

  lemma RunSum(at: int, h: int, t: int, r: int, b: int)
    ensures (at + h * t + r) * b == at * b + h * (t * b) + r * b
  {
    MulAssoc(h, t, b);
  }

  // Block `k` is the one at outer position `q`.
  ghost predicate IsOuter(v: Layout, gs: seq<int>, gt: seq<int>, q: nat, k: Block)
    requires ValidLayout(v) && SameOrder(v, gs, gt) && |gs| >= 2
  {
    && k.width == gs[|gs| - 1] * v.elem && k.height == gs[|gs| - 2] && k.pitch == gt[|gs| - 2] * v.elem
    && k.dense == q * k.height * k.width
    && k.view == v.start + OffsetAt(q, gs[..|gs| - 2], gt[..|gs| - 2]) * v.elem
  }

  lemma RowStart(q: nat, H: int, h: nat, W: int)
    requires H >= 1 && W >= 1
    ensures q * H * W + h * W == (q * H + h) * W && q * H * W >= 0 && h * W >= 0
  {
    assert q * H >= 0;
  }

  lemma RowByte(v: Layout, gs: seq<int>, gt: seq<int>, q: nat, k: Block, h: nat, c: nat)
    requires ValidLayout(v) && SameOrder(v, gs, gt) && |gs| >= 2 && IsOuter(v, gs, gt, q, k)
    requires h < k.height && k.dense + h * k.width <= c < k.dense + h * k.width + k.width
    ensures HostByte(v, c) == k.view + h * k.pitch + c - (k.dense + h * k.width)
  {
    var d := k.dense + h * k.width;
    assert k.width >= 1;
    RowStart(q, k.height, h, k.width);
    RunByte(gs, gt, v.elem, q, h, c - d, c);
    assert OffsetAt(Quot(c, v.elem), gs, gt) == OffsetAt(Quot(c, v.elem), v.sizes, v.strides);
  }

  lemma OuterFits(v: Layout, gs: seq<int>, gt: seq<int>, q: nat, k: Block)
    requires ValidLayout(v) && SameOrder(v, gs, gt) && |gs| >= 2 && IsOuter(v, gs, gt, q, k)
    ensures BlockFits(v, k)
  {
    assert k.width >= 1;
    RowStart(q, k.height, 0, k.width);
    forall h | 0 <= h < k.height
      ensures RunFits(v, k.dense + h * k.width, k.view + h * k.pitch, k.width)
    {
      RowStart(q, k.height, h, k.width);
      forall c: nat | k.dense + h * k.width <= c < k.dense + h * k.width + k.width
        ensures HostByte(v, c) == k.view + h * k.pitch + c - (k.dense + h * k.width)
      {
        RowByte(v, gs, gt, q, k, h, c);
      }
    }
  }

  lemma OneRun(p: nat, gs: seq<int>, gt: seq<int>)
    requires |gs| == |gt| == 1 && AllPositive(gs) && gt[0] == 1 && Rem(p, gs[0]) == p
    ensures OffsetAt(p, gs, gt) == p
  {
    assert gs[..0] == [] && gt[..0] == [];
  }

  // A view that is one run.
  lemma SingleFits(v: Layout, gs: seq<int>, gt: seq<int>)
    requires ValidLayout(v) && SameOrder(v, gs, gt) && |gs| == 1
    ensures var k := Block(0, v.start, gs[0] * v.elem, gs[0] * v.elem, 1); BlockFits(v, k) && Tiled([k], DenseBytes(v))
  {
    var R, b := gs[0], v.elem;
    var w := R * b;
    assert w >= 1;
    assert gs[..0] == [];
    forall c: nat | c < w
      ensures HostByte(v, c) == v.start + c
    {
      DigitBack(c, R, b);
      var p := Quot(c, b);
      DigitSplit(p, 0, p, R);
      OneRun(p, gs, gt);
      assert OffsetAt(p, gs, gt) == OffsetAt(p, v.sizes, v.strides);
    }
    assert RunFits(v, 0, v.start, w);
    assert 0 * w == 0;
    assert Product(gs) == Product([]) * R;
  }

  // The sum the source takes over the outer digits.
  method OuterOffset(idx: seq<int>, strides: seq<int>, b: int) returns (at: int)
    requires |idx| == |strides|
    ensures at == Linear(idx, strides) * b
  {
    at := 0;
    var d := 0;
    while d < |idx|
      invariant 0 <= d <= |idx|
      invariant at == Linear(idx[..d], strides[..d]) * b
    {
      assert idx[..d + 1][..d] == idx[..d] && strides[..d + 1][..d] == strides[..d];
      OffsetStep(Linear(idx[..d], strides[..d]), idx[d], strides[d], b);
      at := at + idx[d] * strides[d] * b;
      d := d + 1;
    }
    assert idx[..d] == idx && strides[..d] == strides;
  }

  lemma OffsetStep(l: int, i: int, t: int, b: int)
    ensures (l + i * t) * b == l * b + i * t * b
  {}

  // The loop of vx_view_copy_blocks, one block for each setting of the outer digits.
  method OuterBlocks(v: Layout, gs: seq<int>, gt: seq<int>) returns (calls: seq<Block>)
    requires ValidLayout(v) && SameOrder(v, gs, gt) && |gs| >= 2
    ensures forall k :: 0 <= k < |calls| ==> BlockFits(v, calls[k])
    ensures Tiled(calls, DenseBytes(v))
  {
    hide Product, BlockFits;
    var row := |gs| - 2;
    var os, ot := gs[..row], gt[..row];
    var width, height, pitch := gs[row + 1] * v.elem, gs[row], gt[row] * v.elem;
    var idx := new int[row](_ => 0);
    assert idx[..] == Zeros(row);
    StartDigits(os);
    var dense, done := 0, false;
    calls := [];
    ghost var q := 0;
    while !done
      invariant 0 <= q <= Product(os)
      invariant idx.Length == |os|
      invariant !done ==> InRange(idx[..], os) && q == Position(idx[..], os) && q < Product(os)
      invariant done ==> q == Product(os)
      invariant dense == q * height * width
      invariant forall k :: 0 <= k < |calls| ==> BlockFits(v, calls[k])
      invariant Tiled(calls, dense)
      decreases Product(os) - q, !done
    {
      var at := OuterOffset(idx[..], ot, v.elem);
      OffsetOfTuple(idx[..], os, ot);
      var k := Block(dense, v.start + at, width, pitch, height);
      OuterFits(v, gs, gt, q, k);
      calls := TileMore(calls, k);
      NextDense(q, height, width);
      dense := dense + width * height;
      done := Advance(idx, os);
      q := q + 1;
      if !done { PositionBound(idx[..], os); }
    }
    TotalBytes(v, gs, gt);
  }

  lemma NextDense(q: int, height: int, width: int)
    ensures q * height * width + width * height == (q + 1) * height * width
  {
    assert (q + 1) * height == q * height + height;
  }

  function TileMore(calls: seq<Block>, k: Block): (r: seq<Block>)
    ensures r == calls + [k]
    ensures Tiled(calls, k.dense) ==> Tiled(r, k.dense + k.height * k.width)
  {
    assert forall j :: 0 <= j <= |calls| ==> TileEnd(calls + [k], j) == TileEnd(calls, j);
    calls + [k]
  }

  lemma StartDigits(os: seq<int>)
    requires AllPositive(os)
    ensures InRange(Zeros(|os|), os) && Position(Zeros(|os|), os) == 0 && Product(os) >= 1
  {
    ProductPositive(os);
    PositionOfZeros([], |os|, os);
    assert [] + Zeros(|os|) == Zeros(|os|) && os[..0] == [];
  }

  lemma TotalBytes(v: Layout, gs: seq<int>, gt: seq<int>)
    requires ValidLayout(v) && SameOrder(v, gs, gt) && |gs| >= 2
    ensures DenseBytes(v) == Product(gs[..|gs| - 2]) * gs[|gs| - 2] * (gs[|gs| - 1] * v.elem)
  {
    var n := |gs| - 1;
    assert gs[..n][..n - 1] == gs[..n - 1];
    assert Product(gs[..n]) == Product(gs[..n - 1]) * gs[n - 1];
    MulAssoc(Product(gs[..n]), gs[n], v.elem);
  }

  // The dimensions of more than one element.
  method ListBig(sizes: seq<int>) returns (dims: seq<int>)
    ensures dims == BigDims(sizes)
  {
    dims := [];
    var d := 0;
    while d < |sizes|
      invariant 0 <= d <= |sizes| && dims == BigDims(sizes[..d])
    {
      assert sizes[..d + 1][..d] == sizes[..d];
      if sizes[d] > 1 {
        dims := dims + [d];
      }
      d := d + 1;
    }
    assert sizes[..d] == sizes;
  }

  // The dimensions the blocks run over. A last dimension with a stride of 1 is one run.
  method BlockDims(v: Layout) returns (gs: seq<int>, gt: seq<int>)
    requires ValidLayout(v)
    ensures SameOrder(v, gs, gt)
  {
    var dims := ListBig(v.sizes);
    BigDimsValid(v.sizes);
    gs, gt := Pick(v.sizes, dims), Pick(v.strides, dims);
    if |dims| >= 1 && v.strides[dims[|dims| - 1]] == 1 {
      BigSameOrder(v, true, gs, gt);
    } else {
      gs, gt := gs + [1], gt + [1];
      BigSameOrder(v, false, gs, gt);
    }
  }

  // vx_view_copy_blocks: the calls of `block`, in order.
  method ListBlocks(v: Layout) returns (calls: seq<Block>)
    requires ValidLayout(v)
    ensures forall k :: 0 <= k < |calls| ==> BlockFits(v, calls[k])
    ensures Tiled(calls, DenseBytes(v))
  {
    var gs, gt := BlockDims(v);
    if |gs| == 1 {
      SingleFits(v, gs, gt);
      calls := [Block(0, v.start, gs[0] * v.elem, gs[0] * v.elem, 1)];
    } else {
      calls := OuterBlocks(v, gs, gt);
    }
  }
}