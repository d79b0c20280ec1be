// Copying a span out of memory and back: dense copies go block by block
// (vx_view_copy_gather, vx_view_copy_scatter), shared spans in one memcpy.
//
// Memory is one flat array, indexed by address. `hosts` lists, for each byte of
// a copy, the address of the byte it stands for.
module Copying {
  import opened Strided
  import opened Abi
  import opened Packing
  import opened Blocks

  function HostBytes(v: Layout): (hosts: seq<int>)
    requires ValidLayout(v) && DenseBytes(v) >= 0
    ensures |hosts| == DenseBytes(v)
  {
    seq(DenseBytes(v), c requires 0 <= c < DenseBytes(v) => HostByte(v, c))
  }

  function SpanAddresses(start: int, bytes: nat): (hosts: seq<int>)
    ensures |hosts| == bytes
  {
    seq(bytes, c => start + c)
  }

  ghost predicate InMemory(hosts: seq<int>, m: seq<Byte>) {
    forall c :: 0 <= c < |hosts| ==> 0 <= hosts[c] < |m|
  }

  // The copy block [at, at + |hosts|) is in memory and holds no byte of `hosts`.
  ghost predicate Apart(hosts: seq<int>, at: int, m: seq<Byte>) {
    && 0 <= at && at + |hosts| <= |m|
    && forall c :: 0 <= c < |hosts| ==> hosts[c] < at || at + |hosts| <= hosts[c]
  }

  ghost predicate Distinct(hosts: seq<int>) {
    forall c, e :: 0 <= c < e < |hosts| ==> hosts[c] != hosts[e]
  }

  // `m'` is `m` with the first `n` bytes of `hosts` copied to the block at `at`.
  ghost predicate CopiedOut(m: seq<Byte>, m': seq<Byte>, hosts: seq<int>, at: int, n: int)
    requires InMemory(hosts, m) && Apart(hosts, at, m) && n <= |hosts|
  {
    && |m'| == |m|
    && (forall c :: 0 <= c < n ==> m'[at + c] == m[hosts[c]])
    && (forall x :: 0 <= x < |m| && !(at <= x < at + n) ==> m'[x] == m[x])
  }

  // `m'` is `m` with the first `n` bytes of the block at `at` copied back to `hosts`.
  ghost predicate CopiedBack(m: seq<Byte>, m': seq<Byte>, hosts: seq<int>, at: int, n: int)
    requires InMemory(hosts, m) && Apart(hosts, at, m) && 0 <= n <= |hosts|
  {
    && |m'| == |m|
    && (forall c :: 0 <= c < n ==> m'[hosts[c]] == m[at + c])
    && (forall x :: 0 <= x < |m| && x !in hosts[..n] ==> m'[x] == m[x])
  }

  // Copying back what was copied out leaves memory as it is.
  lemma BackAfterOut(m: seq<Byte>, m': seq<Byte>, m'': seq<Byte>, hosts: seq<int>, at: int)
    requires InMemory(hosts, m) && Apart(hosts, at, m)
    requires CopiedOut(m, m', hosts, at, |hosts|)
    requires CopiedBack(m', m'', hosts, at, |hosts|)
    ensures m'' == m'
  {
    assert hosts[..|hosts|] == hosts;
    forall x | 0 <= x < |m|
      ensures m''[x] == m'[x]
    {
      if x in hosts {
        var c :| 0 <= c < |hosts| && hosts[c] == x;
        assert m''[hosts[c]] == m'[at + c];
      }
    }
  }

  // Copying out what was copied back leaves the copy as it is.
  lemma OutAfterBack(m: seq<Byte>, m': seq<Byte>, m'': seq<Byte>, hosts: seq<int>, at: int)
    requires InMemory(hosts, m) && Apart(hosts, at, m)
    requires CopiedBack(m, m', hosts, at, |hosts|)
    requires CopiedOut(m', m'', hosts, at, |hosts|)
    ensures m'' == m'
  {
    forall x | at <= x < at + |hosts|
      ensures m''[x] == m'[x]
    {
      var c := x - at;
      assert m''[at + c] == m'[hosts[c]];
      assert m'[hosts[c]] == m[at + c];
      assert x !in hosts[..|hosts|];
    }
  }

  // memcpy of bytes that do not overlap.
  method Memcpy(mem: array<Byte>, dst: int, src: int, n: nat)
    requires 0 <= dst && dst + n <= mem.Length && 0 <= src && src + n <= mem.Length
    requires dst + n <= src || src + n <= dst
    modifies mem
    ensures forall k :: dst <= k < dst + n ==> mem[k] == old(mem[src + k - dst])
    ensures forall x :: 0 <= x < mem.Length && !(dst <= x < dst + n) ==> mem[x] == old(mem[x])
  {
    var j := 0;
    while j < n
      invariant 0 <= j <= n
      invariant forall k :: dst <= k < dst + j ==> mem[k] == old(mem[src + k - dst])
      invariant forall x :: 0 <= x < mem.Length && !(dst <= x < dst + j) ==> mem[x] == old(mem[x])
    {
      mem[dst + j] := mem[src + j];
      j := j + 1;
    }
  }

  // `width` bytes from `view` on are `hosts` from byte `c` on.
  ghost predicate RunOf(hosts: seq<int>, c: int, view: int, width: int) {
    0 <= c && 0 <= width && c + width <= |hosts| && forall e :: c <= e < c + width ==> hosts[e] == view + e - c
  }

  lemma RowInside(h: nat, H: int, W: int)
    requires h < H && W >= 1
    ensures 0 <= h * W && (h + 1) * W == h * W + W && h * W + W <= H * W
  {
    MulLe(h + 1, H, W);
  }

  lemma RunOfBlock(v: Layout, k: Block, h: nat)
    requires ValidLayout(v) && BlockFits(v, k) && h < k.height
    requires k.dense + k.height * k.width <= DenseBytes(v)
    ensures DenseBytes(v) >= 0
    ensures RunOf(HostBytes(v), k.dense + h * k.width, k.view + h * k.pitch, k.width)
    ensures k.dense + (h + 1) * k.width == k.dense + h * k.width + k.width
  {
    RowInside(h, k.height, k.width);
    assert RunFits(v, k.dense + h * k.width, k.view + h * k.pitch, k.width);
  }

  // One run of vx_view_copy_gather_block.
  method GatherRun(mem: array<Byte>, ghost m: seq<Byte>, ghost hosts: seq<int>, at: int, c: int, view: int, width: int)
    requires |m| == mem.Length && InMemory(hosts, m) && Apart(hosts, at, m) && RunOf(hosts, c, view, width)
    requires width >= 1
    requires CopiedOut(m, mem[..], hosts, at, c)
    modifies mem
    ensures CopiedOut(m, mem[..], hosts, at, c + width)
  {
    assert hosts[c] == view && hosts[c + width - 1] == view + width - 1;
    RunApart(hosts, at, c, view, width, m);
    Memcpy(mem, at + c, view, width);
    forall e | 0 <= e < c + width
      ensures mem[at + e] == m[hosts[e]]
    {
      if e >= c {
        assert mem[at + e] == old(mem[view + at + e - (at + c)]);
      }
    }
  }

  // A run of host bytes lies on one side of the copy block.
  lemma {:induction false} RunApart(hosts: seq<int>, at: int, c: int, view: int, width: int, m: seq<Byte>)
    requires Apart(hosts, at, m) && RunOf(hosts, c, view, width) && width >= 1
    ensures view + width <= at || at + |hosts| <= view
    decreases width
  {
    if width > 1 {
      RunApart(hosts, at, c, view, width - 1, m);
    }
    assert hosts[c + width - 1] == view + width - 1;
  }

  // One run of vx_view_copy_scatter_block.
  method ScatterRun(mem: array<Byte>, ghost m: seq<Byte>, ghost hosts: seq<int>, at: int, c: int, view: int, width: int)
    requires |m| == mem.Length && InMemory(hosts, m) && Apart(hosts, at, m) && Distinct(hosts)
    requires RunOf(hosts, c, view, width) && width >= 1
    requires CopiedBack(m, mem[..], hosts, at, c)
    modifies mem
    ensures CopiedBack(m, mem[..], hosts, at, c + width)
  {
    assert hosts[c] == view && hosts[c + width - 1] == view + width - 1;
    RunApart(hosts, at, c, view, width, m);
    CopyUntouched(m, mem[..], hosts, at, c);
    Memcpy(mem, view, at + c, width);
    ScatterStep(m, old(mem[..]), mem[..], hosts, at, c, view, width);
  }

  // Copying back writes only bytes of `hosts`, so the copy block itself stays.
  lemma CopyUntouched(m: seq<Byte>, m': seq<Byte>, hosts: seq<int>, at: int, c: nat)
    requires InMemory(hosts, m) && Apart(hosts, at, m) && c <= |hosts| && CopiedBack(m, m', hosts, at, c)
    ensures forall x :: at <= x < at + |hosts| ==> m'[x] == m[x]
  {
    forall x | at <= x < at + |hosts|
      ensures m'[x] == m[x]
    {
      assert x !in hosts[..c];
    }
  }

  lemma ScatterStep(m: seq<Byte>, m1: seq<Byte>, m2: seq<Byte>, hosts: seq<int>, at: int, c: nat, view: int, width: nat)
    requires InMemory(hosts, m) && Apart(hosts, at, m) && Distinct(hosts) && RunOf(hosts, c, view, width)
    requires CopiedBack(m, m1, hosts, at, c) && |m2| == |m1| && 0 <= view && view + width <= |m|
    requires forall x :: at <= x < at + |hosts| ==> m1[x] == m[x]
    requires forall k :: view <= k < view + width ==> m2[k] == m1[at + c + k - view]
    requires forall x :: 0 <= x < |m| && !(view <= x < view + width) ==> m2[x] == m1[x]
    ensures CopiedBack(m, m2, hosts, at, c + width)
  {
    forall e | 0 <= e < c + width
      ensures m2[hosts[e]] == m[at + e]
    {
      if e < c {
        RunMembers(hosts, c, view, width, hosts[e]);
      } else {
        assert hosts[e] == view + e - c;
      }
    }
    forall x | 0 <= x < |m| && x !in hosts[..c + width]
      ensures m2[x] == m[x]
    {
      RunMembers(hosts, c, view, width, x);
      PrefixMembers(hosts, c, c + width, x);
    }
  }

  lemma RunMembers(hosts: seq<int>, c: nat, view: int, width: nat, x: int)
    requires RunOf(hosts, c, view, width)
    ensures view <= x < view + width <==> x in hosts[c..c + width]
    ensures x in hosts[c..c + width] ==> x in hosts[..c + width]
  {
    var run := hosts[c..c + width];
    if view <= x < view + width {
      assert run[x - view] == x;
    }
    assert hosts[..c + width] == hosts[..c] + run;
  }

  lemma PrefixMembers(hosts: seq<int>, c: nat, n: nat, x: int)
    requires c <= n <= |hosts|
    ensures x in hosts[..c] ==> x in hosts[..n]
  {
    assert hosts[..n] == hosts[..c] + hosts[c..n];
  }

  // vx_view_copy_gather_block.
  method GatherBlock(mem: array<Byte>, ghost m: seq<Byte>, v: Layout, at: int, k: Block)
    requires ValidLayout(v) && BlockFits(v, k) && k.dense + k.height * k.width <= DenseBytes(v)
    requires DenseBytes(v) >= 0 && |m| == mem.Length && InMemory(HostBytes(v), m) && Apart(HostBytes(v), at, m)
    requires CopiedOut(m, mem[..], HostBytes(v), at, k.dense)
    modifies mem
    ensures CopiedOut(m, mem[..], HostBytes(v), at, k.dense + k.height * k.width)
  {
    ghost var hosts := HostBytes(v);
    var h := 0;
    assert 0 * k.width == 0;
    while h < k.height
      invariant 0 <= h <= k.height
      invariant k.dense + h * k.width <= |hosts|
      invariant CopiedOut(m, mem[..], hosts, at, k.dense + h * k.width)
    {
      RunOfBlock(v, k, h);
      GatherRun(mem, m, hosts, at, k.dense + h * k.width, k.view + h * k.pitch, k.width);
      h := h + 1;
    }
  }

  // vx_view_copy_scatter_block.
  method ScatterBlock(mem: array<Byte>, ghost m: seq<Byte>, v: Layout, at: int, k: Block)
    requires ValidLayout(v) && BlockFits(v, k) && k.dense + k.height * k.width <= DenseBytes(v)
    requires DenseBytes(v) >= 0 && |m| == mem.Length && InMemory(HostBytes(v), m) && Apart(HostBytes(v), at, m)
    requires Distinct(HostBytes(v))
    requires CopiedBack(m, mem[..], HostBytes(v), at, k.dense)
    modifies mem
    ensures k.dense + k.height * k.width >= 0
    ensures CopiedBack(m, mem[..], HostBytes(v), at, k.dense + k.height * k.width)
  {
    hide CopiedBack, Distinct, Apart, InMemory;
    ghost var hosts := HostBytes(v);
    var h := 0;
    assert 0 * k.width == 0;
    while h < k.height
      invariant 0 <= h <= k.height
      invariant 0 <= k.dense + h * k.width <= |hosts|
      invariant CopiedBack(m, mem[..], hosts, at, k.dense + h * k.width)
    {
      RunOfBlock(v, k, h);
      ScatterRun(mem, m, hosts, at, k.dense + h * k.width, k.view + h * k.pitch, k.width);
      h := h + 1;
    }
  }

  lemma {:induction false} TileInside(v: Layout, calls: seq<Block>, j: nat, k: nat)
    requires ValidLayout(v) && Tiled(calls, DenseBytes(v)) && j <= k <= |calls|
    requires forall i :: 0 <= i < |calls| ==> BlockFits(v, calls[i])
    ensures 0 <= TileEnd(calls, j) <= TileEnd(calls, k)
    decreases k
  {
    if k > 0 {
      RowInside(0, calls[k - 1].height, calls[k - 1].width);
      if j < k {
        TileInside(v, calls, j, k - 1);
      } else {
        TileInside(v, calls, k - 1, k - 1);
      }
    }
  }

  // vx_view_copy_gather.
  method Gather(mem: array<Byte>, v: Layout, at: int)
    requires ValidLayout(v) && DenseBytes(v) >= 0
    requires InMemory(HostBytes(v), mem[..]) && Apart(HostBytes(v), at, mem[..])
    modifies mem
    ensures CopiedOut(old(mem[..]), mem[..], HostBytes(v), at, DenseBytes(v))
  {
    ghost var m := mem[..];
    var calls := ListBlocks(v);
    var j := 0;
    while j < |calls|
      invariant 0 <= j <= |calls|
      invariant TileEnd(calls, j) <= DenseBytes(v)
      invariant CopiedOut(m, mem[..], HostBytes(v), at, TileEnd(calls, j))
    {
      TileInside(v, calls, j + 1, |calls|);
      GatherBlock(mem, m, v, at, calls[j]);
      j := j + 1;
    }
  }

  // vx_view_copy_scatter.
  method Scatter(mem: array<Byte>, v: Layout, at: int)
    requires ValidLayout(v) && DenseBytes(v) >= 0 && Distinct(HostBytes(v))
    requires InMemory(HostBytes(v), mem[..]) && Apart(HostBytes(v), at, mem[..])
    modifies mem
    ensures CopiedBack(old(mem[..]), mem[..], HostBytes(v), at, DenseBytes(v))
  {
    hide Distinct, Apart, ValidLayout;
    ghost var m := mem[..];
    var calls := ListBlocks(v);
    var j := 0;
    while j < |calls|
      invariant 0 <= j <= |calls|
      invariant 0 <= TileEnd(calls, j) <= DenseBytes(v)
      invariant CopiedBack(m, mem[..], HostBytes(v), at, TileEnd(calls, j))
    {
      TileInside(v, calls, j + 1, |calls|);
      ScatterBlock(mem, m, v, at, calls[j]);
      j := j + 1;
    }
  }

  // ---- The dense copy of a nested view ----

  lemma DenseIndex(v: Layout, c: nat)
    requires ValidLayout(v) && AllNatural(v.strides) && c < DenseBytes(v)
    ensures Quot(c, v.elem) < Product(v.sizes) && Rem(c, v.elem) < v.elem
    ensures 0 <= OffsetAt(Quot(c, v.elem), v.sizes, v.strides) <= Last(v.sizes, v.strides)
  {
    DigitBack(c, Product(v.sizes), v.elem);
    var p := Quot(c, v.elem);
    PositionOfTuple(p, v.sizes);
    OffsetIsLinear(p, v.sizes, v.strides);
    LinearBound(TupleAt(p, v.sizes), v.sizes, v.strides);
  }

  // Every byte of the dense copy stands for a byte of the view.
  lemma HostByteBound(v: Layout, c: nat)
    requires ValidLayout(v) && AllNatural(v.strides) && c < DenseBytes(v)
    ensures v.start <= HostByte(v, c) < v.start + (Last(v.sizes, v.strides) + 1) * v.elem
  {
    DenseIndex(v, c);
    DigitBound(OffsetAt(Quot(c, v.elem), v.sizes, v.strides), Last(v.sizes, v.strides) + 1, Rem(c, v.elem), v.elem);
  }

  // The byte `k` of the element at tuple `i` is at its row-major place in the
  // dense copy, and at its strided place in the view.
  lemma HostByteOfTuple(v: Layout, i: seq<int>, k: nat)
    requires ValidLayout(v) && InRange(i, v.sizes) && k < v.elem
    ensures 0 <= Linear(i, DenseStrides(v.sizes)) * v.elem + k < DenseBytes(v)
    ensures HostByte(v, Linear(i, DenseStrides(v.sizes)) * v.elem + k) == v.start + Linear(i, v.strides) * v.elem + k
  {
    DenseIsPosition(i, v.sizes);
    PositionBound(i, v.sizes);
    var p := Position(i, v.sizes);
    DigitBound(p, Product(v.sizes), k, v.elem);
    DigitSplit(p * v.elem + k, p, k, v.elem);
    OffsetOfTuple(i, v.sizes, v.strides);
  }

  // No two bytes of the dense copy of a nested view stand for the same byte.
  lemma HostByteInjective(v: Layout, c: nat, e: nat)
    requires ValidLayout(v) && AllNatural(v.strides) && Nested(v.sizes, v.strides)
    requires c < DenseBytes(v) && e < DenseBytes(v) && HostByte(v, c) == HostByte(v, e)
    ensures c == e
  {
    DenseIndex(v, c);
    DenseIndex(v, e);
    var p, q := Quot(c, v.elem), Quot(e, v.elem);
    var x, y := OffsetAt(p, v.sizes, v.strides), OffsetAt(q, v.sizes, v.strides);
    DigitSplit(HostByte(v, c) - v.start, x, Rem(c, v.elem), v.elem);
    DigitSplit(HostByte(v, e) - v.start, y, Rem(e, v.elem), v.elem);
    PositionOfTuple(p, v.sizes);
    PositionOfTuple(q, v.sizes);
    OffsetIsLinear(p, v.sizes, v.strides);
    OffsetIsLinear(q, v.sizes, v.strides);
    NestedInjective(TupleAt(p, v.sizes), TupleAt(q, v.sizes), v.sizes, v.strides);
    QuotRem(c, v.elem);
    QuotRem(e, v.elem);
  }
}