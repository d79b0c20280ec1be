// What a host sends for an argument in its own memory (runtime/vx_remote_client.h): the
// bytes of each planned span, and wire arguments that name them. The worker reads the
// same element values, and stays inside the bytes that were sent.
module Carry {
  import opened Strided
  import opened Abi
  import opened Packing
  import opened Plan
  import opened Staging
  import opened Execute
  import opened Redirect
  import opened Wire
  import opened Handles
  import opened Worker
  import opened Agent

  // The argument `a` names byte `at` of `bytes`, kept on the worker at `base`. Its view
  // fits there, and its elements are those of the descriptor `d` in local memory `m`.
  ghost predicate Holding(a: Arg, base: nat, at: nat, bytes: Bytes, m: seq<Byte>, d: Desc) {
    && Sized(a) && |d.sizes| == |d.strides| && a.sizes == d.sizes
    && a.handle == base + at && at < |bytes| && FitsIn(a, |bytes| - at)
    && SameValues(a, at, bytes, m, d)
  }

  ghost predicate SameValues(a: Arg, at: nat, bytes: Bytes, m: seq<Byte>, d: Desc)
    requires Sized(a) && |d.sizes| == |d.strides| && a.sizes == d.sizes
  {
    var b := DtypeBytes(Elem(a.tag));
    forall t, k :: InRange(t, a.sizes) && 0 <= k < b ==> SameByte(a.strides, at, bytes, m, d, b, t, k)
  }

  predicate SameByte(strides: seq<int>, at: nat, bytes: Bytes, m: seq<Byte>, d: Desc, b: int, t: seq<int>, k: int)
    requires |t| == |d.strides| == |strides|
  {
    var x, y := ElementByte(d, b, t, k), at + Linear(t, strides) * b + k;
    0 <= x < |m| && 0 <= y < |bytes| && bytes[y] == m[x]
  }

  // Byte `y` of what was sent stands for the byte of local memory at `hosts[y]`, and the argument and the
  // descriptor reach the same of them.
  ghost predicate SameCells(a: Arg, at: nat, hosts: seq<int>, d: Desc) {
    && Sized(a) && |d.sizes| == |d.strides| && a.sizes == d.sizes
    && CellsOf(a.strides, at, hosts, d, DtypeBytes(Elem(a.tag)))
  }

  ghost predicate CellsOf(strides: seq<int>, at: nat, hosts: seq<int>, d: Desc, b: int)
    requires |d.sizes| == |d.strides| == |strides|
  {
    forall t, k :: InRange(t, d.sizes) && 0 <= k < b ==> IsCell(strides, at, hosts, d, b, t, k)
  }

  predicate IsCell(strides: seq<int>, at: nat, hosts: seq<int>, d: Desc, b: int, t: seq<int>, k: int)
    requires |t| == |d.strides| == |strides|
  {
    var y := at + Linear(t, strides) * b + k; 0 <= y < |hosts| && hosts[y] == ElementByte(d, b, t, k)
  }

  // The rebuilt argument reads, element by element, what the descriptor reads in local memory.
  ghost predicate ReadsAs(heap: map<nat, Bytes>, r: Rebuilt, b: int, m: seq<Byte>, d: Desc) {
    && r.Tensor? && r.remote in heap && r.sizes == d.sizes && |r.strides| == |d.strides| == |d.sizes|
    && forall t, k :: InRange(t, r.sizes) && 0 <= k < b ==>
         SameByte(r.strides, r.offset, heap[r.remote], m, d, b, t, k)
  }

  // On the worker: the argument resolves, fits, and reads the same values.
  ghost predicate ReadsSame(w: State, a: Arg, m: seq<Byte>, d: Desc) {
    && Sized(a)
    && exists r :: NamesView(w.table.regions, a, r) && ReadsAs(w.heap, r, DtypeBytes(Elem(a.tag)), m, d)
  }

  lemma HoldingReads(w: State, a: Arg, base: nat, at: nat, bytes: Bytes, m: seq<Byte>, d: Desc)
    requires Sound(w) && Resident(w, base, bytes) && Holding(a, base, at, bytes, m, d)
    ensures ReadsSame(w, a, m, d)
  {
    hide Inv, FitsIn, Resolve, AllI64, SameByte, DtypeBytes, Elem;
    var i :| 0 <= i < |w.table.regions| && ResidentAt(w, i, base, bytes);
    var rs := w.table.regions;
    ResolveIsLinear(w.table, a.handle);
    assert Contains(rs[i], a.handle);
    assert Resolve(rs, a.handle) == Ref(i, at);
    var r := Tensor(rs[i].remote, at, a.sizes, a.strides);
    assert NamesView(rs, a, r) && ReadsAs(w.heap, r, DtypeBytes(Elem(a.tag)), m, d);
  }

  // ---- The bytes of a span ----

  ghost predicate HostsInside(vs: seq<View>, sp: seq<CopySpan>, descs: seq<Desc>, size: nat) {
    PlanOk(vs, sp, descs) && forall i :: 0 <= i < |vs| && vs[i].bytes > 0 ==> ViewEnd(vs[i]) <= size
  }

  lemma HostInside(vs: seq<View>, sp: seq<CopySpan>, descs: seq<Desc>, size: nat, s: nat, c: nat)
    requires HostsInside(vs, sp, descs, size) && s < |sp| && c < sp[s].bytes
    ensures 0 <= HostsOf(vs, sp, descs, s)[c] < size
  {
    hide PlanOk, HostsOf;
    var x := HostsOf(vs, sp, descs, s)[c];
    HostInHull(vs, sp, descs, s, c);
    var k := HullByteOfView(vs, sp, descs, s, x);
    PlanMeasures(vs, sp, descs);
    MeasuredPlace(vs, descs, k);
  }

  lemma PlanMeasures(vs: seq<View>, sp: seq<CopySpan>, descs: seq<Desc>)
    requires PlanOk(vs, sp, descs)
    ensures GoodDescs(descs) && NamesDescs(vs, descs) && AllMeasured(vs, descs) && SpansName(vs, sp)
  {}

  // `b` is what is sent for span `s`.
  ghost predicate IsContents(vs: seq<View>, sp: seq<CopySpan>, descs: seq<Desc>, m: seq<Byte>, s: nat, b: Bytes)
    requires HostsInside(vs, sp, descs, |m|) && s < |sp|
  {
    && |b| == sp[s].bytes
    && forall c :: 0 <= c < |b| ==> 0 <= HostsOf(vs, sp, descs, s)[c] < |m| && b[c] == m[HostsOf(vs, sp, descs, s)[c]]
  }

  // ---- The argument of a view ----

  // The strides a view travels with.
  function SentStrides(v: View, d: Desc): seq<int> {
    if v.packed then DenseStrides(v.sizes) else d.strides
  }

  lemma ElementCell(vs: seq<View>, sp: seq<CopySpan>, descs: seq<Desc>, i: nat, t: seq<int>, k: nat)
    requires PlanOk(vs, sp, descs) && i < |vs| && vs[i].bytes != 0 && 0 <= vs[i].span < |sp|
    requires InRange(t, descs[vs[i].desc].sizes) && k < DtypeBytes(vs[i].elem)
    ensures var d, hosts := descs[vs[i].desc], HostsOf(vs, sp, descs, vs[i].span);
            && |SentStrides(vs[i], d)| == |t| == |d.strides|
            && var y := vs[i].at + Linear(t, SentStrides(vs[i], d)) * DtypeBytes(vs[i].elem) + k;
               0 <= y < |hosts| && hosts[y] == ElementByte(d, DtypeBytes(vs[i].elem), t, k)
  {
    hide PlanOk, HostsOf, Linear, DenseStrides, ElementByte;
    PlanMeasures(vs, sp, descs);
    if vs[i].packed {
      PackedCell(vs, sp, descs, i, t, k);
      PackedAt(vs, sp, descs, i);
    } else {
      SharedCell(vs, sp, descs, i, t, k);
    }
  }

  // A byte of an element of the view is a byte of what was sent.
  lemma SentElement(vs: seq<View>, sp: seq<CopySpan>, descs: seq<Desc>, m: seq<Byte>, i: nat, b: Bytes, t: seq<int>,
                    k: nat)
    requires HostsInside(vs, sp, descs, |m|) && i < |vs| && vs[i].bytes != 0 && 0 <= vs[i].span < |sp|
    requires IsContents(vs, sp, descs, m, vs[i].span, b)
    requires InRange(t, descs[vs[i].desc].sizes) && k < DtypeBytes(vs[i].elem)
    ensures var d := descs[vs[i].desc];
            && |SentStrides(vs[i], d)| == |t| == |d.strides|
            && var x := ElementByte(d, DtypeBytes(vs[i].elem), t, k);
               var y := vs[i].at + Linear(t, SentStrides(vs[i], d)) * DtypeBytes(vs[i].elem) + k;
               0 <= x < |m| && 0 <= y < |b| && b[y] == m[x]
  {
    hide PlanOk, HostsOf, IsContents, SentStrides, Linear, ElementByte, DtypeBytes;
    PlanMeasures(vs, sp, descs);
    var d := descs[vs[i].desc];
    ElementCell(vs, sp, descs, i, t, k);
    var y := vs[i].at + Linear(t, SentStrides(vs[i], d)) * DtypeBytes(vs[i].elem) + k;
    SentByte(vs, sp, descs, m, vs[i].span, b, y);
  }

  // So the view and its argument reach the same bytes.
  lemma ViewCells(vs: seq<View>, sp: seq<CopySpan>, descs: seq<Desc>, i: nat, a: Arg, hosts: seq<int>)
    requires PlanOk(vs, sp, descs) && i < |vs| && vs[i].bytes != 0 && 0 <= vs[i].span < |sp| && vs[i].at >= 0
    requires vs[i].desc < |descs| && Elem(a.tag) == vs[i].elem && Sized(a) && a.sizes == descs[vs[i].desc].sizes
    requires a.strides == SentStrides(vs[i], descs[vs[i].desc]) && |a.sizes| == |descs[vs[i].desc].strides|
    requires hosts == HostsOf(vs, sp, descs, vs[i].span)
    ensures SameCells(a, vs[i].at, hosts, descs[vs[i].desc])
  {
    hide PlanOk, HostsOf, Elem, AllI64, SentStrides, Linear, ElementByte, DtypeBytes;
    var d, e := descs[vs[i].desc], DtypeBytes(vs[i].elem);
    forall t, k | InRange(t, d.sizes) && 0 <= k < e
      ensures IsCell(a.strides, vs[i].at, hosts, d, e, t, k)
    {
      ElementCell(vs, sp, descs, i, t, k);
    }
  }

  lemma SentByte(vs: seq<View>, sp: seq<CopySpan>, descs: seq<Desc>, m: seq<Byte>, s: nat, b: Bytes, c: int)
    requires HostsInside(vs, sp, descs, |m|) && s < |sp| && IsContents(vs, sp, descs, m, s, b)
    requires 0 <= c < |AllHosts(vs, sp, descs)[s]|
    ensures var x := AllHosts(vs, sp, descs)[s][c]; 0 <= x < |m| && c < |b| && b[c] == m[x]
  {
    hide PlanOk, HostsOf;
  }

  lemma PackedAt(vs: seq<View>, sp: seq<CopySpan>, descs: seq<Desc>, i: nat)
    requires PlanOk(vs, sp, descs) && i < |vs| && vs[i].bytes != 0 && vs[i].packed
    ensures 0 <= vs[i].span < |sp| && vs[i].at == 0 && vs[i].sizes == descs[vs[i].desc].sizes
    ensures sp[vs[i].span].view == i
  {
    assert Seated(vs, sp, descs, i);
  }

  // The span of a dense view is exactly its bytes.
  lemma DenseSpan(sizes: seq<int>, elem: int)
    requires AllPositive(sizes) && DtypeBytes(elem) > 0 && Product(sizes) * DtypeBytes(elem) < TWO_63
    ensures IsSpanOf(sizes, DenseStrides(sizes), elem, SpanBytes(Product(sizes) * DtypeBytes(elem)))
    ensures AllI64(DenseStrides(sizes))
  {
    DenseLast(sizes);
    DenseStridesFit(sizes, elem);
  }

  lemma DenseStridesFit(sizes: seq<int>, elem: int)
    requires AllPositive(sizes) && DtypeBytes(elem) > 0 && Product(sizes) * DtypeBytes(elem) < TWO_63
    ensures AllNatural(DenseStrides(sizes)) && AllI64(DenseStrides(sizes)) && AllNatural(sizes) && !HasZero(sizes)
  {
    forall d | 0 <= d < |sizes|
      ensures 0 <= DenseStrides(sizes)[d] < TWO_63
    {
      hide Product, DtypeBytes;
      assert sizes[..d + 1] + sizes[d + 1..] == sizes;
      ProductConcat(sizes[..d + 1], sizes[d + 1..]);
      ProductPositive(sizes[..d + 1]);
      ProductPositive(sizes[d + 1..]);
      Factor(Product(sizes[..d + 1]), Product(sizes[d + 1..]), DtypeBytes(elem));
    }
  }

  lemma Factor(a: int, b: int, c: int)
    requires a >= 1 && b >= 1 && c >= 1
    ensures b <= a * b * c
  {
    assert a * b >= b;
    assert a * b * c >= a * b;
  }

  lemma DenseLast(sizes: seq<int>)
    requires AllPositive(sizes)
    ensures |DenseStrides(sizes)| == |sizes| && Last(sizes, DenseStrides(sizes)) + 1 == Product(sizes)
  {
    LastReached(sizes, DenseStrides(sizes));
    DenseIsPosition(LastTuple(sizes), sizes);
    LastPosition(sizes);
  }

  lemma {:induction false} LastPosition(sizes: seq<int>)
    requires AllPositive(sizes)
    ensures |LastTuple(sizes)| == |sizes| && Position(LastTuple(sizes), sizes) + 1 == Product(sizes)
  {
    if |sizes| > 0 {
      var n := |sizes| - 1;
      LastPosition(sizes[..n]);
      assert LastTuple(sizes)[..n] == LastTuple(sizes[..n]);
    }
  }

  // A descriptor whose extents the wire can carry for this tag.
  predicate Shippable(d: Desc, tag: nat) {
    && IsU32(tag) && |d.sizes| == |d.strides| == Rank(tag) <= MAX_RANK
    && AllI64(d.sizes) && AllI64(d.strides)
  }

  // The wire argument of a tensor.
  function TensorArg(tag: nat, handle: nat, sizes: seq<int>, strides: seq<int>): Arg {
    Arg(tag, ZEROS, handle, sizes, strides)
  }

  lemma SharedFits(vs: seq<View>, sp: seq<CopySpan>, descs: seq<Desc>, i: nat, tag: nat, handle: nat)
    requires PlanOk(vs, sp, descs) && i < |vs| && vs[i].bytes != 0 && !vs[i].packed
    requires Shippable(descs[vs[i].desc], tag) && Elem(tag) == vs[i].elem && IsU64(handle)
    ensures 0 <= vs[i].span < |sp| && 0 <= vs[i].at < sp[vs[i].span].bytes
    ensures var d := descs[vs[i].desc]; var a := TensorArg(tag, handle, d.sizes, d.strides);
            Sized(a) && FitsIn(a, sp[vs[i].span].bytes - vs[i].at)
  {
    SharedSpan(vs, sp, descs, i);
    assert Seated(vs, sp, descs, i);
    MeasuredPlace(vs, descs, i);
    assert Measured(vs[i], descs[vs[i].desc]);
    hide PlanOk, IsSpanOf;
  }

  lemma PackedFits(vs: seq<View>, sp: seq<CopySpan>, descs: seq<Desc>, i: nat, tag: nat, handle: nat)
    requires PlanOk(vs, sp, descs) && i < |vs| && vs[i].bytes != 0 && vs[i].packed && vs[i].bytes < TWO_63
    requires Shippable(descs[vs[i].desc], tag) && Elem(tag) == vs[i].elem && IsU64(handle)
    ensures 0 <= vs[i].span < |sp| && 0 == vs[i].at < sp[vs[i].span].bytes
    ensures var d := descs[vs[i].desc]; var a := TensorArg(tag, handle, d.sizes, DenseStrides(d.sizes));
            Sized(a) && FitsIn(a, sp[vs[i].span].bytes) && vs[i].sizes == d.sizes
  {
    hide PlanOk;
    PlanMeasures(vs, sp, descs);
    PackedAt(vs, sp, descs, i);
    PackedSize(vs, sp, descs, i);
    DenseSpan(descs[vs[i].desc].sizes, vs[i].elem);
    hide IsSpanOf;
  }

  lemma PackedSize(vs: seq<View>, sp: seq<CopySpan>, descs: seq<Desc>, i: nat)
    requires PlanOk(vs, sp, descs) && i < |vs| && vs[i].bytes != 0 && vs[i].packed && 0 <= vs[i].span < |sp|
    ensures var d := descs[vs[i].desc];
            && AllPositive(d.sizes) && DtypeBytes(vs[i].elem) > 0
            && 0 < sp[vs[i].span].bytes == Product(d.sizes) * DtypeBytes(vs[i].elem) < vs[i].bytes
  {
    PackedAt(vs, sp, descs, i);
    var s, d := vs[i].span, descs[vs[i].desc];
    PackedLayout(vs, sp, descs, s);
    assert SpanRight(vs, sp, descs, s);
    assert WantsDense(vs, descs, s, i);
    hide PlanOk, Nested;
    ProductPositive(d.sizes);
    MulLe(1, Product(d.sizes), DtypeBytes(vs[i].elem));
  }

  // What a view of local memory that reaches any byte is sent as.
  lemma ViewHolding(vs: seq<View>, sp: seq<CopySpan>, descs: seq<Desc>, m: seq<Byte>, i: nat, tag: nat, base: nat,
                    b: Bytes)
    requires HostsInside(vs, sp, descs, |m|) && i < |vs| && vs[i].bytes != 0 && vs[i].bytes < TWO_63
    requires 0 <= vs[i].span < |sp|
    requires IsContents(vs, sp, descs, m, vs[i].span, b)
    requires Shippable(descs[vs[i].desc], tag) && Elem(tag) == vs[i].elem && base + |b| < TWO_64
    ensures vs[i].at >= 0
    ensures var d := descs[vs[i].desc];
            Holding(TensorArg(tag, base + vs[i].at, d.sizes, SentStrides(vs[i], d)), base, vs[i].at, b, m, d)
  {
    hide PlanOk, HostsOf, FitsIn, IsContents, SameValues, SentStrides, Elem;
    PlanMeasures(vs, sp, descs);
    ContentsLength(vs, sp, descs, m, vs[i].span, b);
    FittingView(vs, sp, descs, i, tag, 0);
    FittingView(vs, sp, descs, i, tag, base + vs[i].at);
    SameView(vs, sp, descs, m, i, tag, base + vs[i].at, b);
  }

  lemma FittingView(vs: seq<View>, sp: seq<CopySpan>, descs: seq<Desc>, i: nat, tag: nat, handle: nat)
    requires PlanOk(vs, sp, descs) && i < |vs| && vs[i].bytes != 0 && vs[i].bytes < TWO_63
    requires Shippable(descs[vs[i].desc], tag) && Elem(tag) == vs[i].elem && IsU64(handle)
    ensures 0 <= vs[i].span < |sp| && 0 <= vs[i].at < sp[vs[i].span].bytes
    ensures var d := descs[vs[i].desc]; var a := TensorArg(tag, handle, d.sizes, SentStrides(vs[i], d));
            Sized(a) && FitsIn(a, sp[vs[i].span].bytes - vs[i].at)
  {
    hide PlanOk, FitsIn, Elem, Shippable, Sized;
    if vs[i].packed {
      PackedFits(vs, sp, descs, i, tag, handle);
    } else {
      SharedFits(vs, sp, descs, i, tag, handle);
    }
  }

  lemma SameView(vs: seq<View>, sp: seq<CopySpan>, descs: seq<Desc>, m: seq<Byte>, i: nat, tag: nat, handle: nat,
                 b: Bytes)
    requires HostsInside(vs, sp, descs, |m|) && i < |vs| && vs[i].bytes != 0 && 0 <= vs[i].span < |sp| && vs[i].at >= 0
    requires IsContents(vs, sp, descs, m, vs[i].span, b) && Elem(tag) == vs[i].elem && vs[i].desc < |descs|
    requires var d := descs[vs[i].desc];
             |d.sizes| == |d.strides| && Sized(TensorArg(tag, handle, d.sizes, SentStrides(vs[i], d)))
    ensures var d := descs[vs[i].desc];
            SameValues(TensorArg(tag, handle, d.sizes, SentStrides(vs[i], d)), vs[i].at, b, m, d)
  {
    hide PlanOk, HostsOf, IsContents, SentStrides, Elem, AllI64, Linear, ElementByte, DtypeBytes;
    var d := descs[vs[i].desc];
    var a := TensorArg(tag, handle, d.sizes, SentStrides(vs[i], d));
    var e := DtypeBytes(vs[i].elem);
    assert a.tag == tag && a.strides == SentStrides(vs[i], d) && DtypeBytes(Elem(a.tag)) == e;
    forall t, k | InRange(t, a.sizes) && 0 <= k < e
      ensures SameByte(a.strides, vs[i].at, b, m, d, e, t, k)
    {
      SentElement(vs, sp, descs, m, i, b, t, k);
    }
  }

  lemma ContentsLength(vs: seq<View>, sp: seq<CopySpan>, descs: seq<Desc>, m: seq<Byte>, s: nat, b: Bytes)
    requires HostsInside(vs, sp, descs, |m|) && s < |sp| && IsContents(vs, sp, descs, m, s, b)
    ensures |b| == sp[s].bytes
  {}

  // An empty view is sent as one zero element.
  lemma EmptyHolding(d: Desc, tag: nat, base: nat, b: Bytes, m: seq<Byte>)
    requires Shippable(d, tag) && IsU64(base) && |b| == DtypeBytes(Elem(tag))
    requires IsSpanOf(d.sizes, d.strides, Elem(tag), SpanBytes(0))
    ensures Holding(TensorArg(tag, base, d.sizes, d.strides), base, 0, b, m, d)
  {
    var a := TensorArg(tag, base, d.sizes, d.strides);
    SpanMeaning(d.sizes, d.strides, Elem(tag), 0);
    hide IsSpanOf;
    assert FitsIn(a, |b|);
  }
}
