// A region run on copies of its views, as the CUDA plugin runs one on the host:
// copy every span out, run the kernel on the copies, copy every span back. The
// planned copies are faithful, so memory ends as if the kernel ran in place.
module Execute {
  import opened Strided
  import opened Abi
  import opened Packing
  import opened Blocks
  import opened Overlap
  import opened Plan
  import opened Copying
  import opened Staging

  function LayoutOf(v: View): Layout {
    Layout(v.start, v.sizes, v.strides, DtypeBytes(v.elem))
  }

  lemma DenseBytesNatural(sizes: seq<int>, b: nat)
    requires AllPositive(sizes)
    ensures Product(sizes) * b >= 0
  {
    ProductPositive(sizes);
  }

  // A packed view has the nested layout of its descriptor.
  lemma PackedLayout(vs: seq<View>, sp: seq<CopySpan>, descs: seq<Desc>, s: nat)
    requires PlanOk(vs, sp, descs) && s < |sp|
    ensures sp[s].view >= 0 ==>
              var v := vs[sp[s].view];
              && v.bytes > 0 && v.span == s && v.packed && v.at == 0 && v.start == sp[s].start
              && ValidLayout(LayoutOf(v)) && AllNatural(v.strides) && Nested(v.sizes, v.strides)
              && 0 <= DenseBytes(LayoutOf(v)) == sp[s].bytes
              && v.bytes == (Last(v.sizes, v.strides) + 1) * DtypeBytes(v.elem)
  {
    assert SpanRight(vs, sp, descs, s);
    if sp[s].view >= 0 {
      var w := sp[s].view;
      assert WantsDense(vs, descs, s, w);
      assert Seated(vs, sp, descs, w);
      hide PlanOk, SpanRight, Product, Last, Nested;
      MeasuredNotEmpty(vs[w], descs[vs[w].desc]);
      DenseBytesNatural(vs[w].sizes, DtypeBytes(vs[w].elem));
    }
  }

  lemma SpanStarts(vs: seq<View>, sp: seq<CopySpan>, descs: seq<Desc>, s: nat) returns (i: nat, j: nat)
    requires PlanOk(vs, sp, descs) && s < |sp|
    ensures i < |vs| && vs[i].span == s && vs[i].start == sp[s].start && vs[i].bytes > 0 && vs[i].start >= 0
    ensures j < |vs| && vs[j].span == s && ViewEnd(vs[j]) == sp[s].start + HullBytes(vs, sp, s) && vs[j].bytes > 0
    ensures HullBytes(vs, sp, s) > 0
  {
    assert SpanRight(vs, sp, descs, s);
    i :| i < |vs| && vs[i].span == s && vs[i].start == sp[s].start;
    j :| j < |vs| && vs[j].span == s && ViewEnd(vs[j]) == sp[s].start + HullBytes(vs, sp, s);
    assert Seated(vs, sp, descs, i) && Seated(vs, sp, descs, j);
    MeasuredBytes(vs, descs, i);
    MeasuredBytes(vs, descs, j);
    MeasuredPlace(vs, descs, i);
  }

  lemma HullPositive(vs: seq<View>, sp: seq<CopySpan>, descs: seq<Desc>, s: nat)
    requires PlanOk(vs, sp, descs) && s < |sp|
    ensures HullBytes(vs, sp, s) > 0
  {
    var i, j := SpanStarts(vs, sp, descs, s);
  }

  lemma MeasuredPlace(vs: seq<View>, descs: seq<Desc>, i: nat)
    requires GoodDescs(descs) && NamesDescs(vs, descs) && AllMeasured(vs, descs) && i < |vs| && vs[i].bytes != 0
    ensures vs[i].start >= 0 && vs[i].bytes > 0
  {
    var d := descs[vs[i].desc];
    MeasuredNotEmpty(vs[i], d);
    MulLe(0, d.offset, DtypeBytes(vs[i].elem));
  }

  // The bytes that the copy of span `s` stands for.
  ghost function HostsOf(vs: seq<View>, sp: seq<CopySpan>, descs: seq<Desc>, s: nat): (hosts: seq<int>)
    requires PlanOk(vs, sp, descs) && s < |sp|
    ensures |hosts| == sp[s].bytes
  {
    PackedLayout(vs, sp, descs, s);
    HullPositive(vs, sp, descs, s);
    if sp[s].view < 0 then SpanAddresses(sp[s].start, sp[s].bytes)
    else HostBytes(LayoutOf(vs[sp[s].view]))
  }

  ghost function AllHosts(vs: seq<View>, sp: seq<CopySpan>, descs: seq<Desc>): (hosts: seq<seq<int>>)
    requires PlanOk(vs, sp, descs)
    ensures |hosts| == |sp|
  {
    seq(|sp|, s requires 0 <= s < |sp| => HostsOf(vs, sp, descs, s))
  }

  function Copies(sp: seq<CopySpan>): (r: seq<int>)
    ensures |r| == |sp|
  {
    seq(|sp|, s requires 0 <= s < |sp| => sp[s].copy)
  }

  // The views are in memory, and each copy is a block of its own that no view
  // and no descriptor reaches.
  ghost predicate Allocated(vs: seq<View>, sp: seq<CopySpan>, descs: seq<Desc>, size: nat) {
    && (forall i :: 0 <= i < |vs| && vs[i].bytes > 0 ==> ViewEnd(vs[i]) <= size)
    && (forall s :: 0 <= s < |sp| ==> 0 <= sp[s].copy && sp[s].copy + sp[s].bytes <= size)
    && (forall s, t :: 0 <= s < |sp| && 0 <= t < |sp| && s != t ==>
          sp[s].copy + sp[s].bytes <= sp[t].copy || sp[t].copy + sp[t].bytes <= sp[s].copy)
    && (forall s, i :: 0 <= s < |sp| && 0 <= i < |vs| && vs[i].bytes > 0 ==>
          sp[s].copy + sp[s].bytes <= vs[i].start || ViewEnd(vs[i]) <= sp[s].copy)
    && (forall s, d :: 0 <= s < |sp| && 0 <= d < |descs| ==>
          !(sp[s].copy <= descs[d].aligned < sp[s].copy + sp[s].bytes))
  }

  // A byte that a copy stands for lies in the hull of its span.
  lemma HostInHull(vs: seq<View>, sp: seq<CopySpan>, descs: seq<Desc>, s: nat, c: nat)
    requires PlanOk(vs, sp, descs) && s < |sp| && c < sp[s].bytes
    ensures sp[s].start <= HostsOf(vs, sp, descs, s)[c] < sp[s].start + HullBytes(vs, sp, s)
  {
    PackedLayout(vs, sp, descs, s);
    hide Seated, Grouped, HullsApart, SpanRight, Nested, Last, Product;
    if sp[s].view >= 0 {
      HostByteBound(LayoutOf(vs[sp[s].view]), c);
    }
  }

  // A byte of a hull is a byte of one of the span's views.
  lemma HullByteOfView(vs: seq<View>, sp: seq<CopySpan>, descs: seq<Desc>, s: nat, x: int) returns (k: nat)
    requires PlanOk(vs, sp, descs) && s < |sp| && sp[s].start <= x < sp[s].start + HullBytes(vs, sp, s)
    ensures k < |vs| && vs[k].bytes > 0 && vs[k].start <= x < ViewEnd(vs[k])
  {
    var i, j := SpanStarts(vs, sp, descs, s);
    k := GroupCovers(Extents(vs), i, j, x);
  }

  lemma HostsInjective(vs: seq<View>, sp: seq<CopySpan>, descs: seq<Desc>, s: nat, c: nat, t: nat, e: nat)
    requires PlanOk(vs, sp, descs) && s < |sp| && c < sp[s].bytes && t < |sp| && e < sp[t].bytes
    requires HostsOf(vs, sp, descs, s)[c] == HostsOf(vs, sp, descs, t)[e]
    ensures s == t && c == e
  {
    HostInHull(vs, sp, descs, s, c);
    HostInHull(vs, sp, descs, t, e);
    if s == t {
      PackedLayout(vs, sp, descs, s);
      if sp[s].view >= 0 {
        HostByteInjective(LayoutOf(vs[sp[s].view]), c, e);
      }
    }
  }

  lemma HostPlace(vs: seq<View>, sp: seq<CopySpan>, descs: seq<Desc>, size: nat, s: nat, c: nat)
    requires PlanOk(vs, sp, descs) && Allocated(vs, sp, descs, size) && s < |sp| && c < sp[s].bytes
    ensures 0 <= HostsOf(vs, sp, descs, s)[c] < size
    ensures !InAnyBlock(AllHosts(vs, sp, descs), Copies(sp), HostsOf(vs, sp, descs, s)[c])
  {
    var x := HostsOf(vs, sp, descs, s)[c];
    HostInHull(vs, sp, descs, s, c);
    var k := HullByteOfView(vs, sp, descs, s, x);
    MeasuredPlace(vs, descs, k);
  }

  // The planned copies are faithful.
  lemma PlannedIsFaithful(vs: seq<View>, sp: seq<CopySpan>, descs: seq<Desc>, size: nat)
    requires PlanOk(vs, sp, descs) && Allocated(vs, sp, descs, size)
    ensures Faithful(AllHosts(vs, sp, descs), Copies(sp), size)
  {
    hide PlanOk, HostsOf;
    var hosts, copies := AllHosts(vs, sp, descs), Copies(sp);
    forall s, c | 0 <= s < |hosts| && 0 <= c < |hosts[s]|
      ensures 0 <= hosts[s][c] < size && !InAnyBlock(hosts, copies, hosts[s][c])
    {
      HostPlace(vs, sp, descs, size, s, c);
    }
    forall s, c, t, e | 0 <= s < |hosts| && 0 <= c < |hosts[s]| && 0 <= t < |hosts| && 0 <= e < |hosts[t]|
      ensures hosts[s][c] == hosts[t][e] ==> s == t && c == e
    {
      if hosts[s][c] == hosts[t][e] {
        HostsInjective(vs, sp, descs, s, c, t, e);
      }
    }
  }
}
