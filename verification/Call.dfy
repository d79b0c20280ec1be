// A whole call of a region on the host, from views that are not planned yet to descriptors that are
// given back. The region may rewrite the descriptors it was given, which publishes views of its
// tensors.
module Call {
  import opened Strided
  import opened Abi
  import opened Packing
  import opened Plan
  import opened Staging
  import opened Execute
  import opened Unpack
  import opened Redirect
  import opened Region
  import opened Published

  // ---- What a region publishes ----

  // What a region leaves in the descriptors, from the bytes it has seen and the descriptors it was
  // given. A rank is part of an argument's type, and stays.
  type Publisher = (seq<Byte>, seq<Desc>) -> seq<Desc>

  ghost predicate KeepsRanks(publish: Publisher) {
    forall seen, ds :: SameRanks(ds, publish(seen, ds))
  }

  predicate SameRanks(ds: seq<Desc>, ds': seq<Desc>) {
    |ds'| == |ds| && forall x :: 0 <= x < |ds| && |ds[x].sizes| == |ds[x].strides| ==>
      |ds'[x].sizes| == |ds'[x].strides| == |ds[x].sizes|
  }

  // `d` names elements of `of`: its tuple `t` is the tuple `u(t)` of `of`.
  ghost predicate SubView(d: Desc, of: Desc, b: int, u: seq<int> -> seq<int>) {
    && |d.sizes| == |d.strides| && |of.sizes| == |of.strides| && d.aligned == of.aligned
    && forall t :: InRange(t, d.sizes) ==> NamesSame(d, of, b, t, u(t))
  }

  ghost predicate NamesSame(d: Desc, of: Desc, b: int, t: seq<int>, s: seq<int>)
    requires InRange(t, d.sizes) && |d.sizes| == |d.strides| && |of.sizes| == |of.strides|
  {
    InRange(s, of.sizes) && forall k :: 0 <= k < b ==> ElementByte(d, b, t, k) == ElementByte(of, b, s, k)
  }

  // The region publishes in descriptor `x` the same elements of view `v`, in place and on the copies.
  // `in0` and `in1` are the descriptors it is given, `out0` and `out1` those it leaves.
  ghost predicate PublishesView(vs: seq<View>, in0: seq<Desc>, in1: seq<Desc>, out0: seq<Desc>, out1: seq<Desc>, x: nat,
                                v: nat, u: seq<int> -> seq<int>)
    requires NamesDescs(vs, in0) && |in1| == |in0| && |out0| == |out1| == |in0|
  {
    && x < |in0| && HasElements(vs, in0, v) && out1[x].sizes == out0[x].sizes
    && SubView(out0[x], in0[vs[v].desc], DtypeBytes(vs[v].elem), u)
    && SubView(out1[x], in1[vs[v].desc], DtypeBytes(vs[v].elem), u)
  }

  // What must hold for the restored descriptor to reach what the one published in place does. `d` is
  // the descriptor the region leaves in place `x`.
  ghost predicate ComesBack(vs: seq<View>, descs: seq<Desc>, v: nat, x: nat, d: Desc)
    requires NamesDescs(vs, descs) && HasElements(vs, descs, v)
  {
    if !vs[v].packed then GivesBack(vs, descs, v) || forall t :: !InRange(t, d.sizes)
    else vs[v].desc == x && d.offset == 0 ==>
      && |vs[v].sizes| == |vs[v].strides| == |d.sizes| == |d.strides| && AllPositive(vs[v].sizes)
      && OwnBranchExact(vs[v].sizes, vs[v].strides, d.sizes, d.strides)
  }

  // Before the restore: the views and descriptors of a planned call, `vs0` and `ds0`, and the ones on
  // the copies, `vs` and `ds1`.
  ghost predicate OnCopies(vs0: seq<View>, vs: seq<View>, sp: seq<CopySpan>, ds0: seq<Desc>, ds1: seq<Desc>,
                           size: nat) {
    && PlanOk(vs0, sp, ds0) && OnePlace(vs0, ds0) && Allocated(vs0, sp, ds0, size)
    && Pointed(vs0, vs, sp, ds0, ds1, |vs0|)
  }

  // The descriptor of a view, and the first view at its address.
  lemma OnCopiesAt(vs0: seq<View>, vs: seq<View>, sp: seq<CopySpan>, ds0: seq<Desc>, ds1: seq<Desc>, size: nat, v: nat)
    returns (f: nat)
    requires OnCopies(vs0, vs, sp, ds0, ds1, size) && HasElements(vs0, ds0, v)
    ensures |vs| == |vs0| && 0 <= vs0[v].span < |sp| && vs0[v].bytes != 0 && DtypeBytes(vs0[v].elem) >= 1
    ensures vs0[v].desc < |ds0| && |ds0[vs0[v].desc].sizes| == |ds0[vs0[v].desc].strides|
    ensures |ds1| == |ds0| && ds1[vs0[v].desc] == Redirected(vs0[v], ds0[vs0[v].desc], sp)
    ensures f == FirstOf(vs0, ds0, v) == FirstAt(vs, sp, AtOf(vs0[v], sp), 0, |vs|)
    ensures vs0[f].span == vs0[v].span && AtOf(vs0[f], sp) == AtOf(vs0[v], sp)
    ensures SavedFrom(vs0[f], vs[f]) && Saves(vs[f], ds0[vs0[f].desc])
    ensures (!vs0[v].packed && !vs0[f].packed) || (v == f && vs0[f].packed)
  {
    ElementsSpan(vs0, sp, ds0, v);
    FirstAgrees(vs0, sp, ds0, size, v);
    FirstAtSaved(vs0, vs, sp, AtOf(vs0[v], sp), 0);
    f := FirstOf(vs0, ds0, v);
    FirstSaves(vs0, vs, sp, ds0, ds1, f);
    SharedOrAlone(vs0, sp, ds0, size, v, f);
    SameAtSameStart(vs0, sp, ds0, size, v, f);
    AtInBlock(vs0, sp, ds0, v);
    MeasuredNotEmpty(vs0[v], ds0[vs0[v].desc]);
  }

  // ---- Shared copies ----

  // The copy of element `s` of view `v`, and the byte of the copy it is at.
  lemma SharedPlace(vs0: seq<View>, vs: seq<View>, sp: seq<CopySpan>, ds0: seq<Desc>, ds1: seq<Desc>, size: nat, v: nat,
                    s: seq<int>, k: nat, x: int)
    requires OnCopies(vs0, vs, sp, ds0, ds1, size) && HasElements(vs0, ds0, v) && !vs0[v].packed
    requires InRange(s, ds0[vs0[v].desc].sizes) && k < DtypeBytes(vs0[v].elem)
    ensures 0 <= vs0[v].span < |sp| && |ds1[vs0[v].desc].strides| == |s|
    ensures var b, copy := DtypeBytes(vs0[v].elem), sp[vs0[v].span].copy;
            var y := ElementByte(ds1[vs0[v].desc], b, s, k);
            && 0 <= y - copy < sp[vs0[v].span].bytes
            && (Cell(AllHosts(vs0, sp, ds0), Copies(sp), vs0[v].span, y - copy, x, y)
                <==> x == ElementByte(ds0[vs0[v].desc], b, s, k))
  {
    hide PlanOk, Allocated, Pointed, AllHosts, OnePlace, FirstOf, ElementByte, Cell;
    var f := OnCopiesAt(vs0, vs, sp, ds0, ds1, size, v);
    SharedCell(vs0, sp, ds0, v, s, k);
    HostsLength(vs0, sp, ds0, vs0[v].span);
    var b, x0 := DtypeBytes(vs0[v].elem), vs0[v].desc;
    var c := vs0[v].at + Linear(s, ds0[x0].strides) * b + k;
    CellAt(AllHosts(vs0, sp, ds0), Copies(sp), vs0[v].span, c, ElementByte(ds0[x0], b, s, k),
           ElementByte(ds1[x0], b, s, k), x);
  }

  // A byte of a copy stands for one byte.
  lemma CellAt(hosts: seq<seq<int>>, copies: seq<int>, s: int, c: int, x: int, y: int, z: int)
    requires |hosts| == |copies| && Cell(hosts, copies, s, c, x, y)
    ensures 0 <= s < |hosts| && 0 <= y - copies[s] < |hosts[s]|
    ensures Cell(hosts, copies, s, y - copies[s], z, y) <==> z == x
  {}

  lemma HostsLength(vs: seq<View>, sp: seq<CopySpan>, descs: seq<Desc>, s: nat)
    requires PlanOk(vs, sp, descs) && s < |sp|
    ensures |AllHosts(vs, sp, descs)[s]| == sp[s].bytes && Copies(sp)[s] == sp[s].copy
  {
    HullPositive(vs, sp, descs, s);
    PackedLayout(vs, sp, descs, s);
  }

  // One element of a published descriptor, restored.
  lemma SharedElement(vs0: seq<View>, vs: seq<View>, sp: seq<CopySpan>, ds0: seq<Desc>, ds1: seq<Desc>, size: nat,
                      v: nat, own: bool, d: Desc, d': Desc, t: seq<int>, s: seq<int>, k: nat)
    requires OnCopies(vs0, vs, sp, ds0, ds1, size) && HasElements(vs0, ds0, v) && !vs0[v].packed
    requires |d.sizes| == |d.strides| && d.aligned == ds1[vs0[v].desc].aligned
    requires RestoredBy(vs[FirstOf(vs0, ds0, v)], own, d, d')
    requires |ds1[vs0[v].desc].sizes| == |ds1[vs0[v].desc].strides|
    requires InRange(t, d.sizes) && InRange(s, ds0[vs0[v].desc].sizes) && InRange(s, ds1[vs0[v].desc].sizes)
    requires k < DtypeBytes(vs0[v].elem)
    requires ElementByte(d, DtypeBytes(vs0[v].elem), t, k) ==
             ElementByte(ds1[vs0[v].desc], DtypeBytes(vs0[v].elem), s, k)
    ensures var b := DtypeBytes(vs0[v].elem);
            ElementByte(d', b, t, k) == ElementByte(ds0[vs0[v].desc], b, s, k) <==> GivesBack(vs0, ds0, v)
  {
    hide AllHosts, PlanOk, Allocated, Pointed, OnePlace, FirstOf;
    var f := OnCopiesAt(vs0, vs, sp, ds0, ds1, size, v);
    SharedPlace(vs0, vs, sp, ds0, ds1, size, v, s, k, ElementByte(d', DtypeBytes(vs0[v].elem), t, k));
    assert RestoredFrom(vs0, vs, sp, ds0, f, d);
    hide ElementByte, RestoredBy, Cell;
    PublishedShared(vs0, vs, sp, ds0, f, own, d, d', DtypeBytes(vs0[v].elem), t, k);
  }

  // A view published from a shared copy.
  lemma SharedComesBack(vs0: seq<View>, vs: seq<View>, sp: seq<CopySpan>, ds0: seq<Desc>, ds1: seq<Desc>, size: nat,
                        v: nat, own: bool, p: Desc, d: Desc, d': Desc, u: seq<int> -> seq<int>)
    requires OnCopies(vs0, vs, sp, ds0, ds1, size) && HasElements(vs0, ds0, v) && !vs0[v].packed
    requires d.sizes == p.sizes && RestoredBy(vs[FirstOf(vs0, ds0, v)], own, d, d')
    requires SubView(p, ds0[vs0[v].desc], DtypeBytes(vs0[v].elem), u)
    requires SubView(d, ds1[vs0[v].desc], DtypeBytes(vs0[v].elem), u)
    ensures SameReach(p, d', DtypeBytes(vs0[v].elem)) <==> GivesBack(vs0, ds0, v) || forall t :: !InRange(t, d.sizes)
  {
    var b, back := DtypeBytes(vs0[v].elem), GivesBack(vs0, ds0, v);
    hide PlanOk, Allocated, Pointed, OnePlace, FirstOf, OnCopies, GivesBack, ElementByte, RestoredBy, SubView;
    var f := OnCopiesAt(vs0, vs, sp, ds0, ds1, size, v);
    RestoredShape(vs[f], own, d, d');
    SubViewShape(p, ds0[vs0[v].desc], b, u);
    forall t, k: nat | InRange(t, p.sizes) && k < b
      ensures ElementByte(d', b, t, k) == ElementByte(p, b, t, k) <==> back
    {
      SharedNamed(vs0, vs, sp, ds0, ds1, size, v, own, p, d, d', u, t, k);
    }
    if t :| InRange(t, d.sizes) {
      var k: nat := 0;
      assert InRange(t, p.sizes) && k < b;
      assert SameReach(p, d', b) ==> ElementByte(d', b, t, k) == ElementByte(p, b, t, k);
    }
  }

  lemma RestoredShape(v: View, own: bool, d: Desc, d': Desc)
    requires RestoredBy(v, own, d, d')
    ensures d'.sizes == d.sizes && |d'.strides| == |d.strides|
  {}

  lemma SubViewShape(d: Desc, of: Desc, b: int, u: seq<int> -> seq<int>)
    requires SubView(d, of, b, u)
    ensures |d.sizes| == |d.strides| && |of.sizes| == |of.strides| && d.aligned == of.aligned
  {}

  lemma SubViewNames(d: Desc, of: Desc, b: int, u: seq<int> -> seq<int>, t: seq<int>, k: nat)
    requires SubView(d, of, b, u) && InRange(t, d.sizes) && k < b
    ensures InRange(u(t), of.sizes) && |d.sizes| == |d.strides| && |of.sizes| == |of.strides|
    ensures ElementByte(d, b, t, k) == ElementByte(of, b, u(t), k)
  {
    assert NamesSame(d, of, b, t, u(t));
  }

  lemma SharedNamed(vs0: seq<View>, vs: seq<View>, sp: seq<CopySpan>, ds0: seq<Desc>, ds1: seq<Desc>, size: nat, v: nat,
                    own: bool, p: Desc, d: Desc, d': Desc, u: seq<int> -> seq<int>, t: seq<int>, k: nat)
    requires OnCopies(vs0, vs, sp, ds0, ds1, size) && HasElements(vs0, ds0, v) && !vs0[v].packed
    requires d.sizes == p.sizes && RestoredBy(vs[FirstOf(vs0, ds0, v)], own, d, d')
    requires SubView(p, ds0[vs0[v].desc], DtypeBytes(vs0[v].elem), u)
    requires SubView(d, ds1[vs0[v].desc], DtypeBytes(vs0[v].elem), u)
    requires InRange(t, p.sizes) && k < DtypeBytes(vs0[v].elem)
    ensures |t| == |p.strides| == |d'.strides|
    ensures ElementByte(d', DtypeBytes(vs0[v].elem), t, k) == ElementByte(p, DtypeBytes(vs0[v].elem), t, k)
            <==> GivesBack(vs0, ds0, v)
  {
    var b := DtypeBytes(vs0[v].elem);
    SubViewNames(p, ds0[vs0[v].desc], b, u, t, k);
    SubViewNames(d, ds1[vs0[v].desc], b, u, t, k);
    SubViewShape(d, ds1[vs0[v].desc], b, u);
    RestoredShape(vs[FirstOf(vs0, ds0, v)], own, d, d');
    SharedElement(vs0, vs, sp, ds0, ds1, size, v, own, d, d', t, u(t), k);
  }

  // ---- Dense copies ----

  // The copy of element `s` of a packed view stands for that element only.
  lemma PackedPlace(vs0: seq<View>, vs: seq<View>, sp: seq<CopySpan>, ds0: seq<Desc>, ds1: seq<Desc>, size: nat, v: nat,
                    s: seq<int>, k: nat, c: int, x: int)
    requires OnCopies(vs0, vs, sp, ds0, ds1, size) && HasElements(vs0, ds0, v) && vs0[v].packed
    requires InRange(s, ds0[vs0[v].desc].sizes) && k < DtypeBytes(vs0[v].elem)
    ensures 0 <= vs0[v].span < |sp| && |ds1[vs0[v].desc].strides| == |s|
    ensures var b := DtypeBytes(vs0[v].elem);
            Cell(AllHosts(vs0, sp, ds0), Copies(sp), vs0[v].span, c, x, ElementByte(ds1[vs0[v].desc], b, s, k)) ==>
              x == ElementByte(ds0[vs0[v].desc], b, s, k)
  {
    hide PlanOk, Allocated, Pointed, AllHosts, OnePlace, FirstOf, ElementByte;
    var f := OnCopiesAt(vs0, vs, sp, ds0, ds1, size, v);
    PackedCell(vs0, sp, ds0, v, s, k);
  }

  // The layout of a packed view.
  lemma PackedKnown(vs0: seq<View>, vs: seq<View>, sp: seq<CopySpan>, ds0: seq<Desc>, ds1: seq<Desc>, size: nat, v: nat)
    requires OnCopies(vs0, vs, sp, ds0, ds1, size) && HasElements(vs0, ds0, v) && vs0[v].packed
    ensures |vs0[v].sizes| == |vs0[v].strides| && AllPositive(vs0[v].sizes)
    ensures vs0[v].sizes == ds0[vs0[v].desc].sizes && 0 <= vs0[v].span < |sp|
    ensures vs0[v].start == ds0[vs0[v].desc].aligned + ds0[vs0[v].desc].offset * DtypeBytes(vs0[v].elem)
    ensures ds1[vs0[v].desc].aligned == AtOf(vs0[v], sp) && Nested(vs0[v].sizes, vs0[v].strides)
  {
    var f := OnCopiesAt(vs0, vs, sp, ds0, ds1, size, v);
    PackedStart(vs0, sp, ds0, v);
    assert Seated(vs0, sp, ds0, v);
    PackedLayout(vs0, sp, ds0, vs0[v].span);
  }

  // A view published from a dense copy, unless it is in the view's own descriptor at offset 0.
  lemma PackedNamed(vs0: seq<View>, vs: seq<View>, sp: seq<CopySpan>, ds0: seq<Desc>, ds1: seq<Desc>, size: nat, v: nat,
                    own: bool, p: Desc, d: Desc, d': Desc, u: seq<int> -> seq<int>, t: seq<int>, k: nat)
    requires OnCopies(vs0, vs, sp, ds0, ds1, size) && HasElements(vs0, ds0, v) && vs0[v].packed
    requires d.sizes == p.sizes && |vs| == |vs0| && RestoredBy(vs[v], own, d, d') && !(own && d.offset == 0)
    requires SubView(p, ds0[vs0[v].desc], DtypeBytes(vs0[v].elem), u)
    requires SubView(d, ds1[vs0[v].desc], DtypeBytes(vs0[v].elem), u)
    requires InRange(t, p.sizes) && k < DtypeBytes(vs0[v].elem)
    ensures |t| == |p.strides| == |d'.strides|
    ensures ElementByte(d', DtypeBytes(vs0[v].elem), t, k) == ElementByte(p, DtypeBytes(vs0[v].elem), t, k)
  {
    hide PlanOk, Allocated, Pointed, AllHosts, OnePlace, FirstOf, ElementByte, Cell, RestoredBy, SubView;
    var b, y := DtypeBytes(vs0[v].elem), vs0[v].desc;
    var f := OnCopiesAt(vs0, vs, sp, ds0, ds1, size, v);
    SubViewNames(p, ds0[y], b, u, t, k);
    SubViewNames(d, ds1[y], b, u, t, k);
    SubViewShape(d, ds1[y], b, u);
    RestoredShape(vs[v], own, d, d');
    assert RestoredFrom(vs0, vs, sp, ds0, v, d);
    PublishedPacked(vs0, vs, sp, ds0, v, own, d, d', t, k);
    PackedPlace(vs0, vs, sp, ds0, ds1, size, v, u(t), k, (d.offset + Linear(t, d.strides)) * b + k,
                ElementByte(d', b, t, k));
  }

  // In the view's own descriptor at offset 0: the restore gives it the view's own strides.
  lemma OwnNamed(vs0: seq<View>, vs: seq<View>, sp: seq<CopySpan>, ds0: seq<Desc>, ds1: seq<Desc>, size: nat, v: nat,
                 p: Desc, d: Desc, d': Desc, u: seq<int> -> seq<int>, t: seq<int>, k: nat)
    requires OnCopies(vs0, vs, sp, ds0, ds1, size) && HasElements(vs0, ds0, v) && vs0[v].packed
    requires d.sizes == p.sizes && |vs| == |vs0| && RestoredBy(vs[v], true, d, d') && d.offset == 0
    requires |vs0[v].strides| == |vs0[v].sizes| == |d.sizes| && AllPositive(vs0[v].sizes)
    requires SubView(p, ds0[vs0[v].desc], DtypeBytes(vs0[v].elem), u)
    requires SubView(d, ds1[vs0[v].desc], DtypeBytes(vs0[v].elem), u)
    requires InRange(t, p.sizes) && k < DtypeBytes(vs0[v].elem)
    ensures |t| == |p.strides| == |d'.strides| == |d.strides| == |vs0[v].strides|
    ensures 0 <= Linear(t, d.strides) < Product(vs0[v].sizes)
    ensures ElementByte(d', DtypeBytes(vs0[v].elem), t, k) == ElementByte(p, DtypeBytes(vs0[v].elem), t, k)
       <==> Linear(t, vs0[v].strides) == OffsetAt(Linear(t, d.strides), vs0[v].sizes, vs0[v].strides)
  {
    hide PlanOk, Allocated, Pointed, AllHosts, OnePlace, FirstOf, Cell, SubView, Product, Linear, OffsetAt;
    var b, y := DtypeBytes(vs0[v].elem), vs0[v].desc;
    var f := OnCopiesAt(vs0, vs, sp, ds0, ds1, size, v);
    PackedKnown(vs0, vs, sp, ds0, ds1, size, v);
    SubViewNames(p, ds0[y], b, u, t, k);
    SubViewNames(d, ds1[y], b, u, t, k);
    SubViewShape(d, ds1[y], b, u);
    var l := Linear(t, d.strides);
    DensePlace(vs0, vs, sp, ds0, ds1, size, v, u(t), l, k);
    PackedElement(vs0, sp, ds0, v, l, k, l * b + k);
    var o := OffsetAt(l, vs0[v].sizes, vs0[v].strides);
    PackedPlace(vs0, vs, sp, ds0, ds1, size, v, u(t), k, l * b + k, vs0[v].start + o * b + k);
    ElementSum(vs[v].aligned, vs[v].offset, Linear(t, vs0[v].strides), b);
    OffsetsEqual(Linear(t, vs0[v].strides), o, b);
  }

  lemma OffsetsEqual(l: int, o: int, b: int)
    requires b >= 1
    ensures l * b == o * b <==> l == o
  {}

  // An address in the dense copy of a view is that of one dense position.
  lemma DensePlace(vs0: seq<View>, vs: seq<View>, sp: seq<CopySpan>, ds0: seq<Desc>, ds1: seq<Desc>, size: nat, v: nat,
                   s: seq<int>, l: int, k: nat)
    requires OnCopies(vs0, vs, sp, ds0, ds1, size) && HasElements(vs0, ds0, v) && vs0[v].packed
    requires InRange(s, ds0[vs0[v].desc].sizes) && k < DtypeBytes(vs0[v].elem)
    requires |ds1[vs0[v].desc].strides| == |s|
    requires ds1[vs0[v].desc].aligned + l * DtypeBytes(vs0[v].elem) + k
          == ElementByte(ds1[vs0[v].desc], DtypeBytes(vs0[v].elem), s, k)
    ensures 0 <= l < Product(vs0[v].sizes)
  {
    hide PlanOk, Allocated, Pointed, OnePlace, FirstOf, Product, Linear, Nested;
    var b, y := DtypeBytes(vs0[v].elem), vs0[v].desc;
    var f := OnCopiesAt(vs0, vs, sp, ds0, ds1, size, v);
    PackedKnown(vs0, vs, sp, ds0, ds1, size, v);
    DenseIsPosition(s, vs0[v].sizes);
    PositionBound(s, vs0[v].sizes);
    OffsetsEqual(l, Linear(s, DenseStrides(vs0[v].sizes)), b);
  }

  lemma PackedComesBack(vs0: seq<View>, vs: seq<View>, sp: seq<CopySpan>, ds0: seq<Desc>, ds1: seq<Desc>, size: nat,
                        v: nat, own: bool, p: Desc, d: Desc, d': Desc, u: seq<int> -> seq<int>)
    requires OnCopies(vs0, vs, sp, ds0, ds1, size) && HasElements(vs0, ds0, v) && vs0[v].packed
    requires d.sizes == p.sizes && |vs| == |vs0| && RestoredBy(vs[v], own, d, d') && !(own && d.offset == 0)
    requires SubView(p, ds0[vs0[v].desc], DtypeBytes(vs0[v].elem), u)
    requires SubView(d, ds1[vs0[v].desc], DtypeBytes(vs0[v].elem), u)
    ensures SameReach(p, d', DtypeBytes(vs0[v].elem))
  {
    hide OnCopies, RestoredBy, SubView, ElementByte, FirstOf;
    var f := OnCopiesAt(vs0, vs, sp, ds0, ds1, size, v);
    SubViewShape(p, ds0[vs0[v].desc], DtypeBytes(vs0[v].elem), u);
    SubViewShape(d, ds1[vs0[v].desc], DtypeBytes(vs0[v].elem), u);
    RestoredShape(vs[v], own, d, d');
    forall t, k: nat | InRange(t, p.sizes) && k < DtypeBytes(vs0[v].elem)
      ensures ElementByte(d', DtypeBytes(vs0[v].elem), t, k) == ElementByte(p, DtypeBytes(vs0[v].elem), t, k)
    {
      PackedNamed(vs0, vs, sp, ds0, ds1, size, v, own, p, d, d', u, t, k);
    }
  }

  lemma OwnComesBack(vs0: seq<View>, vs: seq<View>, sp: seq<CopySpan>, ds0: seq<Desc>, ds1: seq<Desc>, size: nat,
                     v: nat, p: Desc, d: Desc, d': Desc, u: seq<int> -> seq<int>)
    requires OnCopies(vs0, vs, sp, ds0, ds1, size) && HasElements(vs0, ds0, v) && vs0[v].packed
    requires d.sizes == p.sizes && |vs| == |vs0| && RestoredBy(vs[v], true, d, d') && d.offset == 0
    requires |vs0[v].strides| == |vs0[v].sizes| == |d.sizes| && AllPositive(vs0[v].sizes)
    requires DtypeBytes(vs0[v].elem) >= 1
    requires SubView(p, ds0[vs0[v].desc], DtypeBytes(vs0[v].elem), u)
    requires SubView(d, ds1[vs0[v].desc], DtypeBytes(vs0[v].elem), u)
    ensures |d.strides| == |d.sizes|
    ensures SameReach(p, d', DtypeBytes(vs0[v].elem))
       <==> OwnBranchExact(vs0[v].sizes, vs0[v].strides, d.sizes, d.strides)
  {
    var b := DtypeBytes(vs0[v].elem);
    hide OnCopies, RestoredBy, SubView, ElementByte, Linear, OffsetAt, Product;
    SubViewShape(p, ds0[vs0[v].desc], b, u);
    SubViewShape(d, ds1[vs0[v].desc], b, u);
    RestoredShape(vs[v], true, d, d');
    forall t, k: nat | InRange(t, p.sizes) && k < b
      ensures 0 <= Linear(t, d.strides) < Product(vs0[v].sizes)
      ensures ElementByte(d', b, t, k) == ElementByte(p, b, t, k)
         <==> Linear(t, vs0[v].strides) == OffsetAt(Linear(t, d.strides), vs0[v].sizes, vs0[v].strides)
    {
      OwnNamed(vs0, vs, sp, ds0, ds1, size, v, p, d, d', u, t, k);
    }
    if SameReach(p, d', b) {
      forall t | InRange(t, d.sizes)
        ensures 0 <= Linear(t, d.strides) < Product(vs0[v].sizes)
        ensures Linear(t, vs0[v].strides) == OffsetAt(Linear(t, d.strides), vs0[v].sizes, vs0[v].strides)
      {
        var k: nat := 0;
        assert InRange(t, p.sizes) && k < b;
        assert ElementByte(d', b, t, k) == ElementByte(p, b, t, k);
      }
    }
  }

  // What a region publishes comes back as published in place exactly when ComesBack holds.
  lemma PublicationComesBack(vs0: seq<View>, vs: seq<View>, sp: seq<CopySpan>, ds0: seq<Desc>, ds1: seq<Desc>,
                             size: nat, out0: seq<Desc>, out1: seq<Desc>, ds2: seq<Desc>, x: nat, v: nat,
                             u: seq<int> -> seq<int>)
    requires OnCopies(vs0, vs, sp, ds0, ds1, size) && NamesDescs(vs0, ds0)
    requires |ds1| == |out0| == |out1| == |ds2| == |ds0| && SameRanks(ds1, out1)
    requires PublishesView(vs0, ds0, ds1, out0, out1, x, v, u) && RestoredUpTo(vs, sp, out1, ds2, x, |vs|)
    ensures SameReach(out0[x], ds2[x], DtypeBytes(vs0[v].elem)) <==> ComesBack(vs0, ds0, v, x, out1[x])
  {
    var b, y := DtypeBytes(vs0[v].elem), vs0[v].desc;
    var f := OnCopiesAt(vs0, vs, sp, ds0, ds1, size, v);
    SubViewShape(out1[x], ds1[y], b, u);
    assert RestoredBy(vs[f], vs0[f].desc == x, out1[x], ds2[x]);
    hide OnCopies, RestoredBy, SubView, RestoredUpTo, FirstOf, GivesBack, SameReach, OwnBranchExact;
    if !vs0[v].packed {
      SharedComesBack(vs0, vs, sp, ds0, ds1, size, v, vs0[f].desc == x, out0[x], out1[x], ds2[x], u);
    } else {
      PackedKnown(vs0, vs, sp, ds0, ds1, size, v);
      if y == x && out1[x].offset == 0 {
        OwnComesBack(vs0, vs, sp, ds0, ds1, size, v, out0[x], out1[x], ds2[x], u);
      } else {
        PackedComesBack(vs0, vs, sp, ds0, ds1, size, v, y == x, out0[x], out1[x], ds2[x], u);
      }
    }
  }

  // In the view's own descriptor: a part of the view with its dimensions in any order comes back exactly
  // when each dimension of more than one element goes where the view has the same stride.
  lemma OwnPartComesBack(vs: seq<View>, descs: seq<Desc>, v: nat, d: Desc, at: seq<nat>)
    requires NamesDescs(vs, descs) && HasElements(vs, descs, v) && vs[v].packed && d.offset == 0
    requires |vs[v].sizes| == |vs[v].strides| == |d.sizes| == |d.strides| && AllPositive(vs[v].sizes)
    requires Rearranges(at, vs[v].sizes, d.sizes, d.strides)
    ensures ComesBack(vs, descs, v, vs[v].desc, d)
       <==> forall k :: 0 <= k < |d.sizes| && d.sizes[k] > 1 ==> vs[v].strides[k] == vs[v].strides[at[k]]
  {
    hide OwnBranchExact;
    OwnBranchRearranged(at, vs[v].sizes, vs[v].strides, d.sizes, d.strides);
  }

  // ---- The whole call ----

  // The spans with the blocks that the allocator gave for them.
  function WithCopies(sp: seq<CopySpan>, blocks: seq<int>): (r: seq<CopySpan>)
    requires |blocks| == |sp|
    ensures |r| == |sp|
  {
    seq(|sp|, s requires 0 <= s < |sp| => sp[s].(copy := blocks[s]))
  }

  // An allocator gives each span of a plan a block of its own.
  ghost predicate GivesBlocks(alloc: seq<CopySpan> -> seq<int>, views: seq<View>, descs: seq<Desc>, size: nat) {
    forall vs, sp :: SameInputs(views, vs) && PlanOk(vs, sp, descs) ==>
      |alloc(sp)| == |sp| && Allocated(vs, WithCopies(sp, alloc(sp)), descs, size)
  }

  lemma CopiesKeepPlan(vs: seq<View>, sp: seq<CopySpan>, descs: seq<Desc>, blocks: seq<int>)
    requires PlanOk(vs, sp, descs) && |blocks| == |sp|
    ensures PlanOk(vs, WithCopies(sp, blocks), descs)
  {
    var sp' := WithCopies(sp, blocks);
    assert forall s :: 0 <= s < |sp| ==>
             HullBytes(vs, sp', s) == HullBytes(vs, sp, s) && sp'[s] == sp[s].(copy := sp'[s].copy);
    forall i | 0 <= i < |vs|
      ensures Seated(vs, sp', descs, i)
    {
      assert Seated(vs, sp, descs, i);
    }
    forall s | 0 <= s < |sp'|
      ensures SpanRight(vs, sp', descs, s)
    {
      assert SpanRight(vs, sp, descs, s);
    }
  }

  // Ranks that stay leave the restore what it needs.
  lemma PublishReady(vs: seq<View>, sp: seq<CopySpan>, ds1: seq<Desc>, out1: seq<Desc>, ks: seq<int>)
    requires Restores(vs, sp, ds1, ks) && SameRanks(ds1, out1)
    ensures Restores(vs, sp, out1, ks)
  {
    hide NoStray, Layouts;
    forall x | 0 <= x < |out1|
      ensures |out1[x].sizes| == |out1[x].strides| == |ds1[x].strides|
    {
      assert |ds1[x].sizes| == |ds1[x].strides|;
    }
  }

  // Every descriptor after the restore: what the region published, what it left alone, and what points
  // at no copy.
  ghost predicate Returned(vs: seq<View>, sp: seq<CopySpan>, ds0: seq<Desc>, ds1: seq<Desc>, out0: seq<Desc>,
                           out1: seq<Desc>, ds2: seq<Desc>, ks: seq<int>)
    requires NamesDescs(vs, ds0) && |ds1| == |out0| == |out1| == |ds2| == |ds0|
  {
    && (forall x: nat, v: nat, u: seq<int> -> seq<int> ::
          x in ks && PublishesView(vs, ds0, ds1, out0, out1, x, v, u) ==>
          (SameReach(out0[x], ds2[x], DtypeBytes(vs[v].elem)) <==> ComesBack(vs, ds0, v, x, out1[x])))
    && (forall i: nat :: HasElements(vs, ds0, i) && out1[vs[i].desc] == ds1[vs[i].desc] ==>
          ds2[vs[i].desc] == GivenBack(vs, ds0, i))
    && (forall x :: 0 <= x < |ds0| && (x !in ks || NoCopyAt(vs, sp, out1[x].aligned)) ==> ds2[x] == out1[x])
  }

  predicate NoCopyAt(vs: seq<View>, sp: seq<CopySpan>, a: int) {
    forall v :: 0 <= v < |vs| && 0 <= vs[v].span < |sp| ==> AtOf(vs[v], sp) != a
  }

  lemma CallReturned(vs0: seq<View>, vs: seq<View>, sp: seq<CopySpan>, ds0: seq<Desc>, ds1: seq<Desc>, size: nat,
                     out0: seq<Desc>, out1: seq<Desc>, ds2: seq<Desc>, ks: seq<int>)
    requires OnCopies(vs0, vs, sp, ds0, ds1, size) && NamesDescs(vs0, ds0) && ListsViews(vs0, ds0, ks)
    requires |ds1| == |out0| == |out1| == |ds2| == |ds0| && SameRanks(ds1, out1)
    requires RestoredAll(vs, sp, out1, ds2, ks, |vs|)
    ensures Returned(vs0, sp, ds0, ds1, out0, out1, ds2, ks)
  {
    hide OnCopies, RestoredUpTo, PublishesView, ComesBack, SameReach, GivenBack, SameRanks;
    forall x: nat, v: nat, u: seq<int> -> seq<int> | x in ks && PublishesView(vs0, ds0, ds1, out0, out1, x, v, u)
      ensures x < |ds0| && HasElements(vs0, ds0, v)
      ensures SameReach(out0[x], ds2[x], DtypeBytes(vs0[v].elem)) <==> ComesBack(vs0, ds0, v, x, out1[x])
    {
      PublishesShape(vs0, ds0, ds1, out0, out1, x, v, u);
      PublicationComesBack(vs0, vs, sp, ds0, ds1, size, out0, out1, ds2, x, v, u);
    }
    forall i: nat | HasElements(vs0, ds0, i) && out1[vs0[i].desc] == ds1[vs0[i].desc]
      ensures ds2[vs0[i].desc] == GivenBack(vs0, ds0, i)
    {
      LeftAlone(vs0, vs, sp, ds0, ds1, size, out1, ds2, i);
    }
    forall x | 0 <= x < |ds0| && x in ks && NoCopyAt(vs0, sp, out1[x].aligned)
      ensures ds2[x] == out1[x]
    {
      Elsewhere(vs0, vs, sp, ds0, ds1, size, out1, ds2, x);
    }
  }

  lemma PublishesShape(vs: seq<View>, in0: seq<Desc>, in1: seq<Desc>, out0: seq<Desc>, out1: seq<Desc>, x: nat, v: nat,
                       u: seq<int> -> seq<int>)
    requires NamesDescs(vs, in0) && |in1| == |in0| && |out0| == |out1| == |in0|
    requires PublishesView(vs, in0, in1, out0, out1, x, v, u)
    ensures x < |in0| && HasElements(vs, in0, v)
  {}

  lemma LeftAlone(vs0: seq<View>, vs: seq<View>, sp: seq<CopySpan>, ds0: seq<Desc>, ds1: seq<Desc>, size: nat,
                  out1: seq<Desc>, ds2: seq<Desc>, i: nat)
    requires OnCopies(vs0, vs, sp, ds0, ds1, size) && NamesDescs(vs0, ds0) && |ds1| == |out1| == |ds2| == |ds0|
    requires HasElements(vs0, ds0, i) && out1[vs0[i].desc] == ds1[vs0[i].desc]
    requires RestoredUpTo(vs, sp, out1, ds2, vs0[i].desc, |vs|)
    ensures ds2[vs0[i].desc] == GivenBack(vs0, ds0, i)
  {
    ElementsSpan(vs0, sp, ds0, i);
    assert RestoredUpTo(vs, sp, ds1, ds2, vs0[i].desc, |vs|);
    hide PlanOk, Allocated, OnePlace, Pointed, RestoredUpTo, GivenBack;
    OwnGivenBack(vs0, vs, sp, ds0, ds1, ds2, size, i);
  }

  lemma Elsewhere(vs0: seq<View>, vs: seq<View>, sp: seq<CopySpan>, ds0: seq<Desc>, ds1: seq<Desc>, size: nat,
                  out1: seq<Desc>, ds2: seq<Desc>, x: nat)
    requires OnCopies(vs0, vs, sp, ds0, ds1, size) && |out1| == |ds2| && x < |out1|
    requires NoCopyAt(vs0, sp, out1[x].aligned) && RestoredUpTo(vs, sp, out1, ds2, x, |vs|)
    ensures ds2[x] == out1[x]
  {
    hide PlanOk, Allocated, OnePlace, RestoredBy;
    FirstAtSaved(vs0, vs, sp, out1[x].aligned, 0);
  }

  // Restoring goes through exactly when every listed descriptor can be given back.
  lemma RestorableIff(vs: seq<View>, sp: seq<CopySpan>, out1: seq<Desc>, ds2: seq<Desc>, ks: seq<int>, x: nat)
    requires Restores(vs, sp, out1, ks) && |ds2| == |out1| && x < |out1| && RestoredUpTo(vs, sp, out1, ds2, x, |vs|)
    ensures Restorable(vs, sp, out1, x)
  {
    hide Accepts, SameElements, NoStray;
  }

  lemma SameInPlace(kernel: Kernel, vs0: seq<View>, vs: seq<View>, descs: seq<Desc>, m: seq<Byte>, steps: nat)
    requires GoodDescs(descs) && NamesDescs(vs0, descs) && SameInputs(vs0, vs)
    ensures NamesDescs(vs, descs) && InPlace(kernel, vs, descs, m, steps) == InPlace(kernel, vs0, descs, m, steps)
  {
    assert DescsOf(vs, descs) == DescsOf(vs0, descs) && ElemBytes(vs) == ElemBytes(vs0);
  }

  // A region on the host, as vx_plugin_dispatch runs it in cuda_dispatch.cpp: plan, allocate, copy out,
  // redirect, run, copy back, restore. `vs0` are the planned views and `sp` their spans; `vs` and `ds1`
  // the views and the descriptors on the copies. Not `ok` where the restore stops the program.
  method RunCall(mem: array<Byte>, views: array<View>, descs: array<Desc>, ks: seq<int>, kernel: Kernel,
                 publish: Publisher, steps: nat, alloc: seq<CopySpan> -> seq<int>)
    returns (r: Outcome, seen: seq<Byte>, ok: bool, sp: seq<CopySpan>, ghost vs0: seq<View>, ghost vs: seq<View>,
             ghost ds1: seq<Desc>)
    requires GoodDescs(descs[..]) && NamesDescs(views[..], descs[..]) && ListsViews(views[..], descs[..], ks)
    requires SignedStrides(descs[..]) && FitPacked(views[..], descs[..])
    requires OnePlace(views[..], descs[..]) && KeepsRanks(publish)
    requires GivesBlocks(alloc, views[..], descs[..], mem.Length)
    modifies mem, views, descs
    ensures !r.Ready? ==> mem[..] == old(mem[..]) && descs[..] == old(descs[..])
    ensures !r.Ready? ==> NamesDescs(views[..], descs[..]) && exists i ::
              0 <= i < views.Length && MeasuredUpTo(views[..], descs[..], i) && StopsAt(r, views[..], descs[..], i)
    ensures r.Ready? ==> OnCopies(vs0, vs, sp, old(descs[..]), ds1, mem.Length) && SameInputs(old(views[..]), vs0)
    ensures r.Ready? ==>
              var p := InPlace(kernel, old(views[..]), old(descs[..]), old(mem[..]), steps);
              && seen == p.seen && |p.memory| == mem.Length
              && forall x :: 0 <= x < mem.Length && !InAnyBlock(AllHosts(vs0, sp, old(descs[..])), Copies(sp), x) ==>
                   mem[x] == p.memory[x]
    ensures r.Ready? ==>
              && Restores(vs, sp, publish(seen, ds1), ks)
              && (ok <==> forall x :: x in ks && x >= 0 ==> Restorable(vs, sp, publish(seen, ds1), x))
    ensures r.Ready? && ok ==>
              && NamesDescs(vs0, old(descs[..])) && |ds1| == descs.Length
              && var out0, out1 := publish(seen, old(descs[..])), publish(seen, ds1);
                 Returned(vs0, sp, old(descs[..]), ds1, out0, out1, descs[..], ks)
  {
    hide PlanOk, Planned, FitPacked, SignedStrides, FitCall;
    hide Allocated, OnePlace, Pointed, Returned, Restores, Restorable, MeasuredUpTo, StopsAt;
    hide ListsViews, KeepsRanks, GivesBlocks, SameInputs, WithCopies, AllHosts, InAnyBlock;
    ghost var views0, ds0, m0 := views[..], descs[..], mem[..];
    seen, ok, sp, vs0, vs, ds1 := [], false, [], [], [], [];
    var spans := new CopySpan[views.Length](i => CopySpan(0, 0, 0, 0));
    r := PlanViews(views, spans, descs[..]);
    if !r.Ready? {
      return;
    }
    vs0 := views[..];
    PackedPlan(views0, vs0, spans[..r.spans], ds0);
    BlocksFor(alloc, views0, vs0, spans[..r.spans], ds0, mem.Length);
    var blocks := alloc(spans[..r.spans]);
    sp := WithCopies(spans[..r.spans], blocks);
    CopiesKeepPlan(vs0, spans[..r.spans], ds0, blocks);
    SameInPlace(kernel, views0, vs0, ds0, m0, steps);
    OnePlaceStays(views0, vs0, ds0);
    seen := RunOnCopies(mem, views, sp, descs, kernel, steps);
    vs, ds1 := views[..], descs[..];
    ok := PublishAndRestore(views, sp, descs, ks, publish, seen, vs0, ds0, mem.Length);
  }

  lemma OnePlaceStays(views: seq<View>, vs: seq<View>, descs: seq<Desc>)
    requires NamesDescs(views, descs) && OnePlace(views, descs) && SameInputs(views, vs)
    ensures NamesDescs(vs, descs) && OnePlace(vs, descs)
    ensures forall ks :: ListsViews(views, descs, ks) ==> ListsViews(vs, descs, ks)
  {}

  lemma BlocksFor(alloc: seq<CopySpan> -> seq<int>, views: seq<View>, vs: seq<View>, sp: seq<CopySpan>,
                  descs: seq<Desc>, size: nat)
    requires GivesBlocks(alloc, views, descs, size) && SameInputs(views, vs) && PlanOk(vs, sp, descs)
    ensures |alloc(sp)| == |sp| && Allocated(vs, WithCopies(sp, alloc(sp)), descs, size)
  {}

  // The last steps: what the region leaves in the descriptors, and the restore.
  method PublishAndRestore(views: array<View>, sp: seq<CopySpan>, descs: array<Desc>, ks: seq<int>, publish: Publisher,
                           seen: seq<Byte>, ghost vs0: seq<View>, ghost ds0: seq<Desc>, ghost size: nat)
    returns (ok: bool)
    requires OnCopies(vs0, views[..], sp, ds0, descs[..], size) && NamesDescs(vs0, ds0) && |ds0| == descs.Length
    requires ListsViews(vs0, ds0, ks) && KeepsRanks(publish)
    modifies descs
    ensures Restores(views[..], sp, publish(seen, old(descs[..])), ks)
    ensures ok <==> forall x :: x in ks && x >= 0 ==> Restorable(views[..], sp, publish(seen, old(descs[..])), x)
    ensures |publish(seen, ds0)| == |publish(seen, old(descs[..]))| == |ds0|
    ensures ok ==>
              Returned(vs0, sp, ds0, old(descs[..]), publish(seen, ds0), publish(seen, old(descs[..])), descs[..], ks)
  {
    hide PlanOk, Allocated, OnePlace, Pointed, Restores, RestoredUpTo, Restorable, Returned, ListsViews;
    var vs := views[..];
    ghost var ds1 := descs[..];
    var out := publish(seen, descs[..]);
    assert SameRanks(ds1, out) && SameRanks(ds0, publish(seen, ds0));
    RestoreReady(vs0, vs, sp, ds0, ds1, ks, size);
    PublishReady(vs, sp, ds1, out, ks);
    forall x | 0 <= x < descs.Length {
      descs[x] := out[x];
    }
    assert descs[..] == out && views[..] == vs;
    ok := Restore(vs, sp, descs, ks);
    ListedNames(vs0, ds0, ks);
    if ok {
      forall x | x in ks && x >= 0
        ensures Restorable(vs, sp, out, x)
      {
        RestorableIff(vs, sp, out, descs[..], ks, x);
      }
      CallReturned(vs0, vs, sp, ds0, ds1, size, publish(seen, ds0), out, descs[..], ks);
    }
  }

  lemma ListedNames(vs: seq<View>, descs: seq<Desc>, ks: seq<int>)
    requires ListsViews(vs, descs, ks)
    ensures forall x :: x in ks && x >= 0 ==> x < |descs|
  {}
}
