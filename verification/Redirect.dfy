// vx_view_copy_point_at and vx_view_copy_restore: descriptors are sent to the
// copies for a call, and back to the views after it.
module Redirect {
  import opened Strided
  import opened Abi
  import opened Overlap
  import opened Plan
  import opened Copying
  import opened Staging
  import opened Execute
  import opened Unpack

  // Views of one descriptor that has elements start at one byte: it has offset 0, or they see it with
  // elements of one size.
  ghost predicate OnePlace(vs: seq<View>, descs: seq<Desc>)
    requires NamesDescs(vs, descs)
  {
    forall i, j :: 0 <= i < |vs| && 0 <= j < |vs| && vs[i].desc == vs[j].desc && !HasZero(descs[vs[i].desc].sizes) ==>
      descs[vs[i].desc].offset == 0 || DtypeBytes(vs[i].elem) == DtypeBytes(vs[j].elem)
  }

  // Where a view's copy of its first element is.
  function AtOf(v: View, sp: seq<CopySpan>): int
    requires 0 <= v.span < |sp|
  {
    sp[v.span].copy + v.at
  }

  // The descriptor of a view while the region runs.
  function Redirected(v: View, d: Desc, sp: seq<CopySpan>): Desc
    requires 0 <= v.span < |sp|
  {
    var at := AtOf(v, sp);
    Desc(at, at, 0, d.sizes, if v.packed then DenseStrides(v.sizes) else d.strides)
  }

  // Two views of one descriptor get the same place, and no dense copy.
  lemma AliasAgree(vs: seq<View>, sp: seq<CopySpan>, descs: seq<Desc>, i: nat, j: nat)
    requires PlanOk(vs, sp, descs) && OnePlace(vs, descs) && i < |vs| && j < |vs| && i != j && vs[i].desc == vs[j].desc
    requires vs[i].bytes != 0
    ensures vs[j].bytes != 0 && vs[i].span == vs[j].span && vs[i].at == vs[j].at && !vs[i].packed && !vs[j].packed
  {
    SameStart(vs, descs, i, j);
    hide OnePlace, AllMeasured, Grouped, HullsApart;
    SameStartSameAt(vs, sp, descs, i, j);
    assert Seated(vs, sp, descs, i) && Seated(vs, sp, descs, j);
    assert SpanRight(vs, sp, descs, vs[i].span);
  }

  lemma SameStart(vs: seq<View>, descs: seq<Desc>, i: nat, j: nat)
    requires GoodDescs(descs) && NamesDescs(vs, descs) && AllMeasured(vs, descs) && OnePlace(vs, descs)
    requires i < |vs| && j < |vs| && vs[i].desc == vs[j].desc && vs[i].bytes != 0
    ensures vs[j].bytes != 0 && vs[i].start == vs[j].start
  {
    hide AllMeasured, HasZero, DtypeBytes;
    EmptyIffZero(vs, descs, i);
    EmptyIffZero(vs, descs, j);
  }

  // A view reaches a byte exactly when its descriptor has elements.
  lemma EmptyIffZero(vs: seq<View>, descs: seq<Desc>, i: nat)
    requires GoodDescs(descs) && NamesDescs(vs, descs) && AllMeasured(vs, descs) && i < |vs|
    ensures vs[i].bytes != 0 <==> !HasZero(descs[vs[i].desc].sizes)
    ensures vs[i].bytes != 0 ==> vs[i].start == StartOf(descs[vs[i].desc], vs[i].elem)
  {
    var d := descs[vs[i].desc];
    assert Measured(vs[i], d);
    if !HasZero(d.sizes) {
      PositiveWithoutZero(d.sizes);
      LastNatural(d.sizes, d.strides);
      MulLe(1, Last(d.sizes, d.strides) + 1, DtypeBytes(vs[i].elem));
    }
  }

  // The address of the first element of a descriptor.
  function StartOf(d: Desc, elem: int): int {
    d.aligned + d.offset * DtypeBytes(elem)
  }

  // Views that start at one byte have copies that start at one address.
  lemma SameStartSameAt(vs: seq<View>, sp: seq<CopySpan>, descs: seq<Desc>, i: nat, j: nat)
    requires PlanOk(vs, sp, descs) && i < |vs| && j < |vs| && vs[i].bytes != 0 && vs[j].bytes != 0
    requires vs[i].start == vs[j].start
    ensures 0 <= vs[i].span == vs[j].span < |sp| && vs[i].at == vs[j].at
  {
    MeasuredPlace(vs, descs, i);
    MeasuredPlace(vs, descs, j);
    ConnectedStep(Extents(vs), i, j);
    assert Seated(vs, sp, descs, i) && Seated(vs, sp, descs, j);
  }

  // No earlier view of the call has the descriptor.
  ghost predicate FirstHolder(vs: seq<View>, i: nat)
    requires i < |vs|
  {
    forall k :: 0 <= k < i && vs[k].span >= 0 ==> vs[k].desc != vs[i].desc
  }

  // Only what vx_view_copy_point_at saves differs.
  ghost predicate SavedFrom(v: View, v': View) {
    v' == v.(alloc := v'.alloc, aligned := v'.aligned, offset := v'.offset)
  }

  ghost predicate Saves(v: View, d: Desc) {
    v.alloc == d.alloc && v.aligned == d.aligned && v.offset == d.offset
  }

  // The first `n` views are redirected.
  ghost predicate Pointed(vs0: seq<View>, vs: seq<View>, sp: seq<CopySpan>, ds0: seq<Desc>, ds: seq<Desc>, n: nat)
    requires PlanOk(vs0, sp, ds0) && n <= |vs0|
  {
    && |vs| == |vs0| && |ds| == |ds0|
    && (forall i :: 0 <= i < |vs| ==> SavedFrom(vs0[i], vs[i]))
    && (forall i :: 0 <= i < n && 0 <= vs0[i].span < |sp| ==>
          ds[vs0[i].desc] == Redirected(vs0[i], ds0[vs0[i].desc], sp))
    && (forall i :: 0 <= i < n && vs0[i].span >= 0 && FirstHolder(vs0, i) ==> Saves(vs[i], ds0[vs0[i].desc]))
    && (forall x :: 0 <= x < |ds0| && (forall i :: 0 <= i < n && vs0[i].span >= 0 ==> vs0[i].desc != x) ==>
          ds[x] == ds0[x])
  }

  // The strides of the dense copy, one by one.
  method DenseStridesOf(sizes: seq<int>) returns (strides: seq<int>)
    ensures strides == DenseStrides(sizes)
  {
    strides := [];
    var d := 0;
    while d < |sizes|
      invariant 0 <= d <= |sizes| && strides == DenseStrides(sizes)[..d]
    {
      var t := DenseStride(sizes, d);
      strides := strides + [t];
      d := d + 1;
    }
  }

  // The body of vx_view_copy_point_at for a view that is not empty.
  method PointOne(v: View, d: Desc, sp: seq<CopySpan>) returns (v': View, d': Desc)
    requires 0 <= v.span < |sp|
    ensures SavedFrom(v, v') && Saves(v', d)
    ensures d' == Redirected(v, d, sp)
  {
    var at := sp[v.span].copy + v.at;
    v' := v.(alloc := d.alloc, aligned := d.aligned, offset := d.offset);
    d' := d.(alloc := at, aligned := at, offset := 0);
    if v.packed {
      var strides := DenseStridesOf(v.sizes);
      d' := d'.(strides := strides);
    }
  }

  // A view whose descriptor an earlier view already redirected.
  lemma PointAgain(vs0: seq<View>, vs: seq<View>, sp: seq<CopySpan>, ds0: seq<Desc>, ds: seq<Desc>, n: nat)
    requires PlanOk(vs0, sp, ds0) && OnePlace(vs0, ds0) && n < |vs0| && Pointed(vs0, vs, sp, ds0, ds, n)
    requires vs0[n].span >= 0
    ensures vs0[n].span < |sp|
    ensures Redirected(vs0[n], ds[vs0[n].desc], sp) == Redirected(vs0[n], ds0[vs0[n].desc], sp)
    ensures FirstHolder(vs0, n) ==> ds[vs0[n].desc] == ds0[vs0[n].desc]
  {
    assert Seated(vs0, sp, ds0, n);
    if !FirstHolder(vs0, n) {
      var k :| 0 <= k < n && vs0[k].span >= 0 && vs0[k].desc == vs0[n].desc;
      assert Seated(vs0, sp, ds0, k);
      AliasAgree(vs0, sp, ds0, n, k);
    }
  }

  lemma PointStep(vs0: seq<View>, vs: seq<View>, sp: seq<CopySpan>, ds0: seq<Desc>, ds: seq<Desc>, n: nat, v': View,
                  d': Desc)
    requires PlanOk(vs0, sp, ds0) && OnePlace(vs0, ds0) && n < |vs0| && Pointed(vs0, vs, sp, ds0, ds, n)
    requires 0 <= vs0[n].span < |sp| && d' == Redirected(vs0[n], ds0[vs0[n].desc], sp)
    requires SavedFrom(vs0[n], v') && (FirstHolder(vs0, n) ==> Saves(v', ds0[vs0[n].desc]))
    ensures Pointed(vs0, vs[n := v'], sp, ds0, ds[vs0[n].desc := d'], n + 1)
  {
    var ds' := ds[vs0[n].desc := d'];
    forall i | 0 <= i < n + 1 && 0 <= vs0[i].span < |sp|
      ensures ds'[vs0[i].desc] == Redirected(vs0[i], ds0[vs0[i].desc], sp)
    {
      if i < n && vs0[i].desc == vs0[n].desc {
        assert Seated(vs0, sp, ds0, i);
        AliasAgree(vs0, sp, ds0, i, n);
      }
    }
  }

  lemma PointSkip(vs0: seq<View>, vs: seq<View>, sp: seq<CopySpan>, ds0: seq<Desc>, ds: seq<Desc>, n: nat)
    requires PlanOk(vs0, sp, ds0) && n < |vs0| && Pointed(vs0, vs, sp, ds0, ds, n) && vs0[n].span < 0
    ensures Pointed(vs0, vs, sp, ds0, ds, n + 1)
  {}

  // vx_view_copy_point_at.
  method PointAt(views: array<View>, sp: seq<CopySpan>, descs: array<Desc>)
    requires PlanOk(views[..], sp, descs[..]) && OnePlace(views[..], descs[..])
    modifies views, descs
    ensures Pointed(old(views[..]), views[..], sp, old(descs[..]), descs[..], views.Length)
  {
    hide PlanOk, OnePlace;
    ghost var vs0, ds0 := views[..], descs[..];
    var i := 0;
    PointStart(vs0, sp, ds0);
    while i < views.Length
      invariant 0 <= i <= views.Length
      invariant Pointed(vs0, views[..], sp, ds0, descs[..], i)
      invariant views[i..] == vs0[i..]
    {
      assert views[i] == vs0[i] && views[i + 1..] == vs0[i + 1..] by {
        assert views[i..][0] == vs0[i..][0] && views[i + 1..] == views[i..][1..] && vs0[i + 1..] == vs0[i..][1..];
      }
      if views[i].span < 0 {
        PointSkip(vs0, views[..], sp, ds0, descs[..], i);
      } else {
        PointNames(vs0, sp, ds0, i);
        PointAgain(vs0, views[..], sp, ds0, descs[..], i);
        var v, d := PointOne(views[i], descs[views[i].desc], sp);
        PointStep(vs0, views[..], sp, ds0, descs[..], i, v, d);
        PointWrite(views, descs, i, v, d);
      }
      i := i + 1;
    }
  }

  lemma PointStart(vs: seq<View>, sp: seq<CopySpan>, ds: seq<Desc>)
    requires PlanOk(vs, sp, ds)
    ensures Pointed(vs, vs, sp, ds, ds, 0)
  {}

  lemma PointNames(vs: seq<View>, sp: seq<CopySpan>, ds: seq<Desc>, i: nat)
    requires PlanOk(vs, sp, ds) && i < |vs|
    ensures vs[i].desc < |ds|
  {}

  method PointWrite(views: array<View>, descs: array<Desc>, i: nat, v: View, d: Desc)
    requires i < views.Length && views[i].desc < descs.Length
    modifies views, descs
    ensures views[..] == old(views[..])[i := v]
    ensures descs[..] == old(descs[..])[old(views[i].desc) := d]
    ensures views[i + 1..] == old(views[i + 1..])
  {
    descs[views[i].desc] := d;
    views[i] := v;
  }

  // ---- The redirected descriptors reach the copies ----

  function DescsOf(vs: seq<View>, descs: seq<Desc>): (r: seq<Desc>)
    requires NamesDescs(vs, descs)
    ensures |r| == |vs|
  {
    seq(|vs|, i requires 0 <= i < |vs| => descs[vs[i].desc])
  }

  function ElemBytes(vs: seq<View>): (r: seq<int>)
    ensures |r| == |vs|
  {
    seq(|vs|, i requires 0 <= i < |vs| => DtypeBytes(vs[i].elem))
  }

  lemma SharedCell(vs: seq<View>, sp: seq<CopySpan>, descs: seq<Desc>, i: nat, t: seq<int>, k: nat)
    requires PlanOk(vs, sp, descs) && i < |vs| && vs[i].bytes != 0 && !vs[i].packed
    requires InRange(t, descs[vs[i].desc].sizes) && k < DtypeBytes(vs[i].elem)
    ensures 0 <= vs[i].span < |sp|
    ensures var d, b := descs[vs[i].desc], DtypeBytes(vs[i].elem);
            var c := vs[i].at + Linear(t, d.strides) * b + k;
            Cell(AllHosts(vs, sp, descs), Copies(sp), vs[i].span, c,
                 ElementByte(d, b, t, k), ElementByte(Redirected(vs[i], d, sp), b, t, k))
  {
    hide Grouped, HullsApart, SpanRight, Linear, Last, IsSpanOf;
    var d, b := descs[vs[i].desc], DtypeBytes(vs[i].elem);
    assert Seated(vs, sp, descs, i) && Measured(vs[i], d);
    SharedSpan(vs, sp, descs, i);
    SpanMeaning(d.sizes, d.strides, vs[i].elem, vs[i].bytes);
    ElementInside(Linear(t, d.strides), b, k, vs[i].bytes);
    ElementSum(d.aligned, d.offset, Linear(t, d.strides), b);
    ElementSum(AtOf(vs[i], sp), 0, Linear(t, d.strides), b);
  }

  // A span with a view that is not packed is copied whole.
  lemma SharedSpan(vs: seq<View>, sp: seq<CopySpan>, descs: seq<Desc>, i: nat)
    requires PlanOk(vs, sp, descs) && i < |vs| && vs[i].bytes != 0 && !vs[i].packed
    ensures 0 <= vs[i].span < |sp| && sp[vs[i].span].view < 0 && vs[i].at + vs[i].bytes <= sp[vs[i].span].bytes
  {
    assert Seated(vs, sp, descs, i);
    assert SpanRight(vs, sp, descs, vs[i].span);
  }

  lemma ElementInside(l: int, b: int, k: nat, bytes: int)
    requires 0 <= l && (l + 1) * b <= bytes && k < b
    ensures 0 <= l * b + k < bytes
  {}

  lemma ElementSum(a: int, o: int, l: int, b: int)
    ensures a + (o + l) * b == a + o * b + l * b
  {}

  lemma PackedCell(vs: seq<View>, sp: seq<CopySpan>, descs: seq<Desc>, i: nat, t: seq<int>, k: nat)
    requires PlanOk(vs, sp, descs) && i < |vs| && vs[i].bytes != 0 && vs[i].packed
    requires InRange(t, descs[vs[i].desc].sizes) && k < DtypeBytes(vs[i].elem)
    ensures 0 <= vs[i].span < |sp| && vs[i].sizes == descs[vs[i].desc].sizes
    ensures var d, b := descs[vs[i].desc], DtypeBytes(vs[i].elem);
            var c := Linear(t, DenseStrides(vs[i].sizes)) * b + k;
            Cell(AllHosts(vs, sp, descs), Copies(sp), vs[i].span, c,
                 ElementByte(d, b, t, k), ElementByte(Redirected(vs[i], d, sp), b, t, k))
  {
    hide Grouped, HullsApart, SpanRight, Linear, DenseStrides;
    var d, b := descs[vs[i].desc], DtypeBytes(vs[i].elem);
    assert Seated(vs, sp, descs, i) && Measured(vs[i], d);
    PackedLayout(vs, sp, descs, vs[i].span);
    HostByteOfTuple(LayoutOf(vs[i]), t, k);
    ElementSum(d.aligned, d.offset, Linear(t, d.strides), b);
    ElementSum(AtOf(vs[i], sp), 0, Linear(t, DenseStrides(vs[i].sizes)), b);
  }

  lemma ViewCell(vs: seq<View>, sp: seq<CopySpan>, descs: seq<Desc>, i: nat, t: seq<int>, k: nat)
    requires PlanOk(vs, sp, descs) && i < |vs|
    requires InRange(t, descs[vs[i].desc].sizes) && k < DtypeBytes(vs[i].elem)
    ensures vs[i].bytes != 0 && 0 <= vs[i].span < |sp|
    ensures var d, b := descs[vs[i].desc], DtypeBytes(vs[i].elem);
            |t| == |Redirected(vs[i], d, sp).strides| && exists s, c ::
              Cell(AllHosts(vs, sp, descs), Copies(sp), s, c, ElementByte(d, b, t, k),
                   ElementByte(Redirected(vs[i], d, sp), b, t, k))
  {
    var d, b := descs[vs[i].desc], DtypeBytes(vs[i].elem);
    assert Measured(vs[i], d);
    SpanMeaning(d.sizes, d.strides, vs[i].elem, vs[i].bytes);
    if vs[i].packed {
      PackedCell(vs, sp, descs, i, t, k);
    } else {
      SharedCell(vs, sp, descs, i, t, k);
    }
  }

  // After vx_view_copy_point_at every element of every view is reached in the copies.
  lemma PointedRedirects(vs0: seq<View>, vs: seq<View>, sp: seq<CopySpan>, ds0: seq<Desc>, ds: seq<Desc>)
    requires PlanOk(vs0, sp, ds0) && Pointed(vs0, vs, sp, ds0, ds, |vs0|)
    ensures NamesDescs(vs0, ds)
    ensures Redirects(AllHosts(vs0, sp, ds0), Copies(sp), DescsOf(vs0, ds0), DescsOf(vs0, ds), ElemBytes(vs0))
  {
    var d0, d1, bs := DescsOf(vs0, ds0), DescsOf(vs0, ds), ElemBytes(vs0);
    forall v | 0 <= v < |vs0|
      ensures d1[v].sizes == d0[v].sizes && |d1[v].strides| == |d0[v].strides|
    {
      PointedShape(vs0, vs, sp, ds0, ds, vs0[v].desc);
    }
    forall v: nat, i, k: nat | Reaches(d0, bs, v, i, k)
      ensures exists s, c ::
              Cell(AllHosts(vs0, sp, ds0), Copies(sp), s, c, ElementByte(d0[v], bs[v], i, k),
                   ElementByte(d1[v], bs[v], i, k))
    {
      ViewCell(vs0, sp, ds0, v, i, k);
    }
  }

  lemma PointedShape(vs0: seq<View>, vs: seq<View>, sp: seq<CopySpan>, ds0: seq<Desc>, ds: seq<Desc>, x: nat)
    requires PlanOk(vs0, sp, ds0) && Pointed(vs0, vs, sp, ds0, ds, |vs0|) && x < |ds0|
    ensures ds[x].sizes == ds0[x].sizes && |ds[x].strides| == |ds0[x].strides|
  {
    if i :| 0 <= i < |vs0| && vs0[i].span >= 0 && vs0[i].desc == x {
      assert Seated(vs0, sp, ds0, i);
    }
  }

  // ---- Restoring ----

  // The first view, from `i` on, whose copy starts at address `a`. -1 for none.
  function FirstAt(vs: seq<View>, sp: seq<CopySpan>, a: int, i: nat, n: nat): (f: int)
    requires i <= n <= |vs|
    ensures f == -1 || (i <= f < n && 0 <= vs[f].span < |sp| && AtOf(vs[f], sp) == a)
    ensures forall k :: i <= k < n && (f == -1 || k < f) && 0 <= vs[k].span < |sp| ==> AtOf(vs[k], sp) != a
    decreases n - i
  {
    if i == n then -1
    else if 0 <= vs[i].span < |sp| && AtOf(vs[i], sp) == a then i
    else FirstAt(vs, sp, a, i + 1, n)
  }

  // `d'` is what view `v` makes of the descriptor `d` that points at its copy.
  // `own` tells whether it is the view's own descriptor.
  ghost predicate RestoredBy(v: View, own: bool, d: Desc, d': Desc) {
    && d'.alloc == v.alloc && d'.aligned == v.aligned && d'.sizes == d.sizes && |d'.strides| == |d.strides|
    && (!v.packed ==> d'.offset == d.offset + v.offset && d'.strides == d.strides)
    && (v.packed && own && d.offset == 0 ==> d'.offset == v.offset && d'.strides == v.strides)
    && (v.packed && !(own && d.offset == 0) ==>
          && |v.sizes| == |v.strides| && AllPositive(v.sizes) && |d.sizes| == |d.strides|
          && Accepts(v.sizes, d.sizes, d.offset, d.strides)
          && SameElements(v.sizes, v.strides, v.offset, d.sizes, d.offset, d.strides, d'.offset, d'.strides))
  }

  // The views know the layouts of their dense copies.
  ghost predicate Layouts(vs: seq<View>) {
    forall i :: 0 <= i < |vs| && vs[i].packed ==> |vs[i].sizes| == |vs[i].strides| && AllPositive(vs[i].sizes)
  }

  // The body of the inner loop of vx_view_copy_restore, for a descriptor that
  // points at the copy of `v`. Not `ok` where the source stops the program.
  method RestoreOne(v: View, own: bool, d: Desc) returns (ok: bool, d': Desc)
    requires |d.sizes| == |d.strides|
    requires v.packed ==> |v.sizes| == |v.strides| && AllPositive(v.sizes)
    requires v.packed && own ==> |v.strides| == |d.strides|
    ensures ok ==> RestoredBy(v, own, d, d')
    ensures ok <==> !v.packed || (own && d.offset == 0) || Accepts(v.sizes, d.sizes, d.offset, d.strides)
  {
    d' := d.(alloc := v.alloc, aligned := v.aligned);
    if !v.packed {
      return true, d'.(offset := d.offset + v.offset);
    }
    if own && d.offset == 0 {
      return true, d'.(offset := v.offset, strides := v.strides);
    }
    var good, offset, strides := UnpackDesc(v.sizes, v.strides, v.offset, d.sizes, d.offset, d.strides);
    return good, d'.(offset := offset, strides := strides);
  }

  // Whether the descriptor `x` can be given back.
  predicate Restorable(vs: seq<View>, sp: seq<CopySpan>, ds: seq<Desc>, x: nat)
    requires Layouts(vs) && x < |ds| && |ds[x].sizes| == |ds[x].strides|
  {
    var f := FirstAt(vs, sp, ds[x].aligned, 0, |vs|);
    f == -1 || !vs[f].packed || (vs[f].desc == x && ds[x].offset == 0)
    || Accepts(vs[f].sizes, ds[x].sizes, ds[x].offset, ds[x].strides)
  }

  // What the first `n` views make of the descriptor `x`.
  ghost predicate RestoredUpTo(vs: seq<View>, sp: seq<CopySpan>, d0: seq<Desc>, ds: seq<Desc>, x: nat, n: nat)
    requires n <= |vs| && |ds| == |d0| && x < |d0|
  {
    var f := FirstAt(vs, sp, d0[x].aligned, 0, n);
    && (f == -1 ==> ds[x] == d0[x])
    && (f != -1 ==> RestoredBy(vs[f], vs[f].desc == x, d0[x], ds[x]))
  }

  // A saved pointer is never the address of a copy, so a descriptor that was
  // given back is not taken for one that points at a copy.
  ghost predicate NoStray(vs: seq<View>, sp: seq<CopySpan>) {
    forall i, j :: 0 <= i < |vs| && 0 <= j < |vs| && 0 <= vs[i].span < |sp| && 0 <= vs[j].span < |sp| ==>
      (FirstAt(vs, sp, AtOf(vs[i], sp), 0, |vs|) == i ==> vs[i].aligned != AtOf(vs[j], sp))
  }

  lemma {:induction false} FirstAtStep(vs: seq<View>, sp: seq<CopySpan>, a: int, i: nat, n: nat)
    requires i <= n < |vs|
    ensures FirstAt(vs, sp, a, i, n + 1) ==
            var f := FirstAt(vs, sp, a, i, n);
            if f != -1 then f else if 0 <= vs[n].span < |sp| && AtOf(vs[n], sp) == a then n else -1
    decreases n - i
  {
    if i < n {
      FirstAtStep(vs, sp, a, i + 1, n);
    }
  }

  lemma FirstAtFound(vs: seq<View>, sp: seq<CopySpan>, a: int, n: nat)
    requires n <= |vs|
    ensures var f := FirstAt(vs, sp, a, 0, n); f != -1 ==> FirstAt(vs, sp, a, 0, |vs|) == f
  {
    var f, g := FirstAt(vs, sp, a, 0, n), FirstAt(vs, sp, a, 0, |vs|);
    if f != -1 {
      assert g != -1 && g <= f;
    }
  }

  // A descriptor that was given back does not match again.
  lemma MatchesOnce(vs: seq<View>, sp: seq<CopySpan>, d0: seq<Desc>, ds: seq<Desc>, x: nat, n: nat, i: nat)
    requires n <= |vs| && |ds| == |d0| && x < |d0| && NoStray(vs, sp) && RestoredUpTo(vs, sp, d0, ds, x, n)
    requires i < |vs| && 0 <= vs[i].span < |sp| && FirstAt(vs, sp, d0[x].aligned, 0, n) != -1
    ensures ds[x].aligned != AtOf(vs[i], sp)
  {
    FirstAtFound(vs, sp, d0[x].aligned, n);
  }

  // The step of the source for view `n` and descriptor `x`.
  method RestoreStep(vs: seq<View>, sp: seq<CopySpan>, descs: array<Desc>, ghost d0: seq<Desc>, n: nat, x: nat,
                     ghost again: bool)
    returns (ok: bool)
    requires n < |vs| && x < descs.Length && |d0| == descs.Length && Layouts(vs) && NoStray(vs, sp)
    requires 0 <= vs[n].span < |sp|
    requires RestoredUpTo(vs, sp, d0, descs[..], x, if again then n + 1 else n)
    requires |d0[x].sizes| == |d0[x].strides|
    requires (vs[n].packed && vs[n].desc == x ==> |vs[n].strides| == |d0[x].strides|)
    modifies descs
    ensures forall y :: 0 <= y < descs.Length && y != x ==> descs[y] == old(descs[y])
    ensures ok ==> RestoredUpTo(vs, sp, d0, descs[..], x, n + 1)
    ensures !ok ==> !Restorable(vs, sp, d0, x)
  {
    ghost var ds := descs[..];
    FirstAtStep(vs, sp, d0[x].aligned, 0, n);
    FirstAtFound(vs, sp, d0[x].aligned, n + 1);
    if FirstAt(vs, sp, d0[x].aligned, 0, if again then n + 1 else n) != -1 {
      MatchesOnce(vs, sp, d0, ds, x, if again then n + 1 else n, n);
    }
    if descs[x].aligned != AtOf(vs[n], sp) {
      return true;
    }
    var good, d := RestoreOne(vs[n], vs[n].desc == x, descs[x]);
    descs[x] := d;
    return good;
  }

  // The descriptors a restore is given: indices into the store, -1 for none.
  ghost predicate Restores(vs: seq<View>, sp: seq<CopySpan>, ds: seq<Desc>, ks: seq<int>) {
    && Layouts(vs) && NoStray(vs, sp)
    && (forall x :: 0 <= x < |ds| ==> |ds[x].sizes| == |ds[x].strides|)
    && (forall k :: 0 <= k < |ks| ==> -1 <= ks[k] < |ds|)
    && (forall i :: 0 <= i < |vs| ==> vs[i].span < |sp|)
    && (forall i :: 0 <= i < |vs| && vs[i].packed && vs[i].desc < |ds| ==> |vs[i].strides| == |ds[vs[i].desc].strides|)
  }

  // View `n` has been tried on the first `k` descriptors of the list.
  ghost predicate Restoring(vs: seq<View>, sp: seq<CopySpan>, d0: seq<Desc>, ds: seq<Desc>, ks: seq<int>, n: nat,
                            k: nat)
    requires n < |vs| && k <= |ks| && |ds| == |d0|
  {
    forall x :: 0 <= x < |d0| ==>
      && (x in ks[..k] ==> RestoredUpTo(vs, sp, d0, ds, x, n + 1))
      && (x in ks && x !in ks[..k] ==> RestoredUpTo(vs, sp, d0, ds, x, n))
      && (x !in ks ==> ds[x] == d0[x])
  }

  ghost predicate RestoredAll(vs: seq<View>, sp: seq<CopySpan>, d0: seq<Desc>, ds: seq<Desc>, ks: seq<int>, n: nat)
    requires n <= |vs| && |ds| == |d0|
  {
    forall x :: 0 <= x < |d0| ==>
      && (x in ks ==> RestoredUpTo(vs, sp, d0, ds, x, n))
      && (x !in ks ==> ds[x] == d0[x])
  }

  lemma RestoringStep(vs: seq<View>, sp: seq<CopySpan>, d0: seq<Desc>, ds: seq<Desc>, ds': seq<Desc>, ks: seq<int>,
                      n: nat, k: nat)
    requires n < |vs| && k < |ks| && |ds| == |ds'| == |d0| && Restoring(vs, sp, d0, ds, ks, n, k)
    requires forall y :: 0 <= y < |d0| && y != ks[k] ==> ds'[y] == ds[y]
    requires 0 <= ks[k] < |d0| ==> RestoredUpTo(vs, sp, d0, ds', ks[k], n + 1)
    ensures Restoring(vs, sp, d0, ds', ks, n, k + 1)
  {
    assert ks[..k + 1] == ks[..k] + [ks[k]];
  }

  // The inner loop, for view `n`.
  method RestoreView(vs: seq<View>, sp: seq<CopySpan>, descs: array<Desc>, ghost d0: seq<Desc>, ks: seq<int>, n: nat)
    returns (ok: bool)
    requires n < |vs| && |d0| == descs.Length && Restores(vs, sp, d0, ks) && vs[n].span >= 0
    requires RestoredAll(vs, sp, d0, descs[..], ks, n)
    modifies descs
    ensures ok ==> RestoredAll(vs, sp, d0, descs[..], ks, n + 1)
    ensures !ok ==> exists x :: x in ks && x >= 0 && !Restorable(vs, sp, d0, x)
  {
    var k := 0;
    while k < |ks|
      invariant 0 <= k <= |ks|
      invariant Restoring(vs, sp, d0, descs[..], ks, n, k)
    {
      ghost var ds := descs[..];
      var x := ks[k];
      if x >= 0 {
        assert x in ks;
        var good := RestoreStep(vs, sp, descs, d0, n, x, x in ks[..k]);
        if !good {
          return false;
        }
      }
      RestoringStep(vs, sp, d0, ds, descs[..], ks, n, k);
      k := k + 1;
    }
    assert ks[..k] == ks;
    ok := true;
  }

  // An empty view matches nothing.
  lemma RestoreEmpty(vs: seq<View>, sp: seq<CopySpan>, d0: seq<Desc>, ds: seq<Desc>, ks: seq<int>, n: nat)
    requires n < |vs| && |ds| == |d0| && vs[n].span < 0 && RestoredAll(vs, sp, d0, ds, ks, n)
    ensures RestoredAll(vs, sp, d0, ds, ks, n + 1)
  {
    forall x | 0 <= x < |d0| && x in ks
      ensures RestoredUpTo(vs, sp, d0, ds, x, n + 1)
    {
      FirstAtStep(vs, sp, d0[x].aligned, 0, n);
    }
  }

  lemma RestoredNone(vs: seq<View>, sp: seq<CopySpan>, ds: seq<Desc>, ks: seq<int>)
    ensures RestoredAll(vs, sp, ds, ds, ks, 0)
  {}

  // vx_view_copy_restore. Not `ok` where the source stops the program.
  method Restore(vs: seq<View>, sp: seq<CopySpan>, descs: array<Desc>, ks: seq<int>) returns (ok: bool)
    requires Restores(vs, sp, descs[..], ks)
    modifies descs
    ensures ok ==> RestoredAll(vs, sp, old(descs[..]), descs[..], ks, |vs|)
    ensures !ok ==> exists x :: x in ks && x >= 0 && !Restorable(vs, sp, old(descs[..]), x)
  {
    hide RestoredAll, Restores, Restorable;
    ghost var d0 := descs[..];
    RestoredNone(vs, sp, d0, ks);
    var i := 0;
    while i < |vs|
      invariant 0 <= i <= |vs|
      invariant RestoredAll(vs, sp, d0, descs[..], ks, i)
    {
      if vs[i].span < 0 {
        RestoreEmpty(vs, sp, d0, descs[..], ks, i);
      } else {
        var good := RestoreView(vs, sp, descs, d0, ks, i);
        if !good {
          return false;
        }
      }
      i := i + 1;
    }
    ok := true;
  }
}
