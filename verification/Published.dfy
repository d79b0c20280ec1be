// Descriptors that a region publishes from a view: after the restore they name,
// in the tensor's own memory, the elements they named in the copy.
module Published {
  import opened Strided
  import opened Abi
  import opened Packing
  import opened Blocks
  import opened Plan
  import opened Staging
  import opened Execute
  import opened Unpack
  import opened Redirect
  import opened Region

  // The view `f` that the restore takes for the one a descriptor came from.
  ghost predicate RestoredFrom(vs0: seq<View>, vs: seq<View>, sp: seq<CopySpan>, ds0: seq<Desc>, f: nat, d: Desc)
    requires PlanOk(vs0, sp, ds0)
  {
    && |vs| == |vs0| && f < |vs0| && 0 <= vs0[f].span < |sp|
    && SavedFrom(vs0[f], vs[f]) && Saves(vs[f], ds0[vs0[f].desc])
    && d.aligned == AtOf(vs0[f], sp) && |d.sizes| == |d.strides|
  }

  // A byte of a shared copy stands for the byte as far into the tensor's memory.
  lemma SharedByte(vs: seq<View>, sp: seq<CopySpan>, descs: seq<Desc>, f: nat, x: int, y: int)
    requires PlanOk(vs, sp, descs) && f < |vs| && 0 <= vs[f].span < |sp| && !vs[f].packed
    requires 0 <= y - sp[vs[f].span].copy < sp[vs[f].span].bytes
    ensures Cell(AllHosts(vs, sp, descs), Copies(sp), vs[f].span, y - sp[vs[f].span].copy, x, y)
       <==> x - vs[f].start == y - AtOf(vs[f], sp)
  {
    assert Seated(vs, sp, descs, f);
    SharedSpan(vs, sp, descs, f);
  }

  lemma ViewStart(vs: seq<View>, sp: seq<CopySpan>, descs: seq<Desc>, f: nat)
    requires PlanOk(vs, sp, descs) && f < |vs| && 0 <= vs[f].span < |sp|
    ensures vs[f].start == descs[vs[f].desc].aligned + descs[vs[f].desc].offset * DtypeBytes(vs[f].elem)
  {
    assert Seated(vs, sp, descs, f);
  }

  lemma OffsetsShift(host: int, copy: int, o: int, q: int, l: int, b: int, c: int, k: int)
    ensures (host + (q + o + l) * b + k) - (host + o * c) == (copy + (q + l) * b + k) - copy <==> o == 0 || b == c
  {
    OffsetsAgree(o, b, c);
    ElementSum(host, q + l, o, b);
  }

  // In a shared copy: the byte a restored descriptor names is the byte that its
  // copy stands for, exactly when the view had offset 0 or has the descriptor's
  // element size.
  lemma PublishedShared(vs0: seq<View>, vs: seq<View>, sp: seq<CopySpan>, ds0: seq<Desc>, f: nat, own: bool, d: Desc,
                        d': Desc, b: int, t: seq<int>, k: nat)
    requires PlanOk(vs0, sp, ds0) && RestoredFrom(vs0, vs, sp, ds0, f, d) && !vs0[f].packed
    requires RestoredBy(vs[f], own, d, d') && InRange(t, d.sizes) && k < b
    requires 0 <= ElementByte(d, b, t, k) - sp[vs0[f].span].copy < sp[vs0[f].span].bytes
    ensures var y := ElementByte(d, b, t, k);
            Cell(AllHosts(vs0, sp, ds0), Copies(sp), vs0[f].span, y - sp[vs0[f].span].copy, ElementByte(d', b, t, k), y)
            <==> ds0[vs0[f].desc].offset == 0 || b == DtypeBytes(vs0[f].elem)
  {
    hide AllHosts, Copies, Cell;
    var o, c := ds0[vs0[f].desc].offset, DtypeBytes(vs0[f].elem);
    SharedByte(vs0, sp, ds0, f, ElementByte(d', b, t, k), ElementByte(d, b, t, k));
    ViewStart(vs0, sp, ds0, f);
    OffsetsShift(vs[f].aligned, d.aligned, o, d.offset, Linear(t, d.strides), b, c, k);
  }

  lemma DenseElement(v: Layout, p: nat, k: nat, c: int)
    requires ValidLayout(v) && p < Product(v.sizes) && k < v.elem && c == p * v.elem + k
    ensures 0 <= c < DenseBytes(v)
    ensures HostByte(v, c) == v.start + OffsetAt(p, v.sizes, v.strides) * v.elem + k
  {
    hide Product;
    DigitBound(p, Product(v.sizes), k, v.elem);
    DigitSplit(c, p, k, v.elem);
  }

  // The cell of the element at dense position `p`, byte `k`.
  lemma PackedElement(vs: seq<View>, sp: seq<CopySpan>, descs: seq<Desc>, f: nat, p: nat, k: nat, c: int)
    requires PlanOk(vs, sp, descs) && f < |vs| && vs[f].packed && 0 <= vs[f].span < |sp|
    requires |vs[f].sizes| == |vs[f].strides| && AllPositive(vs[f].sizes)
    requires p < Product(vs[f].sizes) && k < DtypeBytes(vs[f].elem) && c == p * DtypeBytes(vs[f].elem) + k
    ensures var b := DtypeBytes(vs[f].elem);
            Cell(AllHosts(vs, sp, descs), Copies(sp), vs[f].span, c,
                 vs[f].start + OffsetAt(p, vs[f].sizes, vs[f].strides) * b + k, AtOf(vs[f], sp) + c)
  {
    assert Seated(vs, sp, descs, f);
    PackedLayout(vs, sp, descs, vs[f].span);
    DenseElement(LayoutOf(vs[f]), p, k, c);
  }

  lemma PackedStart(vs: seq<View>, sp: seq<CopySpan>, descs: seq<Desc>, f: nat)
    requires PlanOk(vs, sp, descs) && f < |vs| && vs[f].packed
    ensures 0 <= vs[f].span < |sp| && |vs[f].sizes| == |vs[f].strides| && AllPositive(vs[f].sizes)
    ensures vs[f].start == descs[vs[f].desc].aligned + descs[vs[f].desc].offset * DtypeBytes(vs[f].elem)
  {
    assert Seated(vs, sp, descs, f);
    PackedLayout(vs, sp, descs, vs[f].span);
  }

  // In a dense copy: a descriptor that unpack accepts names, element by element,
  // the bytes that its dense copy stands for.
  lemma PublishedPacked(vs0: seq<View>, vs: seq<View>, sp: seq<CopySpan>, ds0: seq<Desc>, f: nat, own: bool, d: Desc,
                        d': Desc, t: seq<int>, k: nat)
    requires PlanOk(vs0, sp, ds0) && RestoredFrom(vs0, vs, sp, ds0, f, d) && vs0[f].packed
    requires RestoredBy(vs[f], own, d, d') && !(own && d.offset == 0)
    requires InRange(t, d.sizes) && k < DtypeBytes(vs0[f].elem)
    ensures var b := DtypeBytes(vs0[f].elem);
            Cell(AllHosts(vs0, sp, ds0), Copies(sp), vs0[f].span, (d.offset + Linear(t, d.strides)) * b + k,
                 ElementByte(d', b, t, k), ElementByte(d, b, t, k))
  {
    hide PlanOk, AllHosts, Accepts;
    var b, v := DtypeBytes(vs0[f].elem), vs0[f];
    PackedStart(vs0, sp, ds0, f);
    var p := d.offset + Linear(t, d.strides);
    assert 0 <= p < Product(v.sizes)
           && d'.offset + Linear(t, d'.strides) == vs[f].offset + OffsetAt(p, v.sizes, v.strides);
    PackedElement(vs0, sp, ds0, f, p, k, p * b + k);
    ElementSum(vs[f].aligned, vs[f].offset, OffsetAt(p, v.sizes, v.strides), b);
  }

  // ---- A view's own descriptor, republished ----

  // What the own-descriptor branch of the restore needs of a descriptor with
  // offset 0: giving it the view's strides names the same elements.
  ghost predicate OwnBranchExact(vsizes: seq<int>, vstrides: seq<int>, sizes: seq<int>, strides: seq<int>)
    requires |vsizes| == |vstrides| == |sizes| == |strides| && AllPositive(vsizes)
  {
    SameElements(vsizes, vstrides, 0, sizes, 0, strides, 0, vstrides)
  }

  lemma UnitTuple(sizes: seq<int>, k: nat)
    requires AllPositive(sizes) && k < |sizes| && sizes[k] > 1
    ensures InRange(Zeros(|sizes|)[k := 1], sizes)
  {}

  lemma UnitIsDense(vsizes: seq<int>, vstrides: seq<int>, k: nat, p: nat)
    requires |vsizes| == |vstrides| && AllPositive(vsizes) && Nested(vsizes, vstrides)
    requires k < |vsizes| && vsizes[k] > 1 && p < Product(vsizes) && OffsetAt(p, vsizes, vstrides) == vstrides[k]
    ensures p == DenseStrides(vsizes)[k]
  {
    var e := Zeros(|vsizes|)[k := 1];
    UnitTuple(vsizes, k);
    LinearOfUnit(vstrides, k);
    LinearOfUnit(DenseStrides(vsizes), k);
    PositionOfTuple(p, vsizes);
    OffsetIsLinear(p, vsizes, vstrides);
    NestedInjective(TupleAt(p, vsizes), e, vsizes, vstrides);
    DenseIsPosition(e, vsizes);
  }

  // In every dimension of more than one element an exact branch has the one stride that the view's own
  // stride allows. It is the dense stride where the view has more than one element too.
  lemma OwnBranchOnly(vsizes: seq<int>, vstrides: seq<int>, sizes: seq<int>, strides: seq<int>, k: nat)
    requires |vsizes| == |vstrides| == |sizes| == |strides| && AllPositive(vsizes) && Nested(vsizes, vstrides)
    requires AllPositive(sizes) && k < |sizes| && sizes[k] > 1 && OwnBranchExact(vsizes, vstrides, sizes, strides)
    ensures 0 <= strides[k] < Product(vsizes) && OffsetAt(strides[k], vsizes, vstrides) == vstrides[k]
    ensures vsizes[k] > 1 ==> strides[k] == DenseStrides(vsizes)[k]
  {
    hide Nested, Product, OffsetAt, DenseStrides, Linear;
    var e := Zeros(|sizes|)[k := 1];
    UnitTuple(sizes, k);
    LinearOfUnit(strides, k);
    LinearOfUnit(vstrides, k);
    assert InRange(e, sizes);
    if vsizes[k] > 1 {
      UnitIsDense(vsizes, vstrides, k, strides[k]);
    }
  }

  // For a part of the view, dimension by dimension, the branch is exact when, and only when, the region
  // left the dense strides. The source tests the offset and not the strides.
  lemma OwnBranchIff(vsizes: seq<int>, vstrides: seq<int>, sizes: seq<int>, strides: seq<int>)
    requires |vsizes| == |vstrides| == |sizes| == |strides| && AllPositive(vsizes) && Nested(vsizes, vstrides)
    requires forall k :: 0 <= k < |sizes| ==> 1 <= sizes[k] <= vsizes[k]
    ensures OwnBranchExact(vsizes, vstrides, sizes, strides)
       <==> forall k :: 0 <= k < |sizes| && sizes[k] > 1 ==> strides[k] == DenseStrides(vsizes)[k]
  {
    hide Nested, Product, OffsetAt, DenseStrides, Linear, OwnBranchExact;
    if OwnBranchExact(vsizes, vstrides, sizes, strides) {
      forall k | 0 <= k < |sizes| && sizes[k] > 1
        ensures strides[k] == DenseStrides(vsizes)[k]
      {
        OwnBranchOnly(vsizes, vstrides, sizes, strides, k);
      }
    }
    if forall k :: 0 <= k < |sizes| && sizes[k] > 1 ==> strides[k] == DenseStrides(vsizes)[k] {
      var at := seq(|sizes|, k requires 0 <= k < |sizes| => k);
      OwnBranchRearranged(at, vsizes, vstrides, sizes, strides);
    }
  }

  // ---- Dimensions in another order ----

  // No two dimensions are one.
  predicate NoneTwice(at: seq<nat>) {
    forall j, k :: 0 <= j < k < |at| ==> at[j] != at[k]
  }

  // Published dimension `k` is a part of dimension `at[k]` of the view, and no two are of one.
  ghost predicate Rearranges(at: seq<nat>, vsizes: seq<int>, sizes: seq<int>, strides: seq<int>)
    requires |vsizes| == |sizes| == |strides|
  {
    && |at| == |sizes| && NoneTwice(at)
    && forall k :: 0 <= k < |at| ==>
         && at[k] < |vsizes| && 1 <= sizes[k] <= vsizes[at[k]]
         && (sizes[k] > 1 ==> strides[k] == DenseStrides(vsizes)[at[k]])
  }

  // The tuple of the view for the first `n` numbers of a published tuple.
  function Placed(t: seq<int>, at: seq<nat>, rank: nat, n: nat): (u: seq<int>)
    requires n <= |t| == |at| && forall k :: 0 <= k < |at| ==> at[k] < rank
    ensures |u| == rank && forall j :: 0 <= j < rank ==> u[j] == 0 || j in at[..n]
  {
    if n == 0 then Zeros(rank)
    else Placed(t, at, rank, n - 1)[at[n - 1] := t[n - 1]]
  }

  lemma {:induction false} PlacedInRange(t: seq<int>, at: seq<nat>, vsizes: seq<int>, n: nat)
    requires AllPositive(vsizes) && n <= |t| == |at|
    requires forall k :: 0 <= k < |at| ==> at[k] < |vsizes| && 0 <= t[k] < vsizes[at[k]]
    ensures InRange(Placed(t, at, |vsizes|, n), vsizes)
  {
    if n > 0 {
      PlacedInRange(t, at, vsizes, n - 1);
    }
  }

  // Both tuples have one index, in strides that go along.
  lemma {:induction false} PlacedLinear(t: seq<int>, at: seq<nat>, s: seq<int>, r: seq<int>, n: nat)
    requires n <= |t| == |at| == |r| && NoneTwice(at)
    requires forall k :: 0 <= k < |at| ==> at[k] < |s| && (t[k] == 0 || r[k] == s[at[k]])
    ensures Linear(Placed(t, at, |s|, n), s) == Linear(t[..n], r[..n])
  {
    hide Linear, NoneTwice;
    if n == 0 {
      LinearOfZeros(s);
      LinearOfZeros([]);
      assert t[..0] == Zeros(0) && r[..0] == [];
    } else {
      PlacedLinear(t, at, s, r, n - 1);
      PlacedZero(t, at, |s|, n);
      LinearUpdate(Placed(t, at, |s|, n - 1), s, at[n - 1], t[n - 1]);
      LinearStep(t, r, n);
      SameTerm(t[n - 1], r[n - 1], s[at[n - 1]]);
    }
  }

  lemma PlacedZero(t: seq<int>, at: seq<nat>, rank: nat, n: nat)
    requires 0 < n <= |t| == |at| && NoneTwice(at) && forall k :: 0 <= k < |at| ==> at[k] < rank
    ensures Placed(t, at, rank, n - 1)[at[n - 1]] == 0
  {
    assert at[n - 1] !in at[..n - 1];
  }

  lemma SameTerm(t: int, r: int, s: int)
    requires t == 0 || r == s
    ensures t * r == t * s
  {}

  lemma LinearStep(t: seq<int>, r: seq<int>, n: nat)
    requires 0 < n <= |t| == |r|
    ensures Linear(t[..n], r[..n]) == Linear(t[..n - 1], r[..n - 1]) + t[n - 1] * r[n - 1]
  {
    assert t[..n][..n - 1] == t[..n - 1] && r[..n][..n - 1] == r[..n - 1];
  }

  // The element that a published tuple names, and the view's own strides.
  lemma RearrangedElement(at: seq<nat>, vsizes: seq<int>, vstrides: seq<int>, sizes: seq<int>, strides: seq<int>,
                          t: seq<int>)
    requires |vsizes| == |vstrides| == |sizes| == |strides| && AllPositive(vsizes)
    requires Rearranges(at, vsizes, sizes, strides) && InRange(t, sizes)
    ensures var u := Placed(t, at, |vsizes|, |t|);
            && 0 <= Linear(t, strides) < Product(vsizes)
            && OffsetAt(Linear(t, strides), vsizes, vstrides) == Linear(u, vstrides)
  {
    hide Product, OffsetAt, Linear, DenseStrides, Placed;
    var u := Placed(t, at, |vsizes|, |t|);
    PlacedInRange(t, at, vsizes, |t|);
    PlacedLinear(t, at, DenseStrides(vsizes), strides, |t|);
    assert t[..|t|] == t && strides[..|t|] == strides;
    DenseIsPosition(u, vsizes);
    PositionBound(u, vsizes);
    OffsetOfTuple(u, vsizes, vstrides);
  }

  // A part of the view with its dimensions in any order comes back exactly when each dimension of more
  // than one element goes where the view has the same stride.
  lemma OwnBranchRearranged(at: seq<nat>, vsizes: seq<int>, vstrides: seq<int>, sizes: seq<int>, strides: seq<int>)
    requires |vsizes| == |vstrides| == |sizes| == |strides| && AllPositive(vsizes)
    requires Rearranges(at, vsizes, sizes, strides)
    ensures OwnBranchExact(vsizes, vstrides, sizes, strides)
       <==> forall k :: 0 <= k < |sizes| && sizes[k] > 1 ==> vstrides[k] == vstrides[at[k]]
  {
    hide Product, OffsetAt, Linear, DenseStrides, Placed;
    if OwnBranchExact(vsizes, vstrides, sizes, strides) {
      forall k | 0 <= k < |sizes| && sizes[k] > 1
        ensures vstrides[k] == vstrides[at[k]]
      {
        RearrangedUnit(at, vsizes, vstrides, sizes, strides, k);
      }
    }
    if forall k :: 0 <= k < |sizes| && sizes[k] > 1 ==> vstrides[k] == vstrides[at[k]] {
      forall t | InRange(t, sizes)
        ensures 0 <= Linear(t, strides) < Product(vsizes)
        ensures Linear(t, vstrides) == OffsetAt(Linear(t, strides), vsizes, vstrides)
      {
        RearrangedElement(at, vsizes, vstrides, sizes, strides, t);
        PlacedLinear(t, at, vstrides, vstrides, |t|);
        assert t[..|t|] == t && vstrides[..|t|] == vstrides;
      }
    }
  }

  lemma RearrangedUnit(at: seq<nat>, vsizes: seq<int>, vstrides: seq<int>, sizes: seq<int>, strides: seq<int>, k: nat)
    requires |vsizes| == |vstrides| == |sizes| == |strides| && AllPositive(vsizes)
    requires Rearranges(at, vsizes, sizes, strides) && k < |sizes| && sizes[k] > 1
    requires OwnBranchExact(vsizes, vstrides, sizes, strides)
    ensures vstrides[k] == vstrides[at[k]]
  {
    hide Product, OffsetAt, Linear, DenseStrides, Placed;
    var e := Zeros(|sizes|)[k := 1];
    UnitTuple(sizes, k);
    LinearOfUnit(vstrides, k);
    assert InRange(e, sizes);
    RearrangedElement(at, vsizes, vstrides, sizes, strides, e);
    var r := seq(|at|, j requires 0 <= j < |at| => vstrides[at[j]]);
    PlacedLinear(e, at, vstrides, r, |e|);
    assert e[..|e|] == e && r[..|e|] == r;
    LinearOfUnit(r, k);
  }

  // The transpose of a view, of any shape, in the view's own descriptor is lost.
  lemma TransposeIsLost(vsizes: seq<int>, vstrides: seq<int>)
    requires |vsizes| == |vstrides| == 2 && vsizes[0] > 1 && vsizes[1] > 1
    requires Nested(vsizes, vstrides)
    ensures var dense := DenseStrides(vsizes);
            !OwnBranchExact(vsizes, vstrides, [vsizes[1], vsizes[0]], [dense[1], dense[0]])
  {
    hide OwnBranchExact, DenseStrides;
    var dense, sizes, at := DenseStrides(vsizes), [vsizes[1], vsizes[0]], [1, 0];
    OwnBranchRearranged(at, vsizes, vstrides, sizes, [dense[1], dense[0]]);
    assert sizes[0] > 1 && at[0] == 1;
    assert vstrides[0] != vstrides[1] by {
      MulLe(2, vsizes[0], vstrides[0]);
      MulLe(2, vsizes[1], vstrides[1]);
    }
  }

  // The dense strides are not enough for a descriptor that goes past a dimension of the view: here
  // [0, 3] is the first element of the next row.
  lemma DensePastRow()
    ensures var vsizes, vstrides := [3, 3], [10, 2];
            && Nested(vsizes, vstrides) && DenseStrides(vsizes) == [3, 1]
            && !OwnBranchExact(vsizes, vstrides, [2, 4], [3, 1])
  {
    hide Linear, DenseStrides, OffsetAt, Product;
    var vsizes, vstrides := [3, 3], [10, 2];
    assert Past(vsizes, vstrides, 1, 0);
    DenseOfThrees();
    PairOffset(vsizes, vstrides, [1, 0]);
    assert InRange([0, 3], [2, 4]);
    LinearOfPair([0, 3], [3, 1]);
    LinearOfPair([0, 3], vstrides);
    assert OffsetAt(3, vsizes, vstrides) == 10;
  }

  lemma DenseOfThrees()
    ensures DenseStrides([3, 3]) == [3, 1]
  {
    var sizes := [3, 3];
    assert sizes[1..] == [3] && sizes[2..] == [];
    assert Product([3]) == Product([]) * 3 by { assert [3][..0] == []; }
  }

  lemma PairOffset(vsizes: seq<int>, vstrides: seq<int>, t: seq<int>)
    requires |vsizes| == |vstrides| == 2 && AllPositive(vsizes) && InRange(t, vsizes)
    ensures var p := t[0] * DenseStrides(vsizes)[0] + t[1] * DenseStrides(vsizes)[1];
            p >= 0 && OffsetAt(p, vsizes, vstrides) == t[0] * vstrides[0] + t[1] * vstrides[1]
  {
    hide OffsetAt, DenseStrides, Linear;
    DenseIsPosition(t, vsizes);
    OffsetOfTuple(t, vsizes, vstrides);
    LinearOfPair(t, DenseStrides(vsizes));
    LinearOfPair(t, vstrides);
  }

  lemma LinearOfPair(t: seq<int>, s: seq<int>)
    requires |t| == |s| == 2
    ensures Linear(t, s) == t[0] * s[0] + t[1] * s[1]
  {
    assert t[..1] == [t[0]] && s[..1] == [s[0]];
    assert [t[0]][..0] == [] && [s[0]][..0] == [];
    assert Linear([t[0]], [s[0]]) == t[0] * s[0];
  }
}
