// How a worker turns wire arguments back into a local argument list (runtime/vx_agent.h).
module Agent {
  import opened Strided
  import opened Abi
  import opened Wire
  import opened Handles
  import opened Worker

  // An argument as a kernel on the worker sees it. A tensor's descriptor points `offset`
  // bytes into a device buffer.
  datatype Rebuilt =
    | Value(bytes: Bytes)
    | Tensor(remote: nat, offset: nat, sizes: seq<int>, strides: seq<int>)
    | EmptySlot

  // The view of the argument fits in `room` bytes.
  ghost predicate FitsIn(a: Arg, room: int)
    requires Sized(a)
  {
    exists bytes :: IsSpanOf(a.sizes, a.strides, Elem(a.tag), SpanBytes(bytes)) && bytes <= room
  }

  // vx_agent_view_fits
  method ViewFits(a: Arg, room: int) returns (ok: bool)
    requires Sized(a)
    ensures ok <==> FitsIn(a, room)
  {
    var span := ViewSpan(a.sizes, a.strides, Elem(a.tag));
    ok := span.SpanBytes? && span.bytes <= room;
    forall bytes | IsSpanOf(a.sizes, a.strides, Elem(a.tag), SpanBytes(bytes))
      ensures span == SpanBytes(bytes)
    {
      SpanUnique(a.sizes, a.strides, Elem(a.tag), span, SpanBytes(bytes));
    }
  }

  ghost predicate NamesView(rs: seq<Region>, a: Arg, r: Rebuilt)
    requires Sized(a)
  {
    var ref := Resolve(rs, a.handle);
    && ref.Ref? && FitsIn(a, rs[ref.index].size - ref.offset)
    && r == Tensor(rs[ref.index].remote, ref.offset, a.sizes, a.strides)
  }

  // What an argument must become.
  ghost predicate Rebuilds(rs: seq<Region>, a: Arg, r: Rebuilt)
    requires Sized(a)
  {
    if IsSlot(a.tag) then Rank(a.tag) <= MAX_RANK && (if a.handle == 0 then r == EmptySlot else NamesView(rs, a, r))
    else if Kind(a.tag) != 0 then r == Value(a.scalar)
    else NamesView(rs, a, r)
  }

  // There is one way to rebuild an argument.
  function RebuiltAs(rs: seq<Region>, a: Arg): Rebuilt {
    if IsSlot(a.tag) && a.handle == 0 then EmptySlot
    else if !IsSlot(a.tag) && Kind(a.tag) != 0 then Value(a.scalar)
    else
      var ref := Resolve(rs, a.handle);
      if ref.Nowhere? then EmptySlot else Tensor(rs[ref.index].remote, ref.offset, a.sizes, a.strides)
  }

  lemma RebuiltOnce(rs: seq<Region>, a: Arg, r: Rebuilt)
    requires Sized(a) && Rebuilds(rs, a, r)
    ensures r == RebuiltAs(rs, a) && (r.EmptySlot? <==> IsSlot(a.tag) && a.handle == 0)
  {
    hide Resolve, FitsIn, IsSlot, Kind, Rank, AllI64;
  }

  ghost predicate CanRebuild(rs: seq<Region>, a: Arg)
    requires Sized(a)
  {
    exists r :: Rebuilds(rs, a, r)
  }

  function DescBytes(rank: nat): nat {
    24 + 16 * rank
  }

  // The descriptor storage an argument takes.
  function Need(a: Arg): nat {
    if IsSlot(a.tag) then DescBytes(Rank(a.tag)) + DescBytes(0)
    else if Kind(a.tag) != 0 then 0
    else DescBytes(|a.sizes|)
  }

  // Resolve and check a view.
  method FindView(t: RegionTable, a: Arg) returns (ok: bool, r: Rebuilt)
    requires t.Valid() && Sized(a)
    ensures ok <==> exists q :: NamesView(t.regions[..t.count], a, q)
    ensures ok ==> NamesView(t.regions[..t.count], a, r)
  {
    hide Resolve, FitsIn, AllI64;
    r := EmptySlot;
    var ref := t.TableResolve(a.handle);
    if ref.Nowhere? {
      return false, r;
    }
    var region := t.regions[ref.index];
    ok := ViewFits(a, region.size - ref.offset);
    r := Tensor(region.remote, ref.offset, a.sizes, a.strides);
    assert ok ==> NamesView(t.regions[..t.count], a, r);
  }

  // vx_agent_rebuild_arg
  method RebuildArg(t: RegionTable, a: Arg, cursor: nat, capacity: nat) returns (ok: bool, r: Rebuilt, next: nat)
    requires t.Valid() && Sized(a) && cursor <= capacity
    ensures ok <==> CanRebuild(t.regions[..t.count], a) && cursor + Need(a) <= capacity
    ensures ok ==> Rebuilds(t.regions[..t.count], a, r) && next == cursor + Need(a) <= capacity
  {
    hide NamesView, IsSlot, Kind, Rank, AllI64;
    next := cursor;
    r := EmptySlot;
    ghost var rs := t.regions[..t.count];
    if IsSlot(a.tag) {
      if Rank(a.tag) > MAX_RANK || cursor + DescBytes(Rank(a.tag)) + DescBytes(0) > capacity {
        return false, r, next;
      }
      if a.handle != 0 {
        ok, r := FindView(t, a);
        if !ok {
          return;
        }
      }
      assert Rebuilds(rs, a, r);
      next := cursor + DescBytes(Rank(a.tag)) + DescBytes(0);
      ok := true;
    } else if Kind(a.tag) != 0 {
      r := Value(a.scalar);
      assert Rebuilds(rs, a, r);
      ok := true;
    } else {
      ok, r := FindView(t, a);
      if !ok {
        return;
      }
      assert Rebuilds(rs, a, r);
      next := cursor + DescBytes(|a.sizes|);
      ok := next <= capacity;
    }
  }

  const MAX_ARGS: nat := 16
  const DESCRIPTORS: nat := 4096

  lemma SmallNeed(rs: seq<Region>, a: Arg)
    requires Sized(a) && CanRebuild(rs, a)
    ensures Need(a) <= 176
  {
    hide NamesView, IsSlot, Kind, Rank;
  }

  // vx_agent_rebuild_args: the storage never runs out, so a list is refused exactly
  // when one of its arguments is.
  method RebuildArgs(t: RegionTable, args: seq<Arg>) returns (ok: bool, out: seq<Rebuilt>)
    requires t.Valid() && AllSized(args) && |args| <= MAX_ARGS
    ensures ok <==> forall i :: 0 <= i < |args| ==> CanRebuild(t.regions[..t.count], args[i])
    ensures ok ==> |out| == |args| && forall i :: 0 <= i < |args| ==> Rebuilds(t.regions[..t.count], args[i], out[i])
  {
    hide Rebuilds, CanRebuild, Sized, Need;
    out := [];
    var cursor: nat := 0;
    ghost var rs := t.regions[..t.count];
    var i := 0;
    while i < |args|
      invariant 0 <= i <= |args| && |out| == i && cursor <= 176 * i && cursor <= DESCRIPTORS
      invariant forall k :: 0 <= k < i ==> CanRebuild(rs, args[k]) && Rebuilds(rs, args[k], out[k])
    {
      var r;
      if CanRebuild(rs, args[i]) {
        SmallNeed(rs, args[i]);
      }
      ok, r, cursor := RebuildArg(t, args[i], cursor, DESCRIPTORS);
      if !ok {
        return;
      }
      out := out + [r];
      i := i + 1;
    }
    ok := true;
  }

  // Every element of a rebuilt view lies inside its device buffer.
  lemma InsideBuffer(w: State, a: Arg, r: Rebuilt, t: seq<int>, k: nat)
    requires Sound(w) && Sized(a) && Rebuilds(w.table.regions, a, r) && r.Tensor?
    requires InRange(t, r.sizes) && k < DtypeBytes(Elem(a.tag))
    ensures |r.strides| == |r.sizes| && r.remote in w.heap
    ensures 0 <= r.offset + Linear(t, r.strides) * DtypeBytes(Elem(a.tag)) + k < |w.heap[r.remote]|
  {
    hide Inv, Resolve, AllI64;
    var ref := Resolve(w.table.regions, a.handle);
    assert Backed(w, ref.index);
    var bytes :| IsSpanOf(a.sizes, a.strides, Elem(a.tag), SpanBytes(bytes))
    && bytes <= w.table.regions[ref.index].size - ref.offset;
    SpanMeaning(a.sizes, a.strides, Elem(a.tag), bytes);
    Inside(Linear(t, a.strides), DtypeBytes(Elem(a.tag)), k, bytes);
  }

  lemma Inside(l: int, b: int, k: nat, bytes: int)
    requires 0 <= l && (l + 1) * b <= bytes && k < b
    ensures 0 <= l * b + k < bytes
  {}
}
