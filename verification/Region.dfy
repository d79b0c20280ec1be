// A region run away from the memory of its tensors: copy out, redirect, run,
// copy back, restore. It ends as if the region had run in place.
module Region {
  import opened Strided
  import opened Abi
  import opened Plan
  import opened Copying
  import opened Staging
  import opened Execute
  import opened Unpack
  import opened Redirect

  // ---- Copying every span ----

  lemma SpanApart(vs: seq<View>, sp: seq<CopySpan>, descs: seq<Desc>, m: seq<Byte>, s: nat)
    requires PlanOk(vs, sp, descs) && Allocated(vs, sp, descs, |m|) && s < |sp|
    ensures InMemory(HostsOf(vs, sp, descs, s), m) && Apart(HostsOf(vs, sp, descs, s), sp[s].copy, m)
    ensures Distinct(HostsOf(vs, sp, descs, s))
  {
    var h := HostsOf(vs, sp, descs, s);
    forall c | 0 <= c < |h|
      ensures 0 <= h[c] < |m| && (h[c] < sp[s].copy || sp[s].copy + |h| <= h[c])
    {
      HostPlace(vs, sp, descs, |m|, s, c);
      assert !InBlock(AllHosts(vs, sp, descs), Copies(sp), s, h[c]);
    }
    forall c, e | 0 <= c < e < |h|
      ensures h[c] != h[e]
    {
      if h[c] == h[e] {
        HostsInjective(vs, sp, descs, s, c, s, e);
      }
    }
  }

  // Copy span `s` out, whole or as a dense copy.
  method CopyOut(mem: array<Byte>, vs: seq<View>, sp: seq<CopySpan>, ghost descs: seq<Desc>, s: nat)
    requires PlanOk(vs, sp, descs) && Allocated(vs, sp, descs, mem.Length) && s < |sp|
    requires InMemory(HostsOf(vs, sp, descs, s), mem[..]) && Apart(HostsOf(vs, sp, descs, s), sp[s].copy, mem[..])
    modifies mem
    ensures CopiedOut(old(mem[..]), mem[..], HostsOf(vs, sp, descs, s), sp[s].copy, sp[s].bytes)
  {
    PackedLayout(vs, sp, descs, s);
    if sp[s].view >= 0 {
      Gather(mem, LayoutOf(vs[sp[s].view]), sp[s].copy);
    } else {
      HullPositive(vs, sp, descs, s);
      ghost var h := HostsOf(vs, sp, descs, s);
      assert h[0] == sp[s].start && h[sp[s].bytes - 1] == sp[s].start + sp[s].bytes - 1;
      RunApart(h, sp[s].copy, 0, sp[s].start, sp[s].bytes, mem[..]);
      Memcpy(mem, sp[s].copy, sp[s].start, sp[s].bytes);
    }
  }

  // Copy span `s` back.
  method CopyBack(mem: array<Byte>, vs: seq<View>, sp: seq<CopySpan>, ghost descs: seq<Desc>, s: nat)
    requires PlanOk(vs, sp, descs) && Allocated(vs, sp, descs, mem.Length) && s < |sp|
    requires InMemory(HostsOf(vs, sp, descs, s), mem[..]) && Apart(HostsOf(vs, sp, descs, s), sp[s].copy, mem[..])
    requires Distinct(HostsOf(vs, sp, descs, s))
    modifies mem
    ensures CopiedBack(old(mem[..]), mem[..], HostsOf(vs, sp, descs, s), sp[s].copy, sp[s].bytes)
  {
    PackedLayout(vs, sp, descs, s);
    if sp[s].view >= 0 {
      Scatter(mem, LayoutOf(vs[sp[s].view]), sp[s].copy);
    } else {
      HullPositive(vs, sp, descs, s);
      ghost var h := HostsOf(vs, sp, descs, s);
      RunMembers(h, 0, sp[s].start, sp[s].bytes, sp[s].start);
      ScatterRun(mem, mem[..], h, sp[s].copy, 0, sp[s].start, sp[s].bytes);
    }
  }

  // The first `n` spans are in their copies, and nothing else changed.
  ghost predicate OutUpTo(hosts: seq<seq<int>>, copies: seq<int>, m: seq<Byte>, m': seq<Byte>, n: nat)
    requires Faithful(hosts, copies, |m|) && n <= |hosts|
  {
    && |m'| == |m|
    && (forall s, c :: 0 <= s < n && 0 <= c < |hosts[s]| ==> m'[copies[s] + c] == m[hosts[s][c]])
    && (forall x :: 0 <= x < |m| && !InAnyBlock(hosts, copies, x) ==> m'[x] == m[x])
  }

  lemma OutStep(hosts: seq<seq<int>>, copies: seq<int>, m: seq<Byte>, m1: seq<Byte>, m2: seq<Byte>, n: nat)
    requires Faithful(hosts, copies, |m|) && n < |hosts| && OutUpTo(hosts, copies, m, m1, n)
    requires InMemory(hosts[n], m1) && Apart(hosts[n], copies[n], m1)
    requires CopiedOut(m1, m2, hosts[n], copies[n], |hosts[n]|)
    ensures OutUpTo(hosts, copies, m, m2, n + 1)
  {
    forall s, c | 0 <= s < n + 1 && 0 <= c < |hosts[s]|
      ensures m2[copies[s] + c] == m[hosts[s][c]]
    {
      if s == n {
        assert !InAnyBlock(hosts, copies, hosts[n][c]);
      } else {
        assert InBlock(hosts, copies, s, copies[s] + c);
        assert !InBlock(hosts, copies, n, copies[s] + c);
      }
    }
    forall x | 0 <= x < |m| && !InAnyBlock(hosts, copies, x)
      ensures m2[x] == m[x]
    {
      assert !InBlock(hosts, copies, n, x);
    }
  }

  lemma OutIsMirror(hosts: seq<seq<int>>, copies: seq<int>, m: seq<Byte>, m': seq<Byte>)
    requires Faithful(hosts, copies, |m|) && OutUpTo(hosts, copies, m, m', |hosts|)
    ensures Mirror(hosts, copies, m, m')
  {}

  // Copy every span out: memory then mirrors itself in the copies.
  method CopyAllOut(mem: array<Byte>, vs: seq<View>, sp: seq<CopySpan>, ghost descs: seq<Desc>)
    requires PlanOk(vs, sp, descs) && Allocated(vs, sp, descs, mem.Length)
    modifies mem
    ensures Mirror(AllHosts(vs, sp, descs), Copies(sp), old(mem[..]), mem[..])
  {
    hide PlanOk, Allocated, HostsOf, Mirror;
    PlannedIsFaithful(vs, sp, descs, mem.Length);
    ghost var hosts, copies, m := AllHosts(vs, sp, descs), Copies(sp), mem[..];
    var s := 0;
    while s < |sp|
      invariant 0 <= s <= |sp|
      invariant OutUpTo(hosts, copies, m, mem[..], s)
    {
      ghost var m1 := mem[..];
      SpanApart(vs, sp, descs, m1, s);
      CopyOut(mem, vs, sp, descs, s);
      OutStep(hosts, copies, m, m1, mem[..], s);
      s := s + 1;
    }
    OutIsMirror(hosts, copies, m, mem[..]);
  }

  // The first `n` spans are back in place. `m` is the memory in place.
  ghost predicate BackUpTo(hosts: seq<seq<int>>, copies: seq<int>, m: seq<Byte>, m': seq<Byte>, n: nat)
    requires Faithful(hosts, copies, |m|) && n <= |hosts|
  {
    && |m'| == |m|
    && (forall s, c :: 0 <= s < |hosts| && 0 <= c < |hosts[s]| ==> m'[copies[s] + c] == m[hosts[s][c]])
    && (forall s, c :: 0 <= s < n && 0 <= c < |hosts[s]| ==> m'[hosts[s][c]] == m[hosts[s][c]])
    && (forall x :: 0 <= x < |m| && !IsHost(hosts, x) && !InAnyBlock(hosts, copies, x) ==> m'[x] == m[x])
  }

  lemma NotBelow(hosts: seq<seq<int>>, copies: seq<int>, size: nat, n: nat, s: nat, c: nat)
    requires Faithful(hosts, copies, size) && n < |hosts| && s < |hosts| && s != n && c < |hosts[s]|
    ensures hosts[s][c] !in hosts[n]
  {}

  lemma BackStep(hosts: seq<seq<int>>, copies: seq<int>, m: seq<Byte>, m1: seq<Byte>, m2: seq<Byte>, n: nat)
    requires Faithful(hosts, copies, |m|) && n < |hosts| && BackUpTo(hosts, copies, m, m1, n)
    requires InMemory(hosts[n], m1) && Apart(hosts[n], copies[n], m1)
    requires CopiedBack(m1, m2, hosts[n], copies[n], |hosts[n]|)
    ensures BackUpTo(hosts, copies, m, m2, n + 1)
  {
    FaithfulSizes(hosts, copies, m);
    hide Faithful;
    BackCopies(hosts, copies, m, m1, m2, n);
    BackHosts(hosts, copies, m, m1, m2, n);
    var h := hosts[n];
    assert h[..|h|] == h;
    forall x | 0 <= x < |m| && !IsHost(hosts, x) && !InAnyBlock(hosts, copies, x)
      ensures m2[x] == m[x]
    {
      assert x !in h;
    }
  }

  // The copies are as they were.
  lemma BackCopies(hosts: seq<seq<int>>, copies: seq<int>, m: seq<Byte>, m1: seq<Byte>, m2: seq<Byte>, n: nat)
    requires Faithful(hosts, copies, |m|) && n < |hosts| && BackUpTo(hosts, copies, m, m1, n)
    requires InMemory(hosts[n], m1) && Apart(hosts[n], copies[n], m1)
    requires CopiedBack(m1, m2, hosts[n], copies[n], |hosts[n]|)
    ensures forall s, c :: 0 <= s < |hosts| && 0 <= c < |hosts[s]| ==>
               0 <= copies[s] + c < |m2| && m2[copies[s] + c] == m[hosts[s][c]]
  {
    forall s, c | 0 <= s < |hosts| && 0 <= c < |hosts[s]|
      ensures 0 <= copies[s] + c < |m2| && m2[copies[s] + c] == m[hosts[s][c]]
    {
      hide Faithful;
      BackCopy(hosts, copies, m, m1, m2, n, s, c);
    }
  }

  lemma BackCell(hosts: seq<seq<int>>, copies: seq<int>, m: seq<Byte>, m1: seq<Byte>, n: nat, s: nat, c: nat)
    requires Faithful(hosts, copies, |m|) && n < |hosts| && BackUpTo(hosts, copies, m, m1, n)
    requires s < |hosts| && c < |hosts[s]|
    ensures |hosts| == |copies| && |m1| == |m| && 0 <= hosts[s][c] < |m| && 0 <= copies[s] + c < |m|
    ensures InAnyBlock(hosts, copies, copies[s] + c)
    ensures m1[copies[s] + c] == m[hosts[s][c]] && (s < n ==> m1[hosts[s][c]] == m[hosts[s][c]])
  {
    FaithfulSizes(hosts, copies, m);
    CellPlaces(hosts, copies, |m|, s, c);
    hide Faithful, InAnyBlock, IsHost;
  }

  lemma BackCopy(hosts: seq<seq<int>>, copies: seq<int>, m: seq<Byte>, m1: seq<Byte>, m2: seq<Byte>, n: nat, s: nat,
                 c: nat)
    requires Faithful(hosts, copies, |m|) && n < |hosts| && BackUpTo(hosts, copies, m, m1, n)
    requires InMemory(hosts[n], m1) && Apart(hosts[n], copies[n], m1)
    requires CopiedBack(m1, m2, hosts[n], copies[n], |hosts[n]|)
    requires s < |hosts| && c < |hosts[s]|
    ensures 0 <= copies[s] + c < |m2| && m2[copies[s] + c] == m[hosts[s][c]]
  {
    hide Faithful, BackUpTo, InMemory, Apart, CopiedBack;
    BackCell(hosts, copies, m, m1, n, s, c);
    BlockIsNotHost(hosts, copies, |m|, n, copies[s] + c);
    Untouched(m1, m2, hosts[n], copies[n], copies[s] + c);
  }

  lemma CellPlaces(hosts: seq<seq<int>>, copies: seq<int>, size: nat, s: nat, c: nat)
    requires Faithful(hosts, copies, size) && s < |hosts| && c < |hosts[s]|
    ensures 0 <= hosts[s][c] < size && 0 <= copies[s] + c < size && InAnyBlock(hosts, copies, copies[s] + c)
  {
    assert InBlock(hosts, copies, s, copies[s] + c);
  }

  lemma Untouched(m1: seq<Byte>, m2: seq<Byte>, h: seq<int>, at: int, x: int)
    requires InMemory(h, m1) && Apart(h, at, m1) && CopiedBack(m1, m2, h, at, |h|) && 0 <= x < |m1| && x !in h
    ensures |m2| == |m1| && m2[x] == m1[x]
  {
    assert h[..|h|] == h;
  }

  // One more span is back.
  lemma BackHosts(hosts: seq<seq<int>>, copies: seq<int>, m: seq<Byte>, m1: seq<Byte>, m2: seq<Byte>, n: nat)
    requires Faithful(hosts, copies, |m|) && n < |hosts| && BackUpTo(hosts, copies, m, m1, n)
    requires InMemory(hosts[n], m1) && Apart(hosts[n], copies[n], m1)
    requires CopiedBack(m1, m2, hosts[n], copies[n], |hosts[n]|)
    ensures forall s, c :: 0 <= s < n + 1 && 0 <= c < |hosts[s]| ==>
               0 <= hosts[s][c] < |m2| && m2[hosts[s][c]] == m[hosts[s][c]]
  {
    forall s, c | 0 <= s < n + 1 && 0 <= c < |hosts[s]|
      ensures 0 <= hosts[s][c] < |m2| && m2[hosts[s][c]] == m[hosts[s][c]]
    {
      hide Faithful;
      BackHost(hosts, copies, m, m1, m2, n, s, c);
    }
  }

  lemma BackHost(hosts: seq<seq<int>>, copies: seq<int>, m: seq<Byte>, m1: seq<Byte>, m2: seq<Byte>, n: nat, s: nat,
                 c: nat)
    requires Faithful(hosts, copies, |m|) && n < |hosts| && BackUpTo(hosts, copies, m, m1, n)
    requires InMemory(hosts[n], m1) && Apart(hosts[n], copies[n], m1)
    requires CopiedBack(m1, m2, hosts[n], copies[n], |hosts[n]|)
    requires s < n + 1 && c < |hosts[s]|
    ensures 0 <= hosts[s][c] < |m2| && m2[hosts[s][c]] == m[hosts[s][c]]
  {
    hide Faithful, BackUpTo;
    BackCell(hosts, copies, m, m1, n, s, c);
    if s < n {
      NotBelow(hosts, copies, |m|, n, s, c);
      Untouched(m1, m2, hosts[n], copies[n], hosts[s][c]);
    }
  }

  lemma BlockIsNotHost(hosts: seq<seq<int>>, copies: seq<int>, size: nat, n: nat, x: int)
    requires Faithful(hosts, copies, size) && n < |hosts| && InAnyBlock(hosts, copies, x)
    ensures x !in hosts[n]
  {}

  // Copy every span back: outside the copies, memory is the memory in place.
  method CopyAllBack(mem: array<Byte>, vs: seq<View>, sp: seq<CopySpan>, ghost descs: seq<Desc>, ghost m: seq<Byte>)
    requires PlanOk(vs, sp, descs) && Allocated(vs, sp, descs, mem.Length)
    requires |m| == mem.Length && Mirror(AllHosts(vs, sp, descs), Copies(sp), m, mem[..])
    modifies mem
    ensures forall x :: 0 <= x < mem.Length && !InAnyBlock(AllHosts(vs, sp, descs), Copies(sp), x) ==> mem[x] == m[x]
  {
    hide PlanOk, Allocated, HostsOf, BackUpTo, Faithful, Mirror, InMemory, Apart, CopiedBack, Distinct;
    PlannedIsFaithful(vs, sp, descs, mem.Length);
    ghost var hosts, copies := AllHosts(vs, sp, descs), Copies(sp);
    MirrorIsBack(hosts, copies, m, mem[..]);
    var s := 0;
    while s < |sp|
      invariant 0 <= s <= |sp|
      invariant BackUpTo(hosts, copies, m, mem[..], s)
    {
      ghost var m1 := mem[..];
      SpanApart(vs, sp, descs, m1, s);
      CopyBack(mem, vs, sp, descs, s);
      BackStep(hosts, copies, m, m1, mem[..], s);
      s := s + 1;
    }
    BackIsInPlace(hosts, copies, m, mem[..]);
  }

  lemma MirrorIsBack(hosts: seq<seq<int>>, copies: seq<int>, m: seq<Byte>, m': seq<Byte>)
    requires Faithful(hosts, copies, |m|) && Mirror(hosts, copies, m, m')
    ensures BackUpTo(hosts, copies, m, m', 0)
  {
    forall s, c | 0 <= s < |hosts| && 0 <= c < |hosts[s]|
      ensures m'[copies[s] + c] == m[hosts[s][c]]
    {
      assert Cell(hosts, copies, s, c, hosts[s][c], copies[s] + c);
    }
  }

  lemma BackIsInPlace(hosts: seq<seq<int>>, copies: seq<int>, m: seq<Byte>, m': seq<Byte>)
    requires Faithful(hosts, copies, |m|) && BackUpTo(hosts, copies, m, m', |hosts|)
    ensures forall x :: 0 <= x < |m| && !InAnyBlock(hosts, copies, x) ==> m'[x] == m[x]
  {
    forall x | 0 <= x < |m| && !InAnyBlock(hosts, copies, x)
      ensures m'[x] == m[x]
    {
      if IsHost(hosts, x) {
        var s, c :| 0 <= s < |hosts| && 0 <= c < |hosts[s]| && hosts[s][c] == x;
        assert m'[hosts[s][c]] == m[hosts[s][c]];
      }
    }
  }

  // ---- Giving the descriptors back ----

  lemma AtInBlock(vs: seq<View>, sp: seq<CopySpan>, descs: seq<Desc>, i: nat)
    requires PlanOk(vs, sp, descs) && i < |vs| && vs[i].span >= 0
    ensures vs[i].span < |sp| && vs[i].bytes != 0
    ensures sp[vs[i].span].copy <= AtOf(vs[i], sp) < sp[vs[i].span].copy + sp[vs[i].span].bytes
  {
    assert Seated(vs, sp, descs, i);
    MeasuredPlace(vs, descs, i);
    if vs[i].packed {
      PackedLayout(vs, sp, descs, vs[i].span);
      ProductPositive(vs[i].sizes);
      MulLe(1, Product(vs[i].sizes), DtypeBytes(vs[i].elem));
    } else {
      SharedSpan(vs, sp, descs, i);
    }
  }

  // Views whose copies start at one address start at one byte.
  lemma SameAtSameStart(vs: seq<View>, sp: seq<CopySpan>, descs: seq<Desc>, size: nat, i: nat, j: nat)
    requires PlanOk(vs, sp, descs) && Allocated(vs, sp, descs, size) && i < |vs| && j < |vs|
    requires 0 <= vs[i].span < |sp| && 0 <= vs[j].span < |sp| && AtOf(vs[i], sp) == AtOf(vs[j], sp)
    ensures vs[i].span == vs[j].span && vs[i].start == vs[j].start
  {
    AtInBlock(vs, sp, descs, i);
    AtInBlock(vs, sp, descs, j);
    assert Seated(vs, sp, descs, i) && Seated(vs, sp, descs, j);
  }

  // Saving a pointer moves no view.
  lemma {:induction false} FirstAtSaved(vs0: seq<View>, vs: seq<View>, sp: seq<CopySpan>, a: int, i: nat)
    requires |vs| == |vs0| && i <= |vs| && forall k :: 0 <= k < |vs| ==> SavedFrom(vs0[k], vs[k])
    ensures FirstAt(vs, sp, a, i, |vs|) == FirstAt(vs0, sp, a, i, |vs0|)
    decreases |vs| - i
  {
    if i < |vs| {
      FirstAtSaved(vs0, vs, sp, a, i + 1);
    }
  }

  // The first view at an address is the first to hold its descriptor, so what it
  // saved is what the descriptor held before the call.
  lemma FirstSaves(vs0: seq<View>, vs: seq<View>, sp: seq<CopySpan>, ds0: seq<Desc>, ds: seq<Desc>, f: nat)
    requires PlanOk(vs0, sp, ds0) && OnePlace(vs0, ds0) && Pointed(vs0, vs, sp, ds0, ds, |vs0|)
    requires f < |vs0| && 0 <= vs0[f].span < |sp| && FirstAt(vs0, sp, AtOf(vs0[f], sp), 0, |vs0|) == f
    ensures Saves(vs[f], ds0[vs0[f].desc])
  {
    forall k | 0 <= k < f && vs0[k].span >= 0
      ensures vs0[k].desc != vs0[f].desc
    {
      assert Seated(vs0, sp, ds0, k) && Seated(vs0, sp, ds0, f);
      if vs0[k].desc == vs0[f].desc {
        AliasAgree(vs0, sp, ds0, f, k);
      }
    }
    assert FirstHolder(vs0, f);
  }

  lemma NotStray(vs0: seq<View>, vs: seq<View>, sp: seq<CopySpan>, ds0: seq<Desc>, ds: seq<Desc>, size: nat, i: nat,
                 j: nat)
    requires PlanOk(vs0, sp, ds0) && OnePlace(vs0, ds0) && Allocated(vs0, sp, ds0, size)
    requires Pointed(vs0, vs, sp, ds0, ds, |vs0|)
    requires i < |vs0| && j < |vs0| && |vs| == |vs0| && SavedFrom(vs0[i], vs[i]) && SavedFrom(vs0[j], vs[j])
    requires 0 <= vs[i].span < |sp| && 0 <= vs[j].span < |sp| && FirstAt(vs, sp, AtOf(vs[i], sp), 0, |vs|) == i
    ensures vs[i].aligned != AtOf(vs[j], sp)
  {
    FirstAtSaved(vs0, vs, sp, AtOf(vs[i], sp), 0);
    hide Pointed;
    FirstSaves(vs0, vs, sp, ds0, ds, i);
    NotIntoCopy(vs0, sp, ds0, size, j, vs0[i].desc);
  }

  lemma NoStrayAfter(vs0: seq<View>, vs: seq<View>, sp: seq<CopySpan>, ds0: seq<Desc>, ds: seq<Desc>, size: nat)
    requires PlanOk(vs0, sp, ds0) && OnePlace(vs0, ds0) && Allocated(vs0, sp, ds0, size)
    requires Pointed(vs0, vs, sp, ds0, ds, |vs0|)
    ensures NoStray(vs, sp)
  {
    forall i, j | 0 <= i < |vs| && 0 <= j < |vs| && 0 <= vs[i].span < |sp| && 0 <= vs[j].span < |sp|
      ensures FirstAt(vs, sp, AtOf(vs[i], sp), 0, |vs|) == i ==> vs[i].aligned != AtOf(vs[j], sp)
    {
      assert SavedFrom(vs0[i], vs[i]) && SavedFrom(vs0[j], vs[j]);
      hide PlanOk, Allocated, Pointed, SavedFrom;
      if FirstAt(vs, sp, AtOf(vs[i], sp), 0, |vs|) == i {
        NotStray(vs0, vs, sp, ds0, ds, size, i, j);
      }
    }
  }

  // Both descriptors reach the same bytes, element by element.
  ghost predicate SameReach(d: Desc, d': Desc, b: int) {
    && d'.sizes == d.sizes && |d'.strides| == |d.strides| == |d.sizes|
    && forall t, k: nat :: InRange(t, d.sizes) && k < b ==> ElementByte(d', b, t, k) == ElementByte(d, b, t, k)
  }

  // View `k` has elements, and the first is at byte `start`.
  predicate StartsAt(vs: seq<View>, descs: seq<Desc>, k: nat, start: int)
    requires NamesDescs(vs, descs) && k < |vs|
  {
    !HasZero(descs[vs[k].desc].sizes) && StartOf(descs[vs[k].desc], vs[k].elem) == start
  }

  // The first such view, from `i` on. -1 for none.
  function FirstFrom(vs: seq<View>, descs: seq<Desc>, start: int, i: nat): (f: int)
    requires NamesDescs(vs, descs) && i <= |vs|
    ensures f == -1 || (i <= f < |vs| && StartsAt(vs, descs, f, start))
    ensures forall k :: i <= k < |vs| && (f == -1 || k < f) ==> !StartsAt(vs, descs, k, start)
    decreases |vs| - i
  {
    if i == |vs| then -1 else if StartsAt(vs, descs, i, start) then i else FirstFrom(vs, descs, start, i + 1)
  }

  predicate HasElements(vs: seq<View>, descs: seq<Desc>, i: nat)
    requires NamesDescs(vs, descs)
  {
    i < |vs| && !HasZero(descs[vs[i].desc].sizes)
  }

  // The first view that starts where view `i` does.
  function FirstOf(vs: seq<View>, descs: seq<Desc>, i: nat): (f: nat)
    requires NamesDescs(vs, descs) && HasElements(vs, descs, i)
    ensures f <= i && StartsAt(vs, descs, f, StartOf(descs[vs[i].desc], vs[i].elem))
  {
    var start := StartOf(descs[vs[i].desc], vs[i].elem);
    assert StartsAt(vs, descs, i, start);
    FirstFrom(vs, descs, start, 0)
  }

  // What the restore makes of the descriptor of view `i` when the region leaves it alone: the pointers
  // and the offset of that first view.
  function GivenBack(vs: seq<View>, descs: seq<Desc>, i: nat): Desc
    requires NamesDescs(vs, descs) && HasElements(vs, descs, i)
  {
    var from := descs[vs[FirstOf(vs, descs, i)].desc];
    descs[vs[i].desc].(alloc := from.alloc, aligned := from.aligned, offset := from.offset)
  }

  // The first view has offset 0, or elements of the same size. The offset counts elements.
  predicate GivesBack(vs: seq<View>, descs: seq<Desc>, i: nat)
    requires NamesDescs(vs, descs) && HasElements(vs, descs, i)
  {
    var f := FirstOf(vs, descs, i);
    descs[vs[f].desc].offset == 0 || DtypeBytes(vs[f].elem) == DtypeBytes(vs[i].elem)
  }

  // The descriptor reaches what it reached before the call exactly then.
  lemma GivenBackIff(vs: seq<View>, descs: seq<Desc>, i: nat)
    requires GoodDescs(descs) && NamesDescs(vs, descs) && HasElements(vs, descs, i)
    requires AllNatural(descs[vs[i].desc].sizes) && DtypeBytes(vs[i].elem) >= 1
    ensures SameReach(descs[vs[i].desc], GivenBack(vs, descs, i), DtypeBytes(vs[i].elem)) <==> GivesBack(vs, descs, i)
  {
    var d, f := descs[vs[i].desc], FirstOf(vs, descs, i);
    PositiveWithoutZero(d.sizes);
    ShiftedReach(d, GivenBack(vs, descs, i), StartOf(d, vs[i].elem), DtypeBytes(vs[i].elem), DtypeBytes(vs[f].elem));
  }

  // It comes back as it was, pointers included, when no view of another descriptor starts there before it.
  lemma GivenBackWhole(vs: seq<View>, descs: seq<Desc>, i: nat)
    requires NamesDescs(vs, descs) && HasElements(vs, descs, i)
    requires forall j :: 0 <= j < i && StartsAt(vs, descs, j, StartOf(descs[vs[i].desc], vs[i].elem)) ==>
               vs[j].desc == vs[i].desc
    ensures GivenBack(vs, descs, i) == descs[vs[i].desc]
  {
    hide FirstFrom, StartsAt, StartOf, HasZero;
  }

  // A call that does not get its view back: the f32 at byte 8 comes back as the f32 at byte 4, because
  // a view of f64 with offset 1 starts there too.
  lemma ComesBackElsewhere(vs: seq<View>, descs: seq<Desc>)
    requires |vs| == |descs| == 2 && vs[0].desc == 0 && vs[0].elem == 7 && vs[1].desc == 1 && vs[1].elem == 6
    requires descs[0] == Desc(0, 0, 1, [1], [1]) && descs[1] == Desc(8, 8, 0, [1], [1])
    ensures HasElements(vs, descs, 1) && FirstOf(vs, descs, 1) == 0 && !GivesBack(vs, descs, 1)
    ensures ElementByte(descs[1], 4, [0], 0) == 8 && ElementByte(GivenBack(vs, descs, 1), 4, [0], 0) == 4
  {
    hide FirstFrom, Linear, HasZero, FirstOf, GivenBack, GivesBack, StartOf, StartsAt, ElementByte;
    Sizes(descs[0], 8, 7);
    Sizes(descs[1], 8, 6);
    assert HasElements(vs, descs, 1);
    StartHere(vs, descs);
    FirstIsFirst(vs, descs, 1);
    FirstByte(descs[1], 8);
    FirstByte(GivenBack(vs, descs, 1), 4);
  }

  lemma Sizes(d: Desc, start: int, elem: int)
    requires d.sizes == [1] && start == d.aligned + d.offset * DtypeBytes(elem)
    ensures !HasZero(d.sizes) && StartOf(d, elem) == start
  {}

  lemma StartHere(vs: seq<View>, descs: seq<Desc>)
    requires |vs| == |descs| == 2 && vs[0].desc == 0 && !HasZero(descs[0].sizes) && vs[1].desc == 1
    requires StartOf(descs[0], vs[0].elem) == StartOf(descs[1], vs[1].elem)
    ensures NamesDescs(vs, descs) && StartsAt(vs, descs, 0, StartOf(descs[vs[1].desc], vs[1].elem))
  {}

  lemma FirstIsFirst(vs: seq<View>, descs: seq<Desc>, i: nat)
    requires NamesDescs(vs, descs) && HasElements(vs, descs, i)
    requires StartsAt(vs, descs, 0, StartOf(descs[vs[i].desc], vs[i].elem))
    ensures FirstOf(vs, descs, i) == 0
    ensures var d, from := descs[vs[i].desc], descs[vs[0].desc];
            && GivenBack(vs, descs, i) == Desc(from.alloc, from.aligned, from.offset, d.sizes, d.strides)
            && (GivesBack(vs, descs, i) <==> from.offset == 0 || DtypeBytes(vs[0].elem) == DtypeBytes(vs[i].elem))
  {}

  lemma FirstByte(d: Desc, start: int)
    requires d.strides == [1] && start == d.aligned + d.offset * 4
    ensures ElementByte(d, 4, [0], 0) == start
  {
    assert [0][..0] == [] && [1][..0] == [] && Linear([], []) == 0;
    assert Linear([0], [1]) == 0;
  }

  // The restore looks for the first view by the address of its copy, which is the first by its start.
  lemma FirstAgrees(vs: seq<View>, sp: seq<CopySpan>, descs: seq<Desc>, size: nat, i: nat)
    requires PlanOk(vs, sp, descs) && Allocated(vs, sp, descs, size) && i < |vs| && vs[i].span >= 0
    ensures HasElements(vs, descs, i) && vs[i].span < |sp|
    ensures FirstAt(vs, sp, AtOf(vs[i], sp), 0, |vs|) == FirstOf(vs, descs, i)
  {
    AtInBlock(vs, sp, descs, i);
    EmptyIffZero(vs, descs, i);
    var f, g := FirstAt(vs, sp, AtOf(vs[i], sp), 0, |vs|), FirstOf(vs, descs, i);
    AtInBlock(vs, sp, descs, f);
    EmptyIffZero(vs, descs, f);
    SameAtSameStart(vs, sp, descs, size, i, f);
    EmptyIffZero(vs, descs, g);
    SameStartSameAt(vs, sp, descs, i, g);
    assert StartsAt(vs, descs, f, StartOf(descs[vs[i].desc], vs[i].elem));
  }

  lemma OffsetsAgree(o: int, b: int, c: int)
    ensures o * b == o * c <==> o == 0 || b == c
  {
    assert o * b - o * c == o * (b - c);
  }

  lemma ShiftedReach(d: Desc, d': Desc, start: int, b: int, c: int)
    requires |d.sizes| == |d.strides| && d'.sizes == d.sizes && d'.strides == d.strides && b >= 1
    requires AllPositive(d.sizes)
    requires d.aligned + d.offset * b == start && d'.aligned + d'.offset * c == start
    ensures SameReach(d, d', b) <==> d'.offset == 0 || b == c
  {
    OffsetsAgree(d'.offset, b, c);
    forall t, k: nat | InRange(t, d.sizes) && k < b
      ensures ElementByte(d', b, t, k) - ElementByte(d, b, t, k) == d'.offset * b - d'.offset * c
    {
      ElementSum(d.aligned, d.offset, Linear(t, d.strides), b);
      ElementSum(d'.aligned, d'.offset, Linear(t, d.strides), b);
    }
    var z := Zeros(|d.sizes|);
    var k: nat := 0;
    assert InRange(z, d.sizes) && k < b;
    assert SameReach(d, d', b) ==> ElementByte(d', b, z, k) == ElementByte(d, b, z, k);
  }

  // A view's own descriptor, when the region leaves it alone.
  lemma OwnGivenBack(vs0: seq<View>, vs: seq<View>, sp: seq<CopySpan>, ds0: seq<Desc>, ds1: seq<Desc>, ds2: seq<Desc>,
                     size: nat, i: nat)
    requires PlanOk(vs0, sp, ds0) && OnePlace(vs0, ds0) && Allocated(vs0, sp, ds0, size)
    requires Pointed(vs0, vs, sp, ds0, ds1, |vs0|) && |ds2| == |ds1|
    requires i < |vs0| && vs0[i].span >= 0 && RestoredUpTo(vs, sp, ds1, ds2, vs0[i].desc, |vs|)
    ensures HasElements(vs0, ds0, i) && ds2[vs0[i].desc] == GivenBack(vs0, ds0, i)
  {
    FirstAgrees(vs0, sp, ds0, size, i);
    var a := AtOf(vs0[i], sp);
    FirstAtSaved(vs0, vs, sp, a, 0);
    var f := FirstAt(vs0, sp, a, 0, |vs0|);
    assert SavedFrom(vs0[f], vs[f]);
    FirstSaves(vs0, vs, sp, ds0, ds1, f);
    SharedOrAlone(vs0, sp, ds0, size, i, f);
    hide PlanOk, Allocated, OnePlace, SameElements, Accepts;
  }

  // The two ways a view can start where another does.
  lemma SharedOrAlone(vs: seq<View>, sp: seq<CopySpan>, descs: seq<Desc>, size: nat, i: nat, f: nat)
    requires PlanOk(vs, sp, descs) && Allocated(vs, sp, descs, size) && i < |vs| && f < |vs|
    requires 0 <= vs[i].span < |sp| && 0 <= vs[f].span < |sp| && AtOf(vs[i], sp) == AtOf(vs[f], sp)
    ensures (!vs[i].packed && !vs[f].packed) || (i == f && vs[f].packed && vs[f].strides == descs[vs[f].desc].strides)
  {
    if vs[f].packed {
      PackedAlone(vs, sp, descs, size, i, f);
    } else if vs[i].packed {
      PackedAlone(vs, sp, descs, size, f, i);
    }
    assert Seated(vs, sp, descs, f);
  }

  // The redirect can be right only for views of which each descriptor has one place.
  lemma OnePlaceNeeded(vs0: seq<View>, vs: seq<View>, sp: seq<CopySpan>, ds0: seq<Desc>, ds: seq<Desc>, size: nat)
    requires PlanOk(vs0, sp, ds0) && Allocated(vs0, sp, ds0, size) && Pointed(vs0, vs, sp, ds0, ds, |vs0|)
    ensures OnePlace(vs0, ds0)
  {
    forall i, j | 0 <= i < |vs0| && 0 <= j < |vs0| && vs0[i].desc == vs0[j].desc && !HasZero(ds0[vs0[i].desc].sizes)
      ensures ds0[vs0[i].desc].offset == 0 || DtypeBytes(vs0[i].elem) == DtypeBytes(vs0[j].elem)
    {
      EmptyIffZero(vs0, ds0, i);
      EmptyIffZero(vs0, ds0, j);
      assert Seated(vs0, sp, ds0, i) && Seated(vs0, sp, ds0, j);
      SameAtSameStart(vs0, sp, ds0, size, i, j);
      OffsetsAgree(ds0[vs0[i].desc].offset, DtypeBytes(vs0[i].elem), DtypeBytes(vs0[j].elem));
    }
  }

  // ---- The whole call ----

  // The foreign call: the kernel runs on whatever the descriptors reach.
  method CallKernel(mem: array<Byte>, kernel: Kernel, ds: seq<Desc>, bs: seq<int>, steps: nat) returns (seen: seq<Byte>)
    requires Shaped(ds, bs)
    modifies mem
    ensures var r := Run(kernel, ds, bs, old(mem[..]), [], steps); seen == r.seen && mem[..] == r.memory
  {
    var r := Run(kernel, ds, bs, mem[..], [], steps);
    RunKeepsSize(kernel, ds, bs, mem[..], [], steps);
    forall x | 0 <= x < mem.Length {
      mem[x] := r.memory[x];
    }
    seen := r.seen;
  }

  lemma {:induction false} RunKeepsSize(kernel: Kernel, ds: seq<Desc>, bs: seq<int>, m: seq<Byte>, seen: seq<Byte>,
                                        n: nat)
    requires Shaped(ds, bs)
    ensures |Run(kernel, ds, bs, m, seen, n).memory| == |m|
    decreases n
  {
    if n > 0 {
      match kernel(seen)
      case Halt =>
      case Load(v, i, k) =>
        if Reaches(ds, bs, v, i, k) {
          var x := ElementByte(ds[v], bs[v], i, k);
          if 0 <= x < |m| { RunKeepsSize(kernel, ds, bs, m, seen + [m[x]], n - 1); }
        }
      case Store(v, i, k, value) =>
        if Reaches(ds, bs, v, i, k) {
          var x := ElementByte(ds[v], bs[v], i, k);
          if 0 <= x < |m| { RunKeepsSize(kernel, ds, bs, m[x := value], seen + [value], n - 1); }
        }
    }
  }

  // What the region would have done in place.
  ghost function InPlace(kernel: Kernel, vs: seq<View>, descs: seq<Desc>, m: seq<Byte>, steps: nat): Result
    requires GoodDescs(descs) && NamesDescs(vs, descs)
  {
    Run(kernel, DescsOf(vs, descs), ElemBytes(vs), m, [], steps)
  }

  // Copy out, redirect, run, copy back: the kernel sees what it would have seen
  // in place, and memory outside the copies ends as it would have in place.
  method RunOnCopies(mem: array<Byte>, views: array<View>, sp: seq<CopySpan>, descs: array<Desc>, kernel: Kernel,
                     steps: nat)
    returns (seen: seq<Byte>)
    requires PlanOk(views[..], sp, descs[..]) && OnePlace(views[..], descs[..])
    requires Allocated(views[..], sp, descs[..], mem.Length)
    modifies mem, views, descs
    ensures Pointed(old(views[..]), views[..], sp, old(descs[..]), descs[..], views.Length)
    ensures var r := InPlace(kernel, old(views[..]), old(descs[..]), old(mem[..]), steps);
            && seen == r.seen && |r.memory| == mem.Length
            && forall x :: 0 <= x < mem.Length ==>
                 !InAnyBlock(AllHosts(old(views[..]), sp, old(descs[..])), Copies(sp), x) ==> mem[x] == r.memory[x]
  {
    hide *;
    // The plan does not change from here on: pointing at the copies only saves
    // what the descriptors held.
    var planned := views[..];
    ghost var m0, ds0 := mem[..], descs[..];
    ghost var hosts, copies := AllHosts(planned, sp, ds0), Copies(sp);
    PlannedIsFaithful(planned, sp, ds0, mem.Length);
    CopyAllOut(mem, planned, sp, ds0);
    ghost var m1 := mem[..];
    PointAt(views, sp, descs);
    PointedRedirects(planned, views[..], sp, ds0, descs[..]);
    PlanShapes(planned, sp, ds0);
    RedirectShapes(hosts, copies, DescsOf(planned, ds0), DescsOf(planned, descs[..]), ElemBytes(planned));
    RunMirrors(kernel, DescsOf(planned, ds0), DescsOf(planned, descs[..]), ElemBytes(planned), hosts, copies, m0, m1,
               [], steps);
    seen := CallKernel(mem, kernel, DescsOf(planned, descs[..]), ElemBytes(planned), steps);
    InPlaceIsRun(kernel, planned, ds0, m0, steps);
    CopyAllBack(mem, planned, sp, ds0, InPlace(kernel, planned, ds0, m0, steps).memory);
  }

  lemma PlanShapes(vs: seq<View>, sp: seq<CopySpan>, descs: seq<Desc>)
    requires PlanOk(vs, sp, descs)
    ensures GoodDescs(descs) && NamesDescs(vs, descs)
  {}

  lemma RedirectShapes(hosts: seq<seq<int>>, copies: seq<int>, ds: seq<Desc>, ds': seq<Desc>, bs: seq<int>)
    requires |hosts| == |copies| && Redirects(hosts, copies, ds, ds', bs)
    ensures Shaped(ds, bs) && Shaped(ds', bs)
  {}

  lemma InPlaceIsRun(kernel: Kernel, vs: seq<View>, descs: seq<Desc>, m: seq<Byte>, steps: nat)
    requires GoodDescs(descs) && NamesDescs(vs, descs)
    ensures Shaped(DescsOf(vs, descs), ElemBytes(vs))
    ensures InPlace(kernel, vs, descs, m, steps) == Run(kernel, DescsOf(vs, descs), ElemBytes(vs), m, [], steps)
  {}

  // The list of descriptors to restore names every view's descriptor.
  ghost predicate ListsViews(vs: seq<View>, descs: seq<Desc>, ks: seq<int>) {
    && (forall k :: 0 <= k < |ks| ==> -1 <= ks[k] < |descs|)
    && (forall i :: 0 <= i < |vs| ==> vs[i].desc in ks)
  }

  lemma RestoreReady(vs0: seq<View>, vs: seq<View>, sp: seq<CopySpan>, ds0: seq<Desc>, ds: seq<Desc>, ks: seq<int>,
                     size: nat)
    requires PlanOk(vs0, sp, ds0) && OnePlace(vs0, ds0) && Allocated(vs0, sp, ds0, size)
    requires Pointed(vs0, vs, sp, ds0, ds, |vs0|) && ListsViews(vs0, ds0, ks)
    ensures Restores(vs, sp, ds, ks)
  {
    NoStrayAfter(vs0, vs, sp, ds0, ds, size);
    forall x | 0 <= x < |ds|
      ensures |ds[x].sizes| == |ds[x].strides|
    {
      PointedShape(vs0, vs, sp, ds0, ds, x);
    }
    forall i | 0 <= i < |vs|
      ensures vs[i].span < |sp|
      ensures vs[i].packed ==> |vs[i].sizes| == |vs[i].strides| && AllPositive(vs[i].sizes)
      ensures vs[i].packed ==> |vs[i].strides| == |ds[vs[i].desc].strides|
    {
      assert SavedFrom(vs0[i], vs[i]) && Seated(vs0, sp, ds0, i);
      if vs0[i].packed {
        PackedLayout(vs0, sp, ds0, vs0[i].span);
        PointedShape(vs0, vs, sp, ds0, ds, vs0[i].desc);
      }
    }
  }

  // No other view starts where a dense copy does.
  lemma PackedAlone(vs: seq<View>, sp: seq<CopySpan>, descs: seq<Desc>, size: nat, i: nat, f: nat)
    requires PlanOk(vs, sp, descs) && Allocated(vs, sp, descs, size) && i < |vs| && f < |vs|
    requires 0 <= vs[i].span < |sp| && 0 <= vs[f].span < |sp| && AtOf(vs[i], sp) == AtOf(vs[f], sp) && vs[f].packed
    ensures i == f
  {
    SameAtSameStart(vs, sp, descs, size, i, f);
    assert Seated(vs, sp, descs, f);
    assert SpanRight(vs, sp, descs, vs[f].span);
  }

  // No descriptor pointed into a copy before the call.
  lemma NotIntoCopy(vs: seq<View>, sp: seq<CopySpan>, descs: seq<Desc>, size: nat, f: nat, x: nat)
    requires PlanOk(vs, sp, descs) && Allocated(vs, sp, descs, size) && f < |vs| && vs[f].span >= 0 && x < |descs|
    ensures vs[f].span < |sp| && descs[x].aligned != AtOf(vs[f], sp)
  {
    AtInBlock(vs, sp, descs, f);
  }

  lemma SpanBound(vs: seq<View>, sp: seq<CopySpan>, descs: seq<Desc>, i: nat)
    requires PlanOk(vs, sp, descs) && i < |vs|
    ensures vs[i].span < |sp|
  {
    assert Seated(vs, sp, descs, i);
  }

  // A view's own descriptor can always be given back.
  lemma OwnRestorable(vs0: seq<View>, vs: seq<View>, sp: seq<CopySpan>, ds0: seq<Desc>, ds: seq<Desc>, ks: seq<int>,
                      size: nat, x: nat)
    requires PlanOk(vs0, sp, ds0) && Allocated(vs0, sp, ds0, size)
    requires Pointed(vs0, vs, sp, ds0, ds, |vs0|) && Restores(vs, sp, ds, ks) && x < |ds|
    ensures Restorable(vs, sp, ds, x)
  {
    hide Accepts, AllMeasured, Grouped, HullsApart, Seated, SpanRight, Allocated;
    var f := FirstAt(vs, sp, ds[x].aligned, 0, |vs|);
    if f != -1 && vs[f].packed {
      assert SavedFrom(vs0[f], vs[f]);
      NotIntoCopy(vs0, sp, ds0, size, f, x);
      if i :| 0 <= i < |vs0| && vs0[i].span >= 0 && vs0[i].desc == x {
        SpanBound(vs0, sp, ds0, i);
        PackedAlone(vs0, sp, ds0, size, i, f);
      }
    }
  }

  // A descriptor of no view stays as it is.
  lemma OthersKept(vs0: seq<View>, vs: seq<View>, sp: seq<CopySpan>, ds0: seq<Desc>, ds1: seq<Desc>, ds2: seq<Desc>,
                   ks: seq<int>, size: nat, x: nat)
    requires PlanOk(vs0, sp, ds0) && Allocated(vs0, sp, ds0, size)
    requires Pointed(vs0, vs, sp, ds0, ds1, |vs0|) && |ds2| == |ds1| && RestoredAll(vs, sp, ds1, ds2, ks, |vs|)
    requires x < |ds0| && forall i :: 0 <= i < |vs0| && vs0[i].span >= 0 ==> vs0[i].desc != x
    ensures ds2[x] == ds0[x]
  {
    var f := FirstAt(vs, sp, ds0[x].aligned, 0, |vs|);
    if f != -1 {
      assert SavedFrom(vs0[f], vs[f]);
      AtInBlock(vs0, sp, ds0, f);
    }
  }

  // The region of cuda_dispatch.cpp after the plan: it leaves what running in
  // place would have left, in memory and in the descriptors.
  method RunRegion(mem: array<Byte>, views: array<View>, sp: seq<CopySpan>, descs: array<Desc>, ks: seq<int>,
                   kernel: Kernel, steps: nat)
    returns (seen: seq<Byte>, ok: bool)
    requires PlanOk(views[..], sp, descs[..]) && OnePlace(views[..], descs[..])
    requires Allocated(views[..], sp, descs[..], mem.Length)
    requires ListsViews(views[..], descs[..], ks)
    modifies mem, views, descs
    ensures ok
    ensures var r := InPlace(kernel, old(views[..]), old(descs[..]), old(mem[..]), steps);
            && seen == r.seen && |r.memory| == mem.Length
            && forall x :: 0 <= x < mem.Length ==>
                 !InAnyBlock(AllHosts(old(views[..]), sp, old(descs[..])), Copies(sp), x) ==> mem[x] == r.memory[x]
    ensures GivenBackAll(old(views[..]), old(descs[..]), descs[..])
  {
    hide *;
    ghost var vs0, ds0, size := views[..], descs[..], mem.Length;
    seen := RunOnCopies(mem, views, sp, descs, kernel, steps);
    ghost var vs, ds1 := views[..], descs[..];
    RestoreReady(vs0, vs, sp, ds0, ds1, ks, size);
    ok := Restore(views[..], sp, descs, ks);
    RegionRestored(vs0, vs, sp, ds0, ds1, descs[..], ks, size, ok);
  }

  // The descriptor of each view with elements is its GivenBack; every other is as it was.
  ghost predicate GivenBackAll(vs: seq<View>, ds: seq<Desc>, ds': seq<Desc>)
    requires NamesDescs(vs, ds)
  {
    && |ds'| == |ds|
    && (forall i: nat :: HasElements(vs, ds, i) ==> ds'[vs[i].desc] == GivenBack(vs, ds, i))
    && (forall x :: 0 <= x < |ds| && (forall i: nat :: HasElements(vs, ds, i) ==> vs[i].desc != x) ==> ds'[x] == ds[x])
  }

  lemma RegionRestored(vs0: seq<View>, vs: seq<View>, sp: seq<CopySpan>, ds0: seq<Desc>, ds1: seq<Desc>, ds2: seq<Desc>,
                       ks: seq<int>, size: nat, ok: bool)
    requires PlanOk(vs0, sp, ds0) && OnePlace(vs0, ds0) && Allocated(vs0, sp, ds0, size) && ListsViews(vs0, ds0, ks)
    requires Pointed(vs0, vs, sp, ds0, ds1, |vs0|) && Restores(vs, sp, ds1, ks) && |ds2| == |ds1|
    requires ok ==> RestoredAll(vs, sp, ds1, ds2, ks, |vs|)
    requires !ok ==> exists x :: x in ks && x >= 0 && !Restorable(vs, sp, ds1, x)
    ensures ok && GivenBackAll(vs0, ds0, ds2)
  {
    PlanShapes(vs0, sp, ds0);
    hide PlanOk, Allocated, OnePlace, RestoredUpTo, Restorable, GivenBack;
    if !ok {
      var x :| x in ks && x >= 0 && !Restorable(vs, sp, ds1, x);
      OwnRestorable(vs0, vs, sp, ds0, ds1, ks, size, x);
    }
    forall i: nat | HasElements(vs0, ds0, i)
      ensures ds2[vs0[i].desc] == GivenBack(vs0, ds0, i)
    {
      ElementsSpan(vs0, sp, ds0, i);
      OwnGivenBack(vs0, vs, sp, ds0, ds1, ds2, size, i);
    }
    forall x | 0 <= x < |ds0| && forall i: nat :: HasElements(vs0, ds0, i) ==> vs0[i].desc != x
      ensures ds2[x] == ds0[x]
    {
      forall i: nat | i < |vs0| && vs0[i].span >= 0
        ensures vs0[i].desc != x
      {
        ElementsSpan(vs0, sp, ds0, i);
      }
      OthersKept(vs0, vs, sp, ds0, ds1, ds2, ks, size, x);
    }
  }

  lemma ElementsSpan(vs: seq<View>, sp: seq<CopySpan>, descs: seq<Desc>, i: nat)
    requires PlanOk(vs, sp, descs) && i < |vs|
    ensures HasElements(vs, descs, i) <==> vs[i].span >= 0
  {
    EmptyIffZero(vs, descs, i);
    assert Seated(vs, sp, descs, i);
  }
}
