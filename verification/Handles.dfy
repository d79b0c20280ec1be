// Names for memory on a worker (runtime/vx_remote_region.h): the shape of an
// address, and the table that maps an address to a live region.
module Handles {

  const OFFSET_SPAN: nat := 0x8000_0000_0000     // 2^47
  const WORKER_SPAN: nat := 0x1_0000_0000_0000   // 2^48
  const OFFSET_MASK: nat := OFFSET_SPAN - 1
  const WORKER_MAX: nat := 255
  const MIN_GAP: nat := 0x10_0000                // 2^20

  // ---- Addresses ----

  function Addr(worker: nat, offset: nat): nat {
    worker * WORKER_SPAN + offset % OFFSET_SPAN
  }

  function AddrWorker(a: nat): nat {
    a / WORKER_SPAN % 256
  }

  function AddrOffset(a: nat): nat {
    a % OFFSET_SPAN
  }

  predicate IsHandle(a: nat) {
    a / (256 * WORKER_SPAN) == 0 && AddrWorker(a) != 0 && a / OFFSET_SPAN % 2 == 0
  }

  // Composing and taking apart are inverse, and what is composed is a handle.
  lemma Composed(worker: nat, offset: nat)
    requires 1 <= worker <= WORKER_MAX && offset < OFFSET_SPAN
    ensures IsHandle(Addr(worker, offset))
    ensures AddrWorker(Addr(worker, offset)) == worker && AddrOffset(Addr(worker, offset)) == offset
  {
    var a := Addr(worker, offset);
    assert a / WORKER_SPAN == worker;
    assert a / OFFSET_SPAN == 2 * worker;
  }

  // Nothing else is a handle.
  lemma HandleParts(a: nat)
    requires IsHandle(a)
    ensures 1 <= AddrWorker(a) <= WORKER_MAX && AddrOffset(a) < OFFSET_SPAN && a == Addr(AddrWorker(a), AddrOffset(a))
  {
    assert a / WORKER_SPAN < 256;
    assert a / OFFSET_SPAN == 2 * (a / WORKER_SPAN);
  }

  // Bits 63 to 47 of an address that a machine accepts are all clear or all set.
  predicate Canonical(a: nat) {
    a / OFFSET_SPAN == 0 || a / OFFSET_SPAN == 0x1_FFFF
  }

  lemma HandleIsNotAPointer(a: nat)
    requires a < 0x1_0000_0000_0000_0000 && Canonical(a)
    ensures !IsHandle(a)
  {
    if IsHandle(a) {
      HandleParts(a);
    }
  }

  // ---- The table ----

  datatype Region = Region(base: nat, size: nat, worker: nat, dtype: int, remote: nat, live: bool)

  // `next` is the next free offset of each worker.
  datatype Table = Table(regions: seq<Region>, capacity: nat, next: seq<nat>)

  function Gap(size: nat): nat {
    if size > MIN_GAP then size else MIN_GAP
  }

  function Start(capacity: nat): Table {
    Table([], capacity, seq(256, i => MIN_GAP))
  }

  predicate HasRoom(t: Table, worker: nat, size: nat)
    requires |t.next| == 256
  {
    && 1 <= worker <= WORKER_MAX && size != 0 && |t.regions| != t.capacity
    && size <= OFFSET_MASK && t.next[worker] <= OFFSET_MASK - size && t.next[worker] + size <= OFFSET_MASK - Gap(size)
  }

  // The table after an allocation. Without room it is unchanged.
  function Allocated(t: Table, worker: nat, size: nat, dtype: int, remote: nat): Table
    requires |t.next| == 256
  {
    if !HasRoom(t, worker, size) then t
    else
      var off := t.next[worker];
      t.(regions := t.regions + [Region(Addr(worker, off), size, worker, dtype, remote, true)],
         next := t.next[worker := off + size + Gap(size)])
  }

  // The first live region with this base, or the number of regions.
  function FirstLive(rs: seq<Region>, base: nat): (i: nat)
    ensures i <= |rs|
    ensures i < |rs| ==> rs[i].base == base && rs[i].live
    ensures forall j :: 0 <= j < i ==> !(rs[j].base == base && rs[j].live)
  {
    if |rs| == 0 then 0
    else if rs[0].base == base && rs[0].live then 0
    else
      assert forall j :: 1 <= j < |rs| ==> rs[1..][j - 1] == rs[j];
      1 + FirstLive(rs[1..], base)
  }

  function Freed(t: Table, base: nat): Table {
    var i := FirstLive(t.regions, base);
    if i == |t.regions| then t else t.(regions := t.regions[i := t.regions[i].(live := false)])
  }

  function FreedAll(t: Table): Table {
    t.(regions := [])
  }

  // ---- Resolving ----

  // Binary search for the greatest base not above `a`: one past its index, or 0.
  function BestBelow(rs: seq<Region>, a: nat, lo: nat, hi: nat, best: nat): nat
    requires lo <= hi <= |rs|
    decreases hi - lo
  {
    if lo == hi then best
    else
      var mid := lo + (hi - lo) / 2;
      if rs[mid].base <= a then BestBelow(rs, a, mid + 1, hi, mid + 1) else BestBelow(rs, a, lo, mid, best)
  }

  lemma BestStep(rs: seq<Region>, a: nat, lo: nat, hi: nat, best: nat)
    requires lo < hi <= |rs|
    ensures var mid := lo + (hi - lo) / 2;
            BestBelow(rs, a, lo, hi, best) ==
            if rs[mid].base <= a then BestBelow(rs, a, mid + 1, hi, mid + 1) else BestBelow(rs, a, lo, mid, best)
  {}

  lemma BestStop(rs: seq<Region>, a: nat, at: nat, best: nat)
    requires at <= |rs|
    ensures BestBelow(rs, a, at, at, best) == best
  {}

  datatype Ref = Nowhere | Ref(index: nat, offset: nat)

  function Resolve(rs: seq<Region>, a: nat): (ref: Ref)
    ensures ref.Ref? ==> ref.index < |rs| && Contains(rs[ref.index], a) && ref.offset == a - rs[ref.index].base
  {
    if !IsHandle(a) then Nowhere
    else
      var best := BestBelow(rs, a, 0, |rs|, 0);
      if !(1 <= best <= |rs|) then Nowhere
      else
        var r := rs[best - 1];
        if r.live && r.base <= a < r.base + r.size
           && AddrWorker(a) == r.worker then Ref(best - 1, a - r.base) else Nowhere
  }

  predicate Contains(r: Region, a: nat) {
    r.live && r.base <= a < r.base + r.size
  }

  // The linear rule: the live region that contains the address.
  ghost predicate Names(rs: seq<Region>, a: nat, ref: Ref) {
    if ref.Nowhere? then forall i :: 0 <= i < |rs| ==> !Contains(rs[i], a)
    else
      && ref.index < |rs| && Contains(rs[ref.index], a) && ref.offset == a - rs[ref.index].base
      && forall i :: 0 <= i < |rs| && Contains(rs[i], a) ==> i == ref.index
  }

  // ---- What every run keeps ----

  predicate WellPlaced(r: Region, next: seq<nat>)
    requires |next| == 256
  {
    && 1 <= r.worker <= WORKER_MAX && r.size >= 1 && r.worker * WORKER_SPAN + MIN_GAP <= r.base
    && r.base + r.size + Gap(r.size) <= r.worker * WORKER_SPAN + next[r.worker]
  }

  // Bases ascend, each region and its gap ending before the next base.
  ghost predicate Spaced(rs: seq<Region>) {
    forall i, j :: 0 <= i < j < |rs| ==> rs[i].base + rs[i].size + Gap(rs[i].size) <= rs[j].base
  }

  ghost predicate Placed(t: Table) {
    && |t.next| == 256 && |t.regions| <= t.capacity
    && (forall w :: 0 <= w < 256 ==> MIN_GAP <= t.next[w] <= OFFSET_MASK)
    && (forall i :: 0 <= i < |t.regions| ==> WellPlaced(t.regions[i], t.next))
  }

  ghost predicate Inv(t: Table) {
    |t.next| == 256 && Placed(t) && Spaced(t.regions)
  }

  datatype Op = Alloc(worker: nat, size: nat, dtype: int, remote: nat) | Free(base: nat) | FreeAll

  function Step(t: Table, op: Op): Table
    requires |t.next| == 256
  {
    match op
    case Alloc(w, size, dtype, remote) => Allocated(t, w, size, dtype, remote)
    case Free(base) => Freed(t, base)
    case FreeAll => FreedAll(t)
  }

  // No allocation is for a smaller worker id than the last region of the table.
  predicate InOrder(t: Table, op: Op) {
    op.Alloc? && |t.regions| > 0 ==> t.regions[|t.regions| - 1].worker <= op.worker
  }

  lemma PlacedStep(t: Table, op: Op)
    requires Placed(t)
    ensures Placed(Step(t, op))
  {
    if op.Alloc? && HasRoom(t, op.worker, op.size) {
      var t' := Step(t, op);
      forall i | 0 <= i < |t'.regions|
        ensures WellPlaced(t'.regions[i], t'.next)
      {
        if i < |t.regions| {
          assert WellPlaced(t.regions[i], t.next);
        }
      }
    }
  }

  lemma InvStep(t: Table, op: Op)
    requires Inv(t) && InOrder(t, op)
    ensures Inv(Step(t, op))
  {
    PlacedStep(t, op);
    if op.Alloc? && HasRoom(t, op.worker, op.size) {
      forall i | 0 <= i < |t.regions|
        ensures t.regions[i].base + t.regions[i].size + Gap(t.regions[i].size) <= Addr(op.worker, t.next[op.worker])
      {
        NewIsAbove(t, op.worker, i);
      }
    }
  }

  lemma NewIsAbove(t: Table, worker: nat, i: nat)
    requires Inv(t) && i < |t.regions| && t.regions[|t.regions| - 1].worker <= worker <= WORKER_MAX
    ensures t.regions[i].base + t.regions[i].size + Gap(t.regions[i].size) <= Addr(worker, t.next[worker])
  {
    assert WellPlaced(t.regions[i], t.next);
    WorkerOrder(t, i);
    hide Spaced;
    assert MIN_GAP <= t.next[worker] <= OFFSET_MASK;
    assert t.next[t.regions[i].worker] <= OFFSET_MASK;
  }

  // Among placed regions the worker ids ascend with the bases.
  lemma WorkerOrder(t: Table, i: nat)
    requires Inv(t) && i < |t.regions|
    ensures t.regions[i].worker <= t.regions[|t.regions| - 1].worker
  {
    var n := |t.regions| - 1;
    assert WellPlaced(t.regions[i], t.next) && WellPlaced(t.regions[n], t.next);
    if i < n {
      assert t.regions[i].base <= t.regions[n].base;
    }
  }

  lemma StartInv(capacity: nat)
    ensures Inv(Start(capacity))
  {}

  // ---- Binary search against the linear rule ----

  ghost predicate Ascending(rs: seq<Region>) {
    forall i, j :: 0 <= i < j < |rs| ==> rs[i].base <= rs[j].base
  }

  lemma {:induction false} BestIsGreatest(rs: seq<Region>, a: nat, lo: nat, hi: nat, best: nat)
    requires Ascending(rs) && lo <= hi <= |rs| && best == lo
    requires forall i :: 0 <= i < lo ==> rs[i].base <= a
    requires forall i :: hi <= i < |rs| ==> rs[i].base > a
    ensures var b := BestBelow(rs, a, lo, hi, best);
            && b <= |rs| && (forall i :: 0 <= i < b ==> rs[i].base <= a)
               && (forall i :: b <= i < |rs| ==> rs[i].base > a)
    decreases hi - lo
  {
    if lo < hi {
      var mid := lo + (hi - lo) / 2;
      if rs[mid].base <= a {
        BestIsGreatest(rs, a, mid + 1, hi, mid + 1);
      } else {
        BestIsGreatest(rs, a, lo, mid, best);
      }
    }
  }

  // A region lies wholly in the addresses of its worker.
  lemma ContainedIsHandle(t: Table, i: nat, a: nat)
    requires Placed(t) && i < |t.regions| && Contains(t.regions[i], a)
    ensures IsHandle(a) && AddrWorker(a) == t.regions[i].worker && AddrOffset(a) < t.next[t.regions[i].worker]
  {
    var r := t.regions[i];
    assert WellPlaced(r, t.next);
    var off := a - r.worker * WORKER_SPAN;
    assert t.next[r.worker] <= OFFSET_MASK;
    assert a == Addr(r.worker, off);
    Composed(r.worker, off);
  }

  lemma NotBefore(rs: seq<Region>, i: nat, j: nat, a: nat)
    requires Spaced(rs) && i < j < |rs| && rs[j].base <= a
    ensures !Contains(rs[i], a)
  {}

  // Resolving by binary search is the linear rule.
  lemma ResolveIsLinear(t: Table, a: nat)
    requires Inv(t)
    ensures Names(t.regions, a, Resolve(t.regions, a))
  {
    hide IsHandle, AddrWorker, Placed, BestBelow;
    var rs := t.regions;
    forall i | 0 <= i < |rs| && Contains(rs[i], a)
      ensures IsHandle(a) && AddrWorker(a) == rs[i].worker
    {
      ContainedIsHandle(t, i, a);
    }
    BestIsGreatest(rs, a, 0, |rs|, 0);
    var b := BestBelow(rs, a, 0, |rs|, 0);
    forall i | 0 <= i && i + 1 < b
      ensures !Contains(rs[i], a)
    {
      NotBefore(rs, i, b - 1, a);
    }
  }

  // ---- Runs ----

  ghost predicate Ordered(t: Table, ops: seq<Op>)
    requires |t.next| == 256
    decreases |ops|
  {
    |ops| > 0 ==> InOrder(t, ops[0]) && |Step(t, ops[0]).next| == 256 && Ordered(Step(t, ops[0]), ops[1..])
  }

  function Run(t: Table, ops: seq<Op>): Table
    requires |t.next| == 256
    decreases |ops|
  {
    if |ops| == 0 then t
    else
      var t' := Step(t, ops[0]);
      if |t'.next| == 256 then Run(t', ops[1..]) else t'
  }

  lemma {:induction false} RunInv(t: Table, ops: seq<Op>)
    requires Inv(t) && Ordered(t, ops)
    ensures Inv(Run(t, ops))
    decreases |ops|
  {
    if |ops| > 0 {
      InvStep(t, ops[0]);
      RunInv(Step(t, ops[0]), ops[1..]);
    }
  }

  // In every reachable table the search answers as the linear rule does.
  lemma ResolveInEveryRun(capacity: nat, ops: seq<Op>, a: nat)
    requires Ordered(Start(capacity), ops)
    ensures var rs := Run(Start(capacity), ops).regions; Names(rs, a, Resolve(rs, a))
  {
    StartInv(capacity);
    RunInv(Start(capacity), ops);
    ResolveIsLinear(Run(Start(capacity), ops), a);
  }

  predicate OneWorker(ops: seq<Op>, worker: nat) {
    forall i :: 0 <= i < |ops| && ops[i].Alloc? ==> ops[i].worker == worker
  }

  // A process that uses one id always allocates in order.
  lemma {:induction false} OneWorkerIsOrdered(t: Table, ops: seq<Op>, worker: nat)
    requires Placed(t) && OneWorker(ops, worker) && forall i :: 0 <= i < |t.regions| ==> t.regions[i].worker == worker
    ensures Ordered(t, ops)
    decreases |ops|
  {
    if |ops| > 0 {
      PlacedStep(t, ops[0]);
      assert OneWorker(ops[1..], worker);
      OneWorkerIsOrdered(Step(t, ops[0]), ops[1..], worker);
    }
  }

  // ---- Addresses that are gone ----

  // A handle below the next offset of its worker, in no live region.
  ghost predicate Gone(t: Table, a: nat)
    requires |t.next| == 256
  {
    && IsHandle(a) && AddrOffset(a) < t.next[AddrWorker(a)]
    && forall i :: 0 <= i < |t.regions| ==> !Contains(t.regions[i], a)
  }

  lemma GoneStep(t: Table, op: Op, a: nat)
    requires Placed(t) && Gone(t, a)
    ensures Gone(Step(t, op), a)
  {
    if op.Alloc? && HasRoom(t, op.worker, op.size) {
      HandleParts(a);
      NewMisses(AddrWorker(a), AddrOffset(a), op.worker, t.next);
    }
  }

  // What is below the next offset of its worker is in no region placed from there on.
  lemma NewMisses(w: nat, offset: nat, worker: nat, next: seq<nat>)
    requires |next| == 256 && w < 256 && worker < 256 && (forall i :: 0 <= i < 256 ==> next[i] <= OFFSET_MASK)
    requires offset < next[w]
    ensures Addr(w, offset) < Addr(worker, next[worker]) || Addr(w, offset) >= (worker + 1) * WORKER_SPAN
  {
    assert next[w] <= OFFSET_MASK && next[worker] <= OFFSET_MASK;
  }

  // A gone address never resolves again, whatever happens next.
  lemma {:induction false} GoneForGood(t: Table, ops: seq<Op>, a: nat)
    requires Placed(t) && Gone(t, a)
    ensures Placed(Run(t, ops)) && Gone(Run(t, ops), a) && Resolve(Run(t, ops).regions, a) == Nowhere
    decreases |ops|
  {
    if |ops| > 0 {
      PlacedStep(t, ops[0]);
      GoneStep(t, ops[0], a);
      GoneForGood(Step(t, ops[0]), ops[1..], a);
    }
  }

  ghost predicate Resolves(t: Table, a: nat) {
    exists i :: 0 <= i < |t.regions| && Contains(t.regions[i], a)
  }

  lemma {:induction false} NextGrows(t: Table, ops: seq<Op>, w: nat)
    requires Placed(t) && w < 256
    ensures Placed(Run(t, ops)) && t.next[w] <= Run(t, ops).next[w]
    decreases |ops|
  {
    if |ops| > 0 {
      PlacedStep(t, ops[0]);
      NextGrows(Step(t, ops[0]), ops[1..], w);
    }
  }

  // An address that once resolved and does not now is gone for good: its region was
  // freed, or dropped with the whole table.
  lemma StaleForGood(t: Table, ops: seq<Op>, more: seq<Op>, a: nat)
    requires Placed(t) && Resolves(t, a) && !Resolves(Run(t, ops), a)
    ensures |Run(t, ops).next| == 256 && Resolve(Run(Run(t, ops), more).regions, a) == Nowhere
  {
    var i :| 0 <= i < |t.regions| && Contains(t.regions[i], a);
    ContainedIsHandle(t, i, a);
    HandleParts(a);
    NextGrows(t, ops, AddrWorker(a));
    GoneForGood(Run(t, ops), more, a);
  }

  lemma GapIsGone(t: Table, worker: nat, size: nat, dtype: int, remote: nat, past: nat)
    requires Inv(t) && HasRoom(t, worker, size) && past < Gap(size)
    requires InOrder(t, Alloc(worker, size, dtype, remote))
    ensures var t' := Allocated(t, worker, size, dtype, remote);
            && |t'.next| == 256 && Gone(t', Addr(worker, t.next[worker]) + size + past)
  {
    hide IsHandle, AddrWorker, AddrOffset, Addr, Placed, WellPlaced;
    var t' := Allocated(t, worker, size, dtype, remote);
    InvStep(t, Alloc(worker, size, dtype, remote));
    var off := t.next[worker];
    AddrPlus(worker, off, size + past);
    Composed(worker, off + size + past);
    forall i | 0 <= i < |t.regions|
      ensures !Contains(t'.regions[i], Addr(worker, off) + size + past)
    {
      NotBefore(t'.regions, i, |t.regions|, Addr(worker, off) + size + past);
    }
  }

  lemma AddrPlus(worker: nat, offset: nat, more: nat)
    requires offset + more < OFFSET_SPAN
    ensures Addr(worker, offset) + more == Addr(worker, offset + more)
  {}

  // An overrun shorter than the region, or than 1 MiB, resolves to nothing, then and later.
  lemma GapNeverResolves(t: Table, worker: nat, size: nat, dtype: int, remote: nat, more: seq<Op>, past: nat)
    requires Inv(t) && HasRoom(t, worker, size) && (past < size || past < 0x10_0000)
    requires InOrder(t, Alloc(worker, size, dtype, remote))
    ensures var t' := Allocated(t, worker, size, dtype, remote);
            && |t'.next| == 256
            && Resolve(Run(t', more).regions, Addr(worker, t.next[worker]) + size + past) == Nowhere
  {
    hide IsHandle, AddrWorker, AddrOffset, Addr, Run, Resolve, Gone;
    GapIsGone(t, worker, size, dtype, remote, past);
    PlacedStep(t, Alloc(worker, size, dtype, remote));
    GoneForGood(Allocated(t, worker, size, dtype, remote), more, Addr(worker, t.next[worker]) + size + past);
  }

  // No address in the first 1 MiB of a worker ever resolves.
  lemma LowNeverResolves(capacity: nat, ops: seq<Op>, worker: nat, off: nat)
    requires 1 <= worker <= WORKER_MAX && off < 0x10_0000
    ensures Resolve(Run(Start(capacity), ops).regions, Addr(worker, off)) == Nowhere
  {
    hide Run, Resolve;
    StartInv(capacity);
    Composed(worker, off);
    GoneForGood(Start(capacity), ops, Addr(worker, off));
  }

  // A new region resolves at every byte of it, to itself.
  lemma NewResolves(t: Table, worker: nat, size: nat, dtype: int, remote: nat, k: nat)
    requires Inv(t) && HasRoom(t, worker, size) && k < size && InOrder(t, Alloc(worker, size, dtype, remote))
    ensures Resolve(Allocated(t, worker, size, dtype, remote).regions, Addr(worker, t.next[worker]) + k) ==
            Ref(|t.regions|, k)
  {
    var t' := Allocated(t, worker, size, dtype, remote);
    InvStep(t, Alloc(worker, size, dtype, remote));
    ResolveIsLinear(t', Addr(worker, t.next[worker]) + k);
    assert Contains(t'.regions[|t.regions|], Addr(worker, t.next[worker]) + k);
  }

  // ---- Worker ids out of order ----

  lemma {:induction false} BestOfAllBelow(rs: seq<Region>, a: nat, lo: nat, hi: nat, best: nat)
    requires lo <= hi <= |rs| && forall i :: 0 <= i < |rs| ==> rs[i].base <= a
    ensures BestBelow(rs, a, lo, hi, best) == if lo == hi then best else hi
    decreases hi - lo
  {
    if lo < hi {
      BestOfAllBelow(rs, a, lo + (hi - lo) / 2 + 1, hi, lo + (hi - lo) / 2 + 1);
    }
  }

  // Appending a smaller worker id hides the region that was last, although it is live.
  lemma OutOfOrderHides(t: Table, worker: nat, size: nat, dtype: int, remote: nat)
    requires Inv(t) && |t.regions| > 0 && t.regions[|t.regions| - 1].live
    requires HasRoom(t, worker, size) && worker < t.regions[|t.regions| - 1].worker
    ensures var last, rs := t.regions[|t.regions| - 1], Allocated(t, worker, size, dtype, remote).regions;
            Contains(rs[|t.regions| - 1], last.base) && Resolve(rs, last.base) == Nowhere
  {
    hide BestBelow, IsHandle, AddrWorker;
    var n := |t.regions|;
    var last, rs := t.regions[n - 1], Allocated(t, worker, size, dtype, remote).regions;
    assert WellPlaced(last, t.next);
    assert t.next[worker] <= OFFSET_MASK;
    assert rs[n].base + size <= last.base;
    assert forall i :: 0 <= i < n - 1 ==> t.regions[i].base <= last.base;
    BestOfAllBelow(rs, last.base, 0, n + 1, 0);
  }

  // So, for a table whose last region is live, the search keeps agreeing with the
  // linear rule exactly when the new id is not below the last one.
  lemma AgreesIffInOrder(t: Table, worker: nat, size: nat, dtype: int, remote: nat)
    requires Inv(t) && |t.regions| > 0 && t.regions[|t.regions| - 1].live && HasRoom(t, worker, size)
    ensures (forall a ::
             Names(Allocated(t, worker, size, dtype, remote).regions, a,
                   Resolve(Allocated(t, worker, size, dtype, remote).regions, a)))
            <==> t.regions[|t.regions| - 1].worker <= worker
  {
    var t' := Allocated(t, worker, size, dtype, remote);
    if t.regions[|t.regions| - 1].worker <= worker {
      InvStep(t, Alloc(worker, size, dtype, remote));
      forall a
        ensures Names(t'.regions, a, Resolve(t'.regions, a))
      {
        ResolveIsLinear(t', a);
      }
    } else {
      OutOfOrderHides(t, worker, size, dtype, remote);
      assert !Names(t'.regions, t.regions[|t.regions| - 1].base, Nowhere);
    }
  }

  // ---- The table in place ----

  function LiveRemotes(rs: seq<Region>): seq<nat> {
    if |rs| == 0 then []
    else if rs[|rs| - 1].live then LiveRemotes(rs[..|rs| - 1]) + [rs[|rs| - 1].remote]
    else LiveRemotes(rs[..|rs| - 1])
  }

  class RegionTable {
    const regions: array<Region>
    const nextOffset: array<nat>
    var count: nat

    ghost predicate Valid()
      reads this
    {
      count <= regions.Length && nextOffset.Length == 256
    }

    ghost function Contents(): Table
      requires Valid()
      reads this, regions, nextOffset
    {
      Table(regions[..count], regions.Length, nextOffset[..])
    }

    constructor (storage: array<Region>)
      ensures Valid() && regions == storage && Contents() == Start(storage.Length) && fresh(nextOffset)
    {
      regions, count := storage, 0;
      nextOffset := new nat[256](i => MIN_GAP);
      new;
      assert nextOffset[..] == seq(256, i => MIN_GAP);
    }

    // vx_remote_table_alloc
    method TableAlloc(worker: nat, size: nat, dtype: int, remote: nat) returns (base: nat)
      requires Valid() && Placed(Contents())
      modifies this, regions, nextOffset
      ensures Valid() && Contents() == Allocated(old(Contents()), worker, size, dtype, remote) && Placed(Contents())
      ensures base == if HasRoom(old(Contents()), worker, size) then Addr(worker, old(nextOffset[worker])) else 0
    {
      ghost var was := Contents();
      PlacedStep(was, Alloc(worker, size, dtype, remote));
      if worker == 0 || worker > WORKER_MAX || size == 0 || count == regions.Length {
        return 0;
      }
      var off := nextOffset[worker];
      var gap := if size > MIN_GAP then size else MIN_GAP;
      if size > OFFSET_MASK || off > OFFSET_MASK - size || off + size > OFFSET_MASK - gap {
        return 0;
      }
      base := Addr(worker, off);
      regions[count] := Region(base, size, worker, dtype, remote, true);
      count := count + 1;
      nextOffset[worker] := off + size + gap;
      assert regions[..count] == was.regions + [regions[count - 1]];
    }

    // The search loop of vx_remote_resolve.
    method GreatestBelow(a: nat) returns (best: nat)
      requires Valid()
      ensures best == BestBelow(regions[..count], a, 0, count, 0) <= count
      ensures best > 0 ==> regions[best - 1].base <= a
    {
      hide BestBelow;
      var lo, hi := 0, count;
      best := 0;
      ghost var rs := regions[..count];
      while lo < hi
        invariant 0 <= lo <= hi <= count && best <= count && (best > 0 ==> regions[best - 1].base <= a)
        invariant BestBelow(rs, a, lo, hi, best) == BestBelow(rs, a, 0, count, 0)
      {
        BestStep(rs, a, lo, hi, best);
        var mid := lo + (hi - lo) / 2;
        if regions[mid].base <= a {
          best, lo := mid + 1, mid + 1;
        } else {
          hi := mid;
        }
      }
      BestStop(rs, a, lo, best);
    }

    // vx_remote_resolve
    method TableResolve(a: nat) returns (ref: Ref)
      requires Valid()
      ensures ref == Resolve(regions[..count], a)
    {
      hide IsHandle, AddrWorker, BestBelow;
      if !IsHandle(a) {
        return Nowhere;
      }
      var best := GreatestBelow(a);
      if best == 0 {
        return Nowhere;
      }
      var r := regions[best - 1];
      var off := a - r.base;
      if !r.live || off >= r.size || AddrWorker(a) != r.worker {
        return Nowhere;
      }
      ref := Ref(best - 1, off);
    }

    // vx_remote_table_free
    method TableFree(base: nat) returns (ok: bool)
      requires Valid()
      modifies regions
      ensures Valid() && Contents() == Freed(old(Contents()), base)
      ensures ok <==> FirstLive(old(Contents()).regions, base) < count
    {
      ghost var was := Contents();
      var i := 0;
      while i < count
        invariant 0 <= i <= count && Contents() == was
        invariant forall j :: 0 <= j < i ==> !(regions[j].base == base && regions[j].live)
      {
        if regions[i].base == base && regions[i].live {
          assert FirstLive(was.regions, base) == i;
          regions[i] := regions[i].(live := false);
          assert regions[..count] == was.regions[i := was.regions[i].(live := false)];
          return true;
        }
        i := i + 1;
      }
      assert FirstLive(was.regions, base) == count;
      ok := false;
    }

    // vx_remote_table_free_all, with the pointers it passes to the release callback
    method TableFreeAll() returns (released: seq<nat>)
      requires Valid()
      modifies `count
      ensures Valid() && Contents() == FreedAll(old(Contents()))
      ensures released == LiveRemotes(old(Contents()).regions)
    {
      released := [];
      var i := 0;
      while i < count
        invariant 0 <= i <= count && released == LiveRemotes(regions[..i])
      {
        assert regions[..i + 1][..i] == regions[..i];
        if regions[i].live {
          released := released + [regions[i].remote];
        }
        i := i + 1;
      }
      count := 0;
    }
  }
}
