// A kernel on device buffers that stand for local memory, against the same kernel in memory.
module Device {
  import opened Strided
  import opened Abi
  import opened Plan
  import opened Staging

  // ---- A kernel on device buffers ----

  // A view of a device buffer: byte `offset` of the buffer is its first element.
  datatype Place = Place(remote: nat, offset: int, sizes: seq<int>, strides: seq<int>)

  predicate Placed(ps: seq<Place>, bs: seq<int>) {
    |ps| == |bs| && forall v :: 0 <= v < |ps| ==> |ps[v].sizes| == |ps[v].strides|
  }

  function PlaceByte(p: Place, b: int, i: seq<int>, k: int): int
    requires |i| == |p.strides|
  {
    p.offset + Linear(i, p.strides) * b + k
  }

  predicate PlaceReaches(ps: seq<Place>, bs: seq<int>, v: nat, i: seq<int>, k: nat)
    requires Placed(ps, bs)
  {
    v < |ps| && InRange(i, ps[v].sizes) && k < bs[v]
  }

  type Heap = map<nat, seq<Byte>>

  datatype DeviceResult = DeviceResult(heap: Heap, seen: seq<Byte>)

  // The byte at `y` of a buffer is there.
  predicate InHeap(heap: Heap, r: nat, y: int) {
    r in heap && 0 <= y < |heap[r]|
  }

  function PutByte(heap: Heap, r: nat, y: int, b: Byte): Heap
    requires InHeap(heap, r, y)
  {
    var bytes: seq<Byte> := heap[r][y := b];
    heap[r := bytes]
  }

  // `n` steps of the kernel on device buffers.
  function DeviceRun(kernel: Kernel, ps: seq<Place>, bs: seq<int>, heap: Heap, seen: seq<Byte>, n: nat): DeviceResult
    requires Placed(ps, bs)
    decreases n
  {
    if n == 0 then DeviceResult(heap, seen)
    else
      match kernel(seen)
      case Halt => DeviceResult(heap, seen)
      case Load(v, i, k) =>
        if !PlaceReaches(ps, bs, v, i, k) then DeviceResult(heap, seen)
        else
          var r, y := ps[v].remote, PlaceByte(ps[v], bs[v], i, k);
          if InHeap(heap, r, y) then DeviceRun(kernel, ps, bs, heap, seen + [heap[r][y]], n - 1)
          else DeviceResult(heap, seen)
      case Store(v, i, k, value) =>
        if !PlaceReaches(ps, bs, v, i, k) then DeviceResult(heap, seen)
        else
          var r, y := ps[v].remote, PlaceByte(ps[v], bs[v], i, k);
          if InHeap(heap, r, y) then DeviceRun(kernel, ps, bs, PutByte(heap, r, y, value), seen + [value], n - 1)
          else DeviceResult(heap, seen)
  }

  // ---- Buffers that stand for local memory ----

  // Byte `y` of buffer `s` stands for the byte of memory at `x`.
  predicate Stands(hosts: seq<seq<int>>, remotes: seq<nat>, s: int, r: nat, y: int, x: int)
    requires |hosts| == |remotes|
  {
    0 <= s < |hosts| && remotes[s] == r && 0 <= y < |hosts[s]| && hosts[s][y] == x
  }

  // No two bytes stand for one, and no two buffers are one.
  ghost predicate Apart(hosts: seq<seq<int>>, remotes: seq<nat>) {
    && |hosts| == |remotes| && (forall s, t :: 0 <= s < t < |remotes| ==> remotes[s] != remotes[t])
    && (forall s, c, t, e :: 0 <= s < |hosts| && 0 <= c < |hosts[s]| && 0 <= t < |hosts| && 0 <= e < |hosts[t]| ==>
          (hosts[s][c] == hosts[t][e] ==> s == t && c == e))
  }

  // The buffers hold what memory holds.
  ghost predicate Images(hosts: seq<seq<int>>, remotes: seq<nat>, m: seq<Byte>, heap: Heap)
    requires |hosts| == |remotes|
  {
    forall s :: 0 <= s < |hosts| ==> ImageAt(hosts[s], remotes[s], m, heap)
  }

  ghost predicate ImageAt(hosts: seq<int>, r: nat, m: seq<Byte>, heap: Heap) {
    r in heap && |hosts| <= |heap[r]| && forall c :: 0 <= c < |hosts| ==>
      0 <= hosts[c] < |m| && heap[r][c] == m[hosts[c]]
  }

  // Each element of a view in memory is the same element of its place on the device.
  ghost predicate Maps(hosts: seq<seq<int>>, remotes: seq<nat>, ds: seq<Desc>, ps: seq<Place>, bs: seq<int>)
    requires |hosts| == |remotes|
  {
    && Shaped(ds, bs) && Placed(ps, bs) && (forall v :: 0 <= v < |ds| ==> ps[v].sizes == ds[v].sizes)
    && (forall v: nat, i, k: nat :: Reaches(ds, bs, v, i, k) ==>
          exists s ::
          Stands(hosts, remotes, s, ps[v].remote, PlaceByte(ps[v], bs[v], i, k), ElementByte(ds[v], bs[v], i, k)))
  }

  ghost predicate Stood(hosts: seq<seq<int>>, x: int) {
    exists s, c :: 0 <= s < |hosts| && 0 <= c < |hosts[s]| && hosts[s][c] == x
  }

  // Writing a byte and the byte that stands for it keeps the images.
  lemma StoreImages(hosts: seq<seq<int>>, remotes: seq<nat>, m: seq<Byte>, heap: Heap, s: int, r: nat, y: int, x: int,
                    b: Byte)
    requires Apart(hosts, remotes) && Images(hosts, remotes, m, heap) && Stands(hosts, remotes, s, r, y, x)
    ensures 0 <= x < |m| && InHeap(heap, r, y) && heap[r][y] == m[x] && Stood(hosts, x)
    ensures Images(hosts, remotes, m[x := b], PutByte(heap, r, y, b))
  {
    assert ImageAt(hosts[s], remotes[s], m, heap);
    var m', heap' := m[x := b], PutByte(heap, r, y, b);
    forall t | 0 <= t < |hosts|
      ensures ImageAt(hosts[t], remotes[t], m', heap')
    {
      assert ImageAt(hosts[t], remotes[t], m, heap);
      StoreImage(hosts, remotes, m, heap, s, r, y, x, b, t);
    }
  }

  lemma StoreImage(hosts: seq<seq<int>>, remotes: seq<nat>, m: seq<Byte>, heap: Heap, s: int, r: nat, y: int, x: int,
                   b: Byte, t: nat)
    requires Apart(hosts, remotes) && Stands(hosts, remotes, s, r, y, x) && t < |hosts| && 0 <= x < |m|
    requires InHeap(heap, r, y)
    requires ImageAt(hosts[t], remotes[t], m, heap)
    ensures ImageAt(hosts[t], remotes[t], m[x := b], PutByte(heap, r, y, b))
  {
    var m', heap' := m[x := b], PutByte(heap, r, y, b);
    forall c | 0 <= c < |hosts[t]|
      ensures 0 <= hosts[t][c] < |m'| && heap'[remotes[t]][c] == m'[hosts[t][c]]
    {
      if hosts[t][c] == x {
        assert t == s && c == y;
      } else if t == s {
        assert c != y;
      }
    }
  }

  // The two runs saw the same, the buffers hold what memory holds, and memory that no buffer stands for
  // is as it was.
  ghost predicate Mirrored(hosts: seq<seq<int>>, remotes: seq<nat>, m: seq<Byte>, r: Result, q: DeviceResult)
    requires |hosts| == |remotes|
  {
    && q.seen == r.seen && |r.memory| == |m| && Images(hosts, remotes, r.memory, q.heap)
    && forall x :: 0 <= x < |m| && !Stood(hosts, x) ==> r.memory[x] == m[x]
  }

  lemma StoodStays(hosts: seq<seq<int>>, remotes: seq<nat>, m: seq<Byte>, x: int, b: Byte, r: Result, q: DeviceResult)
    requires |hosts| == |remotes| && 0 <= x < |m| && Stood(hosts, x) && Mirrored(hosts, remotes, m[x := b], r, q)
    ensures Mirrored(hosts, remotes, m, r, q)
  {
    hide Stood, Images;
  }

  // One step of either run.
  lemma LoadStep(kernel: Kernel, ds: seq<Desc>, ps: seq<Place>, bs: seq<int>, m: seq<Byte>, heap: Heap, seen: seq<Byte>,
                 n: nat, v: nat, i: seq<int>, k: nat)
    requires Shaped(ds, bs) && Placed(ps, bs) && n > 0 && kernel(seen) == Load(v, i, k)
    requires Reaches(ds, bs, v, i, k) && PlaceReaches(ps, bs, v, i, k)
    requires 0 <= ElementByte(ds[v], bs[v], i, k) < |m| && InHeap(heap, ps[v].remote, PlaceByte(ps[v], bs[v], i, k))
    ensures Run(kernel, ds, bs, m, seen, n) ==
            Run(kernel, ds, bs, m, seen + [m[ElementByte(ds[v], bs[v], i, k)]], n - 1)
    ensures DeviceRun(kernel, ps, bs, heap, seen, n) ==
            DeviceRun(kernel, ps, bs, heap, seen + [heap[ps[v].remote][PlaceByte(ps[v], bs[v], i, k)]], n - 1)
  {}

  lemma StoreStep(kernel: Kernel, ds: seq<Desc>, ps: seq<Place>, bs: seq<int>, m: seq<Byte>, heap: Heap,
                  seen: seq<Byte>, n: nat, v: nat, i: seq<int>, k: nat, b: Byte)
    requires Shaped(ds, bs) && Placed(ps, bs) && n > 0 && kernel(seen) == Store(v, i, k, b)
    requires Reaches(ds, bs, v, i, k) && PlaceReaches(ps, bs, v, i, k)
    requires 0 <= ElementByte(ds[v], bs[v], i, k) < |m| && InHeap(heap, ps[v].remote, PlaceByte(ps[v], bs[v], i, k))
    ensures Run(kernel, ds, bs, m, seen, n) ==
            Run(kernel, ds, bs, m[ElementByte(ds[v], bs[v], i, k) := b], seen + [b], n - 1)
    ensures DeviceRun(kernel, ps, bs, heap, seen, n) ==
            DeviceRun(kernel, ps, bs, PutByte(heap, ps[v].remote, PlaceByte(ps[v], bs[v], i, k), b), seen + [b], n - 1)
  {}

  // The step stops the kernel, or reaches no element of its views.
  predicate Leaves(ds: seq<Desc>, ps: seq<Place>, bs: seq<int>, op: Op)
    requires Shaped(ds, bs) && Placed(ps, bs)
  {
    op.Halt? || (!Reaches(ds, bs, op.view, op.index, op.byte) && !PlaceReaches(ps, bs, op.view, op.index, op.byte))
  }

  lemma StopStep(kernel: Kernel, ds: seq<Desc>, ps: seq<Place>, bs: seq<int>, m: seq<Byte>, heap: Heap, seen: seq<Byte>,
                 n: nat)
    requires Shaped(ds, bs) && Placed(ps, bs)
    requires n == 0 || Leaves(ds, ps, bs, kernel(seen))
    ensures Run(kernel, ds, bs, m, seen, n) == Result(m, seen)
    ensures DeviceRun(kernel, ps, bs, heap, seen, n) == DeviceResult(heap, seen)
  {}

  // The element a kernel reaches, in memory and on the device.
  lemma Reached(hosts: seq<seq<int>>, remotes: seq<nat>, ds: seq<Desc>, ps: seq<Place>, bs: seq<int>, v: nat,
                i: seq<int>, k: nat)
    returns (s: int)
    requires |hosts| == |remotes| && Maps(hosts, remotes, ds, ps, bs) && Reaches(ds, bs, v, i, k)
    ensures PlaceReaches(ps, bs, v, i, k)
    ensures Stands(hosts, remotes, s, ps[v].remote, PlaceByte(ps[v], bs[v], i, k), ElementByte(ds[v], bs[v], i, k))
  {
    hide Stands, PlaceByte, ElementByte;
    s :| Stands(hosts, remotes, s, ps[v].remote, PlaceByte(ps[v], bs[v], i, k), ElementByte(ds[v], bs[v], i, k));
  }

  lemma SameReaches(hosts: seq<seq<int>>, remotes: seq<nat>, ds: seq<Desc>, ps: seq<Place>, bs: seq<int>, v: nat,
                    i: seq<int>, k: nat)
    requires |hosts| == |remotes| && Maps(hosts, remotes, ds, ps, bs)
    ensures Shaped(ds, bs) && Placed(ps, bs) && (Reaches(ds, bs, v, i, k) <==> PlaceReaches(ps, bs, v, i, k))
  {
    hide Stands;
  }

  lemma MapsShape(hosts: seq<seq<int>>, remotes: seq<nat>, ds: seq<Desc>, ps: seq<Place>, bs: seq<int>)
    requires |hosts| == |remotes| && Maps(hosts, remotes, ds, ps, bs)
    ensures Shaped(ds, bs) && Placed(ps, bs) && |ds| == |ps| == |bs|
  {
    hide Stands;
  }

  // A load sees one byte, on either side.
  lemma LoadCase(kernel: Kernel, ds: seq<Desc>, ps: seq<Place>, bs: seq<int>, hosts: seq<seq<int>>, remotes: seq<nat>,
                 m: seq<Byte>, heap: Heap, seen: seq<Byte>, n: nat, v: nat, i: seq<int>, k: nat) returns (b: Byte)
    requires Apart(hosts, remotes) && Images(hosts, remotes, m, heap) && Maps(hosts, remotes, ds, ps, bs)
    requires n > 0 && kernel(seen) == Load(v, i, k) && Reaches(ds, bs, v, i, k)
    ensures Shaped(ds, bs) && Placed(ps, bs)
    ensures Run(kernel, ds, bs, m, seen, n) == Run(kernel, ds, bs, m, seen + [b], n - 1)
    ensures DeviceRun(kernel, ps, bs, heap, seen, n) == DeviceRun(kernel, ps, bs, heap, seen + [b], n - 1)
  {
    assert |hosts| == |remotes|;
    MapsShape(hosts, remotes, ds, ps, bs);
    hide Apart, Images, Stood, ElementByte, PlaceByte, Stands, Run, DeviceRun, Maps, Reaches, PlaceReaches;
    var s := Reached(hosts, remotes, ds, ps, bs, v, i, k);
    ReachShape(ds, ps, bs, v, i, k);
    var r, y, x := ps[v].remote, PlaceByte(ps[v], bs[v], i, k), ElementByte(ds[v], bs[v], i, k);
    StoreImages(hosts, remotes, m, heap, s, r, y, x, 0);
    LoadStep(kernel, ds, ps, bs, m, heap, seen, n, v, i, k);
    b := m[x];
  }

  // A store changes one byte, on either side.
  lemma StoreCase(kernel: Kernel, ds: seq<Desc>, ps: seq<Place>, bs: seq<int>, hosts: seq<seq<int>>, remotes: seq<nat>,
                  m: seq<Byte>, heap: Heap, seen: seq<Byte>, n: nat, v: nat, i: seq<int>, k: nat, b: Byte)
    returns (m': seq<Byte>, heap': Heap, x: int)
    requires Apart(hosts, remotes) && Images(hosts, remotes, m, heap) && Maps(hosts, remotes, ds, ps, bs)
    requires n > 0 && kernel(seen) == Store(v, i, k, b) && Reaches(ds, bs, v, i, k)
    ensures Shaped(ds, bs) && Placed(ps, bs) && Images(hosts, remotes, m', heap')
    ensures 0 <= x < |m| && Stood(hosts, x) && m' == m[x := b]
    ensures Run(kernel, ds, bs, m, seen, n) == Run(kernel, ds, bs, m', seen + [b], n - 1)
    ensures DeviceRun(kernel, ps, bs, heap, seen, n) == DeviceRun(kernel, ps, bs, heap', seen + [b], n - 1)
  {
    assert |hosts| == |remotes|;
    MapsShape(hosts, remotes, ds, ps, bs);
    hide Apart, Images, Stood, ElementByte, PlaceByte, Stands, Run, DeviceRun, Maps, Reaches, PlaceReaches;
    var s := Reached(hosts, remotes, ds, ps, bs, v, i, k);
    ReachShape(ds, ps, bs, v, i, k);
    x := ElementByte(ds[v], bs[v], i, k);
    var r, y := ps[v].remote, PlaceByte(ps[v], bs[v], i, k);
    StoreImages(hosts, remotes, m, heap, s, r, y, x, b);
    StoreStep(kernel, ds, ps, bs, m, heap, seen, n, v, i, k, b);
    m', heap' := m[x := b], PutByte(heap, r, y, b);
  }

  // Both runs stop here, or go on from a memory and a heap that hold the same.
  lemma Advance(kernel: Kernel, ds: seq<Desc>, ps: seq<Place>, bs: seq<int>, hosts: seq<seq<int>>, remotes: seq<nat>,
                m: seq<Byte>, heap: Heap, seen: seq<Byte>, n: nat)
    returns (stops: bool, m': seq<Byte>, heap': Heap, seen': seq<Byte>, x: int, b: Byte)
    requires Apart(hosts, remotes) && Images(hosts, remotes, m, heap) && Maps(hosts, remotes, ds, ps, bs) && n > 0
    ensures Shaped(ds, bs) && Placed(ps, bs)
    ensures stops ==> Run(kernel, ds, bs, m, seen, n) == Result(m, seen)
                      && DeviceRun(kernel, ps, bs, heap, seen, n) == DeviceResult(heap, seen)
    ensures !stops ==> Images(hosts, remotes, m', heap')
                       && Run(kernel, ds, bs, m, seen, n) == Run(kernel, ds, bs, m', seen', n - 1)
                       && DeviceRun(kernel, ps, bs, heap, seen, n) == DeviceRun(kernel, ps, bs, heap', seen', n - 1)
    ensures !stops ==> m' == m || (0 <= x < |m| && Stood(hosts, x) && m' == m[x := b])
  {
    assert |hosts| == |remotes|;
    MapsShape(hosts, remotes, ds, ps, bs);
    hide Apart, Images, Stood, Run, DeviceRun, Maps, Reaches, PlaceReaches, Shaped, Placed;
    stops, m', heap', seen', x, b := true, m, heap, seen, 0, 0;
    var op := kernel(seen);
    if op.Load? {
      SameReaches(hosts, remotes, ds, ps, bs, op.view, op.index, op.byte);
      if Reaches(ds, bs, op.view, op.index, op.byte) {
        b := LoadCase(kernel, ds, ps, bs, hosts, remotes, m, heap, seen, n, op.view, op.index, op.byte);
        return false, m, heap, seen + [b], x, b;
      }
    } else if op.Store? {
      SameReaches(hosts, remotes, ds, ps, bs, op.view, op.index, op.byte);
      if Reaches(ds, bs, op.view, op.index, op.byte) {
        b := op.value;
        m', heap', x := StoreCase(kernel, ds, ps, bs, hosts, remotes, m, heap, seen, n, op.view, op.index, op.byte, b);
        return false, m', heap', seen + [b], x, b;
      }
    }
    StopStep(kernel, ds, ps, bs, m, heap, seen, n);
  }

  // Running on the device does what running in memory does, step by step.
  lemma {:induction false} DeviceMirrors(kernel: Kernel, ds: seq<Desc>, ps: seq<Place>, bs: seq<int>,
                                         hosts: seq<seq<int>>, remotes: seq<nat>, m: seq<Byte>, heap: Heap,
                                         seen: seq<Byte>, n: nat)
    requires Apart(hosts, remotes) && Images(hosts, remotes, m, heap) && Maps(hosts, remotes, ds, ps, bs)
    ensures Shaped(ds, bs) && Placed(ps, bs)
    ensures Mirrored(hosts, remotes, m, Run(kernel, ds, bs, m, seen, n), DeviceRun(kernel, ps, bs, heap, seen, n))
    decreases n
  {
    hide Apart, Images, Stood, Maps, Reaches, PlaceReaches, Mirrored, Run, DeviceRun, Shaped, Placed;
    ApartSizes(hosts, remotes);
    MapsShape(hosts, remotes, ds, ps, bs);
    NotRun(hosts, remotes, m, heap, seen);
    if n == 0 {
      StopStep(kernel, ds, ps, bs, m, heap, seen, n);
      return;
    }
    var stops, m', heap', seen', x, b := Advance(kernel, ds, ps, bs, hosts, remotes, m, heap, seen, n);
    if !stops {
      DeviceMirrors(kernel, ds, ps, bs, hosts, remotes, m', heap', seen', n - 1);
      if m' != m {
        StoodStays(hosts, remotes, m, x, b, Run(kernel, ds, bs, m', seen', n - 1),
                   DeviceRun(kernel, ps, bs, heap', seen', n - 1));
      }
    }
  }

  lemma ApartSizes(hosts: seq<seq<int>>, remotes: seq<nat>)
    requires Apart(hosts, remotes)
    ensures |hosts| == |remotes|
  {}

  lemma NotRun(hosts: seq<seq<int>>, remotes: seq<nat>, m: seq<Byte>, heap: Heap, seen: seq<Byte>)
    requires |hosts| == |remotes| && Images(hosts, remotes, m, heap)
    ensures Mirrored(hosts, remotes, m, Result(m, seen), DeviceResult(heap, seen))
  {}

  lemma ReachShape(ds: seq<Desc>, ps: seq<Place>, bs: seq<int>, v: nat, i: seq<int>, k: nat)
    requires Shaped(ds, bs) && Placed(ps, bs) && Reaches(ds, bs, v, i, k) && PlaceReaches(ps, bs, v, i, k)
    ensures v < |ds| && v < |ps| && |i| == |ds[v].strides| == |ps[v].strides|
  {}

}
