// A kernel that runs on a worker instead of in local memory: staged, dispatched and brought back, it
// leaves the memory that running in place leaves.
module Offload {
  import opened Strided
  import opened Abi
  import opened Plan
  import Staging
  import opened Wire
  import Transport
  import opened Handles
  import opened Worker
  import opened Agent
  import opened Serving
  import opened Protocol
  import opened Carry
  import opened Client
  import opened Dispatching
  import Device

  // ---- The tensors of a launch ----

  // The places of the tensors among the arguments, in order.
  function TensorsOf(args: seq<Rebuilt>): (ks: seq<nat>)
    ensures forall j :: 0 <= j < |ks| ==> ks[j] < |args| && args[ks[j]].Tensor?
  {
    if |args| == 0 then []
    else TensorsOf(args[..|args| - 1]) + if args[|args| - 1].Tensor? then [|args| - 1] else []
  }

  // A tensor as a place in a device buffer.
  function PlaceOf(r: Rebuilt): Device.Place
    requires r.Tensor?
  {
    Device.Place(r.remote, r.offset, r.sizes, r.strides)
  }

  function PlacesOf(args: seq<Rebuilt>): (ps: seq<Device.Place>)
    ensures |ps| == |TensorsOf(args)|
  {
    seq(|TensorsOf(args)|, v requires 0 <= v < |TensorsOf(args)| => PlaceOf(args[TensorsOf(args)[v]]))
  }

  // The element sizes of the tensors.
  function SizesOf(h: Launch): (bs: seq<int>)
    requires |h.tags| == |h.args|
    ensures |bs| == |TensorsOf(h.args)|
  {
    var ks := TensorsOf(h.args);
    seq(|ks|, v requires 0 <= v < |ks| => DtypeBytes(Elem(h.tags[ks[v]])))
  }

  // Every tensor has as many strides as sizes.
  predicate IsLaunch(h: Launch) {
    |h.tags| == |h.args| && forall i :: 0 <= i < |h.args| && h.args[i].Tensor? ==>
      |h.args[i].sizes| == |h.args[i].strides|
  }

  // The kernel on the tensors of a launch, in the worker's buffers.
  ghost function OnWorker(kernel: Staging.Kernel, w: State, h: Launch, steps: nat): Device.DeviceResult
    requires IsLaunch(h)
  {
    Device.DeviceRun(kernel, PlacesOf(h.args), SizesOf(h), w.heap, [], steps)
  }

  // A plugin that runs this kernel, where it runs anything.
  ghost predicate Executes(plugin: Plugin, kernel: Staging.Kernel, steps: nat) {
    forall w: State, h: Launch :: IsLaunch(h) && plugin(w, h).Runs? ==>
      Executed(plugin(w, h).heap, OnWorker(kernel, w, h, steps).heap, w.heap)
  }

  predicate Executed(after: map<nat, Bytes>, ran: map<nat, Bytes>, before: map<nat, Bytes>) {
    forall p :: p in before ==> p in after && p in ran && after[p] == ran[p]
  }

  // ---- Buffers and the memory they stand for ----

  ghost function Hosts(staged: seq<Staged>): (hosts: seq<seq<int>>)
    ensures |hosts| == |staged|
  {
    seq(|staged|, k requires 0 <= k < |staged| => HostsOfStaged(staged[k]))
  }

  function Remotes(w: State, staged: seq<Staged>): (rs: seq<nat>)
    ensures |rs| == |staged|
  {
    seq(|staged|, k requires 0 <= k < |staged| => RemoteAt(w, staged[k].handle))
  }

  lemma StagedImagesAt(w0: State, w: State, staged: seq<Staged>, contents: seq<Bytes>, m: seq<Byte>)
    requires Sound(w) && StagedOk(w0, w, staged, contents) && Imaged(staged, contents, m)
    ensures Device.Images(Hosts(staged), Remotes(w, staged), m, w.heap)
  {
    hide Sound, Live, Orphans, Resident, RemoteAt, HostsOfStaged;
    forall k | 0 <= k < |staged|
      ensures Device.ImageAt(Hosts(staged)[k], Remotes(w, staged)[k], m, w.heap)
    {
      assert StagedAt(w0, w, staged[k], contents[k]);
      ResidentAddress(w, staged[k].handle, contents[k], 0);
      if staged[k].bytes == 0 {
        NoHosts(staged[k]);
      } else {
        assert ImageOf(staged[k], contents[k], m);
      }
    }
  }

  lemma NoHosts(s: Staged)
    requires s.bytes == 0
    ensures HostsOfStaged(s) == []
  {}

  lemma StagedApart(w0: State, w: State, staged: seq<Staged>, contents: seq<Bytes>, size: nat)
    requires Sound(w) && StagedOk(w0, w, staged, contents) && AllHome(staged, size)
    ensures Device.Apart(Hosts(staged), Remotes(w, staged))
  {
    forall j, k | 0 <= j < k < |staged|
      ensures Remotes(w, staged)[j] != Remotes(w, staged)[k]
    {
      RemotesDiffer(w0, w, staged, contents, j, k);
    }
    hide Sound, StagedOk, Remotes, HostsOfStaged, AllHome;
    forall j, c, k, e | 0 <= j < |staged| && 0 <= c < |Hosts(staged)[j]| && 0 <= k < |staged|
    && 0 <= e < |Hosts(staged)[k]|
      ensures Hosts(staged)[j][c] == Hosts(staged)[k][e] ==> j == k && c == e
    {
      HostsApart(staged, size, j, c, k, e);
    }
  }

  lemma RemotesDiffer(w0: State, w: State, staged: seq<Staged>, contents: seq<Bytes>, j: nat, k: nat)
    requires Sound(w) && StagedOk(w0, w, staged, contents) && j < k < |staged|
    ensures RemoteAt(w, staged[j].handle) != RemoteAt(w, staged[k].handle)
  {
    hide Inv, Live, Orphans, Resolve, RemoteAt, Resident, Backed;
    assert StagedAt(w0, w, staged[j], contents[j]) && StagedAt(w0, w, staged[k], contents[k]);
    ResidentAddress(w, staged[j].handle, contents[j], 0);
    ResidentAddress(w, staged[k].handle, contents[k], 0);
  }

  lemma HostsApart(staged: seq<Staged>, size: nat, j: nat, c: nat, k: nat, e: nat)
    requires AllHome(staged, size) && j < |staged| && k < |staged|
    requires c < |HostsOfStaged(staged[j])| && e < |HostsOfStaged(staged[k])|
    ensures HostsOfStaged(staged[j])[c] == HostsOfStaged(staged[k])[e] ==> j == k && c == e
  {
    NoHostsIf(staged[j]);
    NoHostsIf(staged[k]);
    hide HostsOfStaged;
    assert Home(staged[j], size) && Home(staged[k], size);
    assert HostsOfStaged(staged[j])[c] in HostsOfStaged(staged[j])
           && HostsOfStaged(staged[k])[e] in HostsOfStaged(staged[k]);
    if j < k {
      assert NoneShared(HostsOfStaged(staged[j]), HostsOfStaged(staged[k]));
    } else if k < j {
      assert NoneShared(HostsOfStaged(staged[k]), HostsOfStaged(staged[j]));
    }
  }

  lemma NoHostsIf(s: Staged)
    ensures s.bytes == 0 ==> HostsOfStaged(s) == []
  {}

  // ---- Arguments and places ----

  // Every tensor of the call is in local memory.
  ghost predicate AllLocal(args: seq<LocalArg>, descs: seq<Desc>)
    requires AllGood(args, descs)
  {
    forall i :: 0 <= i < |args| && IsTensor(args[i], descs) ==> IsLocal(args[i], descs)
  }

  // The tensors of the call, in order, and their descriptors and element sizes.
  ghost function LocalTensors(args: seq<LocalArg>, descs: seq<Desc>): (ks: seq<nat>)
    requires AllGood(args, descs)
    ensures forall j :: 0 <= j < |ks| ==>
              ks[j] < |args| && IsTensor(args[ks[j]], descs) && 0 <= args[ks[j]].desc < |descs|
  {
    if |args| == 0 then []
    else
      var n := |args| - 1;
      LocalTensors(args[..n], descs) + if IsTensor(args[n], descs) then [n] else []
  }

  ghost function TensorDescs(args: seq<LocalArg>, descs: seq<Desc>): (ds: seq<Desc>)
    requires AllGood(args, descs)
    ensures |ds| == |LocalTensors(args, descs)|
  {
    var ks := LocalTensors(args, descs);
    seq(|ks|, v requires 0 <= v < |ks| => descs[args[ks[v]].desc])
  }

  ghost function TensorSizes(args: seq<LocalArg>, descs: seq<Desc>): (bs: seq<int>)
    requires AllGood(args, descs)
    ensures |bs| == |LocalTensors(args, descs)|
  {
    var ks := LocalTensors(args, descs);
    seq(|ks|, v requires 0 <= v < |ks| => DtypeBytes(Elem(args[ks[v]].tag)))
  }

  lemma TensorsShaped(args: seq<LocalArg>, descs: seq<Desc>)
    requires AllGood(args, descs) && GoodDescs(descs)
    ensures Staging.Shaped(TensorDescs(args, descs), TensorSizes(args, descs))
  {
    hide IsTensor, GoodArg;
  }

  // An argument is a tensor there exactly when it is one here, and is carried by a staged buffer.
  lemma TensorIsCarried(rs: seq<Region>, a: LocalArg, out: Arg, descs: seq<Desc>, staged: seq<Staged>,
                        contents: seq<Bytes>, m: seq<Byte>)
    requires GoodArg(a, descs) && SentAs(a, out, descs, staged, contents, m) && Sized(out) && CanRebuild(rs, out)
    requires IsTensor(a, descs) ==> IsLocal(a, descs)
    ensures out.tag == a.tag && (RebuiltAs(rs, out).Tensor? <==> IsTensor(a, descs))
    ensures IsTensor(a, descs) ==>
              && 0 <= a.desc < |descs| && Carried(out, staged, contents, m, descs[a.desc])
              && NamesView(rs, out, RebuiltAs(rs, out))
  {
    hide Carried, Kind, Elem, Rank, IsHandle, AllI64, FitsIn, Resolve, IsSlot;
    var r :| Rebuilds(rs, out, r);
    RebuiltOnce(rs, out, r);
  }

  lemma {:induction false} SameTensors(rs: seq<Region>, args: seq<LocalArg>, descs: seq<Desc>, sent: seq<Arg>)
    requires AllGood(args, descs) && |sent| == |args|
    requires forall i :: 0 <= i < |args| ==> (RebuiltAs(rs, sent[i]).Tensor? <==> IsTensor(args[i], descs))
    ensures TensorsOf(AllRebuilt(rs, sent)) == LocalTensors(args, descs)
  {
    hide RebuiltAs, IsTensor, GoodArg;
    if |args| > 0 {
      var n := |args| - 1;
      SameTensors(rs, args[..n], descs, sent[..n]);
      assert AllRebuilt(rs, sent)[..n] == AllRebuilt(rs, sent[..n]);
    }
  }

  // The tensors of the call are on the worker what they are here.
  ghost predicate Received(w: State, args: seq<LocalArg>, descs: seq<Desc>, sent: seq<Arg>, staged: seq<Staged>,
                           contents: seq<Bytes>, m: seq<Byte>)
    requires AllGood(args, descs) && AllSized(sent) && |sent| == |args|
  {
    var rs, ks := w.table.regions, LocalTensors(args, descs);
    && TensorsOf(AllRebuilt(rs, sent)) == ks
    && (forall i :: 0 <= i < |args| ==> sent[i].tag == args[i].tag)
    && forall j :: 0 <= j < |ks| ==>
         && Carried(sent[ks[j]], staged, contents, m, descs[args[ks[j]].desc])
         && NamesView(rs, sent[ks[j]], RebuiltAs(rs, sent[ks[j]]))
  }

  lemma TensorsAreCarried(w: State, args: seq<LocalArg>, descs: seq<Desc>, sent: seq<Arg>, staged: seq<Staged>,
                          contents: seq<Bytes>, m: seq<Byte>)
    requires AllGood(args, descs) && AllLocal(args, descs) && |sent| == |args| && AllSized(sent)
    requires forall i :: 0 <= i < |args| ==> CanRebuild(w.table.regions, sent[i])
    requires forall i :: 0 <= i < |args| ==> SentAs(args[i], sent[i], descs, staged, contents, m)
    ensures Received(w, args, descs, sent, staged, contents, m)
  {
    hide SentAs, Carried, IsTensor, IsLocal, GoodArg, TensorsOf, LocalTensors, CanRebuild, RebuiltAs, NamesView, Sized;
    forall i | 0 <= i < |args|
      ensures sent[i].tag == args[i].tag && (RebuiltAs(w.table.regions, sent[i]).Tensor? <==> IsTensor(args[i], descs))
      ensures IsTensor(args[i], descs) ==>
                && 0 <= args[i].desc < |descs| && Carried(sent[i], staged, contents, m, descs[args[i].desc])
                && NamesView(w.table.regions, sent[i], RebuiltAs(w.table.regions, sent[i]))
    {
      TensorIsCarried(w.table.regions, args[i], sent[i], descs, staged, contents, m);
    }
    SameTensors(w.table.regions, args, descs, sent);
  }

  // An element of a tensor, and the byte of a staged buffer that stands for it.
  lemma ElementStands(w0: State, w: State, staged: seq<Staged>, contents: seq<Bytes>, a: Arg, r: Rebuilt, m: seq<Byte>,
                      d: Desc, t: seq<int>, k: nat)
    returns (s: int)
    requires Sound(w) && StagedOk(w0, w, staged, contents) && Carried(a, staged, contents, m, d)
    requires Sized(a) && NamesView(w.table.regions, a, r)
    requires |d.sizes| == |d.strides| && InRange(t, d.sizes) && k < DtypeBytes(Elem(a.tag))
    ensures r.sizes == d.sizes && |r.strides| == |t|
    ensures Device.Stands(Hosts(staged), Remotes(w, staged), s, r.remote,
                          Device.PlaceByte(PlaceOf(r), DtypeBytes(Elem(a.tag)), t, k),
                          Staging.ElementByte(d, DtypeBytes(Elem(a.tag)), t, k))
  {
    hide Sound, Live, Orphans, Resident, RemoteAt, HostsOfStaged, Elem, AllI64, FitsIn, SameValues, Resolve;
    var j, at: nat :| 0 <= j < |staged| && j < |contents| && CarriedBy(a, staged[j], at, contents[j], m, d);
    assert IsCell(a.strides, at, HostsOfStaged(staged[j]), d, DtypeBytes(Elem(a.tag)), t, k);
    assert StagedAt(w0, w, staged[j], contents[j]);
    ResidentAddress(w, staged[j].handle, contents[j], at);
    s := j;
  }

  lemma ArgsMap(w0: State, w: State, args: seq<LocalArg>, descs: seq<Desc>, sent: seq<Arg>, staged: seq<Staged>,
                contents: seq<Bytes>, m: seq<Byte>, h: Launch)
    requires Sound(w) && StagedOk(w0, w, staged, contents) && |sent| == |args| && AllSized(sent)
    requires AllGood(args, descs) && GoodDescs(descs) && Received(w, args, descs, sent, staged, contents, m)
    requires h.args == AllRebuilt(w.table.regions, sent) && h.tags == TagsOf(sent)
    ensures IsLaunch(h) && SizesOf(h) == TensorSizes(args, descs)
    ensures Device.Maps(Hosts(staged), Remotes(w, staged), TensorDescs(args, descs), PlacesOf(h.args), SizesOf(h))
  {
    hide Sound, StagedOk, Carried, LocalTensors, TensorsOf, Device.Stands, Device.PlaceByte, Staging.ElementByte, Hosts;
    hide Remotes, Elem, DtypeBytes, GoodArg, RebuiltAs, NamesView, IsTensor;
    LaunchShaped(w.table.regions, sent, h);
    TensorsShaped(args, descs);
    var ds, ps, bs := TensorDescs(args, descs), PlacesOf(h.args), SizesOf(h);
    var ks := LocalTensors(args, descs);
    forall v | 0 <= v < |ds|
      ensures ps[v].sizes == ds[v].sizes && |ps[v].sizes| == |ps[v].strides|
    {
      assert Sized(sent[ks[v]]);
      CarriedShape(w.table.regions, sent[ks[v]], h.args[ks[v]], staged, contents, m, ds[v]);
    }
    forall v: nat, i, k: nat | Staging.Reaches(ds, bs, v, i, k)
      ensures exists s ::
              Device.Stands(Hosts(staged), Remotes(w, staged), s, ps[v].remote, Device.PlaceByte(ps[v], bs[v], i, k),
                                        Staging.ElementByte(ds[v], bs[v], i, k))
    {
      assert Sized(sent[ks[v]]);
      var s := ElementStands(w0, w, staged, contents, sent[ks[v]], h.args[ks[v]], m, ds[v], i, k);
    }
  }

  lemma LaunchShaped(rs: seq<Region>, sent: seq<Arg>, h: Launch)
    requires AllSized(sent) && h.args == AllRebuilt(rs, sent) && h.tags == TagsOf(sent)
    ensures IsLaunch(h)
  {
    hide Resolve, IsSlot, Kind, AllI64;
    forall i | 0 <= i < |h.args| && h.args[i].Tensor?
      ensures |h.args[i].sizes| == |h.args[i].strides|
    {
      assert Sized(sent[i]);
    }
  }

  lemma CarriedShape(rs: seq<Region>, a: Arg, r: Rebuilt, staged: seq<Staged>, contents: seq<Bytes>, m: seq<Byte>,
                     d: Desc)
    requires Carried(a, staged, contents, m, d) && Sized(a) && NamesView(rs, a, r)
    ensures r.sizes == d.sizes && |r.strides| == |r.sizes|
  {
    hide Resolve, SameCells, FitsIn, SameValues, AllI64;
    var j, at: nat :| 0 <= j < |staged| && j < |contents| && CarriedBy(a, staged[j], at, contents[j], m, d);
  }

  // ---- Bringing back ----

  // Staged, run and brought back, memory is what running in place leaves.
  lemma OffloadRight(w0: State, w: State, payload: Bytes, args: seq<LocalArg>, descs: seq<Desc>, sent: seq<Arg>,
                     staged: seq<Staged>, contents: seq<Bytes>, m: seq<Byte>, topology: int, plugin: Plugin,
                     kernel: Staging.Kernel, steps: nat, m': seq<Byte>)
    requires AllGood(args, descs) && GoodDescs(descs) && AllLocal(args, descs)
    requires SentRight(w0, w, payload, args, descs, sent, staged, contents, m) && WellBehaved(plugin)
    requires Completed(w, topology, Dispatch(payload, sent), plugin) && Executes(plugin, kernel, steps)
    requires BroughtBack(m, m', staged, |staged|, Dispatched(w, topology, Dispatch(payload, sent), plugin))
    ensures Staging.Shaped(TensorDescs(args, descs), TensorSizes(args, descs))
    ensures m' == Staging.Run(kernel, TensorDescs(args, descs), TensorSizes(args, descs), m, [], steps).memory
  {
    hide Sound, StagedOk, Imaged, SentAs, Completed, Dispatched, DispatchReply, Behaves, NameOutputs, Ran, CanRun;
    hide BroughtBack, Executes, Sendable, AllSized, AllReadSame, StagedSince, AllHome, AllLocal, GoodArg, GoodDescs;
    hide TensorsOf, LocalTensors, Staging.Run, Device.DeviceRun, Device.Mirrored, Device.Images, Device.Apart;
    hide Staging.Shaped, Device.Placed, Device.Maps, Hosts, Remotes, WellBehaved, Received, IsLaunch, CanRebuild;
    var d := Dispatch(payload, sent);
    CompletedRan(w, topology, d, plugin);
    var h := Handed(w, d, topology);
    TensorsAreCarried(w, args, descs, sent, staged, contents, m);
    ArgsMap(w0, w, args, descs, sent, staged, contents, m, h);
    StagedApart(w0, w, staged, contents, |m|);
    StagedImagesAt(w0, w, staged, contents, m);
    TensorsShaped(args, descs);
    var ds, ps, bs := TensorDescs(args, descs), PlacesOf(h.args), SizesOf(h);
    Device.DeviceMirrors(kernel, ds, ps, bs, Hosts(staged), Remotes(w, staged), m, w.heap, [], steps);
    BroughtIsMirror(w0, w, payload, sent, staged, contents, m, topology, plugin, kernel, steps, m',
                    Staging.Run(kernel, ds, bs, m, [], steps));
  }

  lemma CompletedRan(w: State, topology: int, d: Dispatch, plugin: Plugin)
    requires Completed(w, topology, d, plugin)
    ensures CanRun(w, topology, d, plugin)
    ensures forall i :: 0 <= i < |d.args| ==> CanRebuild(w.table.regions, d.args[i])
  {}

  lemma BroughtIsMirror(w0: State, w: State, payload: Bytes, sent: seq<Arg>, staged: seq<Staged>, contents: seq<Bytes>,
                        m: seq<Byte>, topology: int, plugin: Plugin, kernel: Staging.Kernel, steps: nat, m': seq<Byte>,
                        r: Staging.Result)
    requires Sound(w) && |w.table.next| == 256 && StagedOk(w0, w, staged, contents) && AllHome(staged, |m|)
    requires WellBehaved(plugin)
    requires AllSized(sent) && Completed(w, topology, Dispatch(payload, sent), plugin)
    requires Executes(plugin, kernel, steps)
    requires BroughtBack(m, m', staged, |staged|, Dispatched(w, topology, Dispatch(payload, sent), plugin))
    requires IsLaunch(Handed(w, Dispatch(payload, sent), topology))
    requires Device.Mirrored(Hosts(staged), Remotes(w, staged), m, r,
                             OnWorker(kernel, w, Handed(w, Dispatch(payload, sent), topology), steps))
    ensures m' == r.memory
  {
    hide Sound, StagedOk, DispatchReply, Dispatched, Behaves, NameOutputs, Ran, CanRun, Executes, HostsOfStaged;
    hide OnWorker, Fetched, RemoteAt, WellBehaved, Home;
    var d := Dispatch(payload, sent);
    ResultForEach(w, topology, d, plugin);
    var h := Handed(w, d, topology);
    var e := plugin(w, h);
    PluginExecuted(plugin, kernel, steps, w, h);
    var q := OnWorker(kernel, w, h, steps);
    forall x | 0 <= x < |m|
      ensures m'[x] == r.memory[x]
    {
      if InStaged(staged, |staged|, x) {
        var k :| 0 <= k < |staged| && staged[k].bytes != 0 && x in HostsOfStaged(staged[k]);
        FetchedBuffer(w0, w, staged, contents, e.dtype, e, k);
        assert Device.ImageAt(Hosts(staged)[k], Remotes(w, staged)[k], r.memory, q.heap);
        BroughtByte(m', staged, w, Dispatched(w, topology, d, plugin), e, q, r, k, x);
      } else {
        NotStood(staged, x);
      }
    }
  }

  lemma PluginExecuted(plugin: Plugin, kernel: Staging.Kernel, steps: nat, w: State, h: Launch)
    requires Executes(plugin, kernel, steps) && IsLaunch(h) && plugin(w, h).Runs?
    ensures Executed(plugin(w, h).heap, OnWorker(kernel, w, h, steps).heap, w.heap)
  {}

  lemma BroughtByte(m': seq<Byte>, staged: seq<Staged>, w: State, w2: State, e: Effect, q: Device.DeviceResult,
                    r: Staging.Result, k: nat, x: int)
    requires e.Runs? && k < |staged| && staged[k].bytes != 0 && Home(staged[k], |m'|) && x in HostsOfStaged(staged[k])
    requires BroughtOne(m', staged[k], w2) && Executed(e.heap, q.heap, w.heap)
    requires RemoteAt(w, staged[k].handle) in w.heap
    requires Fetched(w2, staged[k].handle, staged[k].bytes) == e.heap[RemoteAt(w, staged[k].handle)]
    requires Device.ImageAt(HostsOfStaged(staged[k]), RemoteAt(w, staged[k].handle), r.memory, q.heap)
    ensures 0 <= x < |m'| && x < |r.memory| && m'[x] == r.memory[x]
  {
    hide HostsOfStaged, Fetched, RemoteAt;
    var c :| 0 <= c < |HostsOfStaged(staged[k])| && HostsOfStaged(staged[k])[c] == x;
  }

  lemma NotStood(staged: seq<Staged>, x: int)
    requires !InStaged(staged, |staged|, x)
    ensures !Device.Stood(Hosts(staged), x)
  {
    if Device.Stood(Hosts(staged), x) {
      var s, c :| 0 <= s < |Hosts(staged)| && 0 <= c < |Hosts(staged)[s]| && Hosts(staged)[s][c] == x;
      NoHostsIf(staged[s]);
    }
  }

  // A call whose tensors are all in local memory, run on a worker whose plugin runs `kernel` and read
  // back whole: memory ends as if `kernel` had run here.
  method RunRemotely(fd: Link, mem: array<Byte>, payload: Bytes, args: seq<LocalArg>, descs: seq<Desc>,
                     outers: array<Desc>, scratch: nat, ghost kernel: Staging.Kernel, ghost steps: nat)
    returns (served: bool)
    requires fd.Valid() && fd.Quiet() && AllGood(args, descs) && Mapped(args, descs, mem.Length) && mem.Length < TWO_63
    requires Countable(payload, |args|)
    requires forall i :: 0 <= i < |args| && IsSlot(args[i].tag) ==> args[i].outer < outers.Length
    requires GoodDescs(descs) && AllLocal(args, descs) && Executes(fd.kernel, kernel, steps)
    modifies fd.Parts(), mem, outers
    ensures fd.Valid() && fd.Quiet() && (!served ==> mem[..] == old(mem[..]))
    ensures Staging.Shaped(TensorDescs(args, descs), TensorSizes(args, descs))
    ensures served ==>
              var r := Staging.Run(kernel, TensorDescs(args, descs), TensorSizes(args, descs), old(mem[..]), [], steps);
              mem[..] == r.memory
  {
    hide Sound, WellBehaved, Transport.Benign, AllLocal, Executes, Mapped, AllGood, GoodDescs, LocalTensors, SentRight;
    hide LeftRight, ApplyAll, SlotsOf, HasOuters, Completed, Dispatched, DispatchReply, BroughtBack, Staging.Run;
    hide Staging.Shaped, DispatchBytes, Sendable;
    ghost var w0, m := fd.Now(), mem[..];
    var end, results;
    ghost var sent, staged, contents, before, ran;
    TensorsShaped(args, descs);
    end, results, sent, staged, contents, before, ran :=
      RemoteDispatch(fd, mem, payload, args, descs, outers, FetchAll, scratch);
    served := end.Served?;
    if served {
      OffloadRight(w0, before, payload, args, descs, sent, staged, contents, m, fd.worker.topology, fd.kernel, kernel,
                   steps, mem[..]);
    }
  }
}
