// The worker process: what its serve loop does for each request (runtime/vx_worker_main.cpp).
module Serving {
  import opened Options
  import opened Abi
  import opened Wire
  import opened Handles
  import opened Worker
  import opened Agent
  import Retarget

  // ---- DISPATCH ----

  // What a kernel publishes in an empty slot: a new device buffer and its shape.
  datatype Output = Output(remote: nat, sizes: seq<int>, bytes: nat)

  // What the plugin does with a dispatch: it has no route for it, or it runs. A run
  // changes device memory, and each empty slot gets an output or is left empty.
  datatype Effect = Declines | Runs(dtype: int, heap: map<nat, Bytes>, outputs: seq<Option<Output>>)

  // What the plugin is called with: the payload, the tag of each argument, and the argument.
  datatype Launch = Launch(payload: Bytes, tags: seq<nat>, args: seq<Rebuilt>)

  // What the plugin does with a launch, whatever the worker holds.
  type Plugin = (State, Launch) -> Effect

  // A slot that arrives empty is storage for the kernel to publish into.
  predicate IsEmptySlot(a: Arg) {
    IsSlot(a.tag) && a.handle == 0
  }

  // The places of the empty slots, in order.
  function SlotsOf(args: seq<Arg>): (ks: seq<nat>)
    ensures forall j :: 0 <= j < |ks| ==> ks[j] < |args| && IsEmptySlot(args[ks[j]])
  {
    if |args| == 0 then []
    else SlotsOf(args[..|args| - 1]) + if IsEmptySlot(args[|args| - 1]) then [|args| - 1] else []
  }

  // There is an output for each empty slot, of the slot's rank.
  ghost predicate Fills(args: seq<Arg>, e: Effect) {
    e.Runs? ==>
      && |e.outputs| == |SlotsOf(args)|
      && forall j :: 0 <= j < |e.outputs| && e.outputs[j].Some? ==>
           |e.outputs[j].value.sizes| == Rank(args[SlotsOf(args)[j]].tag) && AllI64(e.outputs[j].value.sizes)
  }

  // The places of the empty slots of a launch, in order.
  function EmptiesOf(args: seq<Rebuilt>): (ks: seq<nat>)
    ensures forall j :: 0 <= j < |ks| ==> ks[j] < |args|
  {
    if |args| == 0 then []
    else EmptiesOf(args[..|args| - 1]) + if args[|args| - 1].EmptySlot? then [|args| - 1] else []
  }

  // The same for a launch.
  ghost predicate FillsLaunch(h: Launch, e: Effect)
    requires |h.tags| == |h.args|
  {
    e.Runs? ==>
      && |e.outputs| == |EmptiesOf(h.args)|
      && forall j :: 0 <= j < |e.outputs| && e.outputs[j].Some? ==>
           |e.outputs[j].value.sizes| == Rank(h.tags[EmptiesOf(h.args)[j]]) && AllI64(e.outputs[j].value.sizes)
  }

  ghost predicate WellBehaved(kernel: Plugin) {
    forall w, h: Launch :: |h.tags| == |h.args| ==> Behaves(w, kernel(w, h)) && FillsLaunch(h, kernel(w, h))
  }

  predicate IsOutput(outputs: seq<Option<Output>>, p: nat) {
    exists i :: 0 <= i < |outputs| && outputs[i].Some? && outputs[i].value.remote == p
  }

  // A kernel keeps the buffers there are, and adds a new one for each output.
  ghost predicate Behaves(w: State, e: Effect) {
    e.Runs? ==>
      && (forall p :: p in w.heap ==> p in e.heap && |e.heap[p]| == |w.heap[p]|)
      && (forall p :: p in e.heap ==> p in w.heap || IsOutput(e.outputs, p))
      && (forall i :: 0 <= i < |e.outputs| && e.outputs[i].Some? ==> NewBuffer(w, e, e.outputs[i].value))
      && (forall i, j :: 0 <= i < j < |e.outputs| && e.outputs[i].Some? && e.outputs[j].Some? ==>
            e.outputs[i].value.remote != e.outputs[j].value.remote)
  }

  predicate NewBuffer(w: State, e: Effect, o: Output)
    requires e.Runs?
  {
    o.remote !in w.heap && o.remote in e.heap && |e.heap[o.remote]| == o.bytes
  }

  // The table after naming the outputs in order, up to one that cannot be named.
  datatype Named = Named(table: Table, results: seq<Result>, ok: bool)

  function NameOutputs(t: Table, id: nat, dtype: int, outputs: seq<Option<Output>>): (n: Named)
    requires |t.next| == 256
    ensures |n.table.next| == 256 && |n.results| <= |outputs|
    ensures n.ok ==> |n.results| == |outputs|
  {
    if |outputs| == 0 then Named(t, [], true)
    else
      var front := NameOutputs(t, id, dtype, outputs[..|outputs| - 1]);
      var o := outputs[|outputs| - 1];
      if !front.ok || o.None? || !HasRoom(front.table, id, o.value.bytes) then front.(ok := false)
      else
        Named(Allocated(front.table, id, o.value.bytes, dtype, o.value.remote),
              front.results + [Result(Addr(id, front.table.next[id]), o.value.sizes)], true)
  }

  // The state after a dispatch that the plugin ran.
  function Ran(w: State, dtype: int, e: Effect): State
    requires |w.table.next| == 256 && e.Runs?
  {
    State(NameOutputs(w.table, w.id, dtype, e.outputs).table, e.heap, w.id)
  }

  // The kernel's memory, before any output has a name.
  lemma RunSound(w: State, e: Effect)
    requires Sound(w) && Behaves(w, e) && e.Runs?
    ensures Sound(State(w.table, e.heap, w.id))
  {
    hide Inv;
    var w' := State(w.table, e.heap, w.id);
    forall i | 0 <= i < |w'.table.regions|
      ensures Backed(w', i)
    {
      assert Backed(w, i);
    }
  }

  function HandlesOf(results: seq<Result>): set<nat> {
    set i | 0 <= i < |results| :: results[i].handle
  }

  // A buffer that was there before the kernel, or one of its first `k` outputs.
  predicate Known(w: State, e: Effect, k: nat, p: nat)
    requires e.Runs? && k <= |e.outputs|
  {
    p in w.heap || IsOutput(e.outputs[..k], p)
  }

  // The table after the first `k` outputs, and the handles they got.
  ghost predicate NamedRight(w: State, e: Effect, k: nat, n: Named)
    requires e.Runs? && k <= |e.outputs|
  {
    && Sound(State(n.table, e.heap, w.id))
    && (forall i :: 0 <= i < |n.table.regions| && n.table.regions[i].live ==> Known(w, e, k, n.table.regions[i].remote))
    && Live(n.table) == Live(w.table) + HandlesOf(n.results)
    && NewHandles(w, n.results)
  }

  // The handles are new, and no two are the same.
  ghost predicate NewHandles(w: State, results: seq<Result>) {
    && (forall i :: 0 <= i < |results| ==> results[i].handle !in Live(w.table))
    && (forall i, j :: 0 <= i < j < |results| ==> results[i].handle != results[j].handle)
  }

  // Naming a buffer that no live region has.
  lemma NameSound(w: State, size: nat, dtype: int, p: nat)
    requires Sound(w) && p in w.heap && |w.heap[p]| == size && HasRoom(w.table, w.id, size)
    requires forall i :: 0 <= i < |w.table.regions| && w.table.regions[i].live ==> w.table.regions[i].remote != p
    ensures Sound(State(Allocated(w.table, w.id, size, dtype, p), w.heap, w.id))
  {
    var w' := State(Allocated(w.table, w.id, size, dtype, p), w.heap, w.id);
    InTurn(w, size, dtype, p);
    InvStep(w.table, Alloc(w.id, size, dtype, p));
    hide Inv, HasRoom, Addr;
    forall i | 0 <= i < |w'.table.regions|
      ensures Backed(w', i)
    {
      if i < |w.table.regions| {
        assert Backed(w, i);
      }
    }
  }

  lemma NameLive(w: State, size: nat, dtype: int, p: nat)
    requires Sound(w) && HasRoom(w.table, w.id, size)
    ensures Live(Allocated(w.table, w.id, size, dtype, p)) == Live(w.table) + {Addr(w.id, w.table.next[w.id])}
    ensures Addr(w.id, w.table.next[w.id]) !in Live(w.table)
  {
    var zeros := seq(size, i => 0);
    var dev := Some(p);
    assert StoredAt(w, zeros, dev) == Addr(w.id, w.table.next[w.id]);
    StoredLive(w, zeros, dtype, dev);
  }

  lemma {:induction false} OutputsNamed(w: State, dtype: int, e: Effect, k: nat)
    requires Sound(w) && Behaves(w, e) && e.Runs? && k <= |e.outputs|
    ensures NamedRight(w, e, k, NameOutputs(w.table, w.id, dtype, e.outputs[..k]))
  {
    if k == 0 {
      RunSound(w, e);
      NoneNamed(w, e);
    } else {
      OutputsNamed(w, dtype, e, k - 1);
      assert e.outputs[..k][..k - 1] == e.outputs[..k - 1];
      hide NameOutputs, NamedRight, Behaves, Sound;
      OutputNamed(w, dtype, e, k);
    }
  }

  lemma NoneNamed(w: State, e: Effect)
    requires Sound(w) && e.Runs? && Sound(State(w.table, e.heap, w.id))
    ensures NamedRight(w, e, 0, Named(w.table, [], true))
  {
    hide Inv;
    forall i | 0 <= i < |w.table.regions| && w.table.regions[i].live
      ensures w.table.regions[i].remote in w.heap
    {
      assert Backed(w, i);
    }
  }

  lemma OutputNamed(w: State, dtype: int, e: Effect, k: nat)
    requires Sound(w) && Behaves(w, e) && e.Runs? && 0 < k <= |e.outputs|
    requires NamedRight(w, e, k - 1, NameOutputs(w.table, w.id, dtype, e.outputs[..k - 1]))
    ensures NamedRight(w, e, k, NameOutputs(w.table, w.id, dtype, e.outputs[..k]))
  {
    hide Inv, HasRoom, Addr;
    var front := NameOutputs(w.table, w.id, dtype, e.outputs[..k - 1]);
    var n := NameOutputs(w.table, w.id, dtype, e.outputs[..k]);
    var o := e.outputs[k - 1];
    assert e.outputs[..k][..k - 1] == e.outputs[..k - 1];
    KnownGrows(w, e, k);
    if front.ok && o.Some? && HasRoom(front.table, w.id, o.value.bytes) {
      OutputIsNew(w, e, k, front);
      NameSound(State(front.table, e.heap, w.id), o.value.bytes, dtype, o.value.remote);
      NameLive(State(front.table, e.heap, w.id), o.value.bytes, dtype, o.value.remote);
      MoreHandles(w, front, n);
      assert IsOutput(e.outputs[..k], o.value.remote) by { assert e.outputs[..k][k - 1] == o; }
    }
  }

  lemma KnownGrows(w: State, e: Effect, k: nat)
    requires e.Runs? && 0 < k <= |e.outputs|
    ensures forall p :: Known(w, e, k - 1, p) ==> Known(w, e, k, p)
  {
    forall p | IsOutput(e.outputs[..k - 1], p)
      ensures IsOutput(e.outputs[..k], p)
    {
      var i :| 0 <= i < k - 1 && e.outputs[..k - 1][i].Some? && e.outputs[..k - 1][i].value.remote == p;
      assert e.outputs[..k][i] == e.outputs[..k - 1][i];
    }
  }

  // The next output is in no live region yet.
  lemma OutputIsNew(w: State, e: Effect, k: nat, n: Named)
    requires Behaves(w, e) && e.Runs? && 0 < k <= |e.outputs| && e.outputs[k - 1].Some? && NamedRight(w, e, k - 1, n)
    ensures var o := e.outputs[k - 1].value;
            && o.remote in e.heap && |e.heap[o.remote]| == o.bytes
            && forall i :: 0 <= i < |n.table.regions| && n.table.regions[i].live ==>
                 n.table.regions[i].remote != o.remote
  {
    var o := e.outputs[k - 1].value;
    assert NewBuffer(w, e, o);
    assert !Known(w, e, k - 1, o.remote);
  }

  // One more handle.
  lemma MoreHandles(w: State, front: Named, n: Named)
    requires Live(front.table) == Live(w.table) + HandlesOf(front.results) && NewHandles(w, front.results)
    requires |n.results| == |front.results| + 1 && n.results[..|front.results|] == front.results
    requires n.results[|front.results|].handle !in Live(front.table)
    requires Live(n.table) == Live(front.table) + {n.results[|front.results|].handle}
    ensures Live(n.table) == Live(w.table) + HandlesOf(n.results) && NewHandles(w, n.results)
  {
    var k := |front.results|;
    forall i | 0 <= i < k
      ensures n.results[i] == front.results[i] && n.results[i].handle in HandlesOf(front.results)
    {
      assert n.results[..k][i] == front.results[i];
    }
    assert HandlesOf(n.results) == HandlesOf(front.results) + {n.results[k].handle};
  }

  // After a run every state is sound, and the live regions are the earlier ones and
  // one for each handle in the reply. Device memory gains exactly the outputs.
  lemma RanRight(w: State, dtype: int, e: Effect)
    requires Sound(w) && Behaves(w, e) && e.Runs?
    ensures var n := NameOutputs(w.table, w.id, dtype, e.outputs);
            && Sound(Ran(w, dtype, e)) && Live(Ran(w, dtype, e).table) == Live(w.table) + HandlesOf(n.results)
            && NewHandles(w, n.results)
  {
    OutputsNamed(w, dtype, e, |e.outputs|);
    assert e.outputs[..|e.outputs|] == e.outputs;
  }

  // Each region that was named is the output of its place.
  lemma {:induction false} NamedRegions(t: Table, id: nat, dtype: int, outputs: seq<Option<Output>>, j: nat)
    requires |t.next| == 256 && NameOutputs(t, id, dtype, outputs).ok && j < |outputs|
    ensures var n := NameOutputs(t, id, dtype, outputs);
            && |n.table.regions| == |t.regions| + |outputs| && outputs[j].Some?
            && n.results[j].sizes == outputs[j].value.sizes
            && n.table.regions[|t.regions| + j] ==
               Region(n.results[j].handle, outputs[j].value.bytes, id, dtype, outputs[j].value.remote, true)
  {
    hide HasRoom, Addr, Gap;
    var k := |outputs| - 1;
    if k > 0 {
      NamedRegions(t, id, dtype, outputs[..k], if j < k then j else 0);
    } else {
      assert outputs[..k] == [];
    }
  }

  // The handle of result `j` holds what the kernel published in slot `j`, in the shape of the result.
  lemma ResultsHold(w: State, dtype: int, e: Effect, j: nat)
    requires Sound(w) && Behaves(w, e) && e.Runs? && NameOutputs(w.table, w.id, dtype, e.outputs).ok
    requires j < |e.outputs|
    ensures var n := NameOutputs(w.table, w.id, dtype, e.outputs);
            && e.outputs[j].Some? && n.results[j].sizes == e.outputs[j].value.sizes
            && e.outputs[j].value.remote in e.heap
            && Resident(Ran(w, dtype, e), n.results[j].handle, e.heap[e.outputs[j].value.remote])
  {
    hide NameOutputs, Inv, Backed;
    NamedRegions(w.table, w.id, dtype, e.outputs, j);
    assert NewBuffer(w, e, e.outputs[j].value);
    var n := NameOutputs(w.table, w.id, dtype, e.outputs);
    assert ResidentAt(Ran(w, dtype, e), |w.table.regions| + j, n.results[j].handle, e.heap[e.outputs[j].value.remote]);
  }

  // When every output got a handle, no device buffer is without a region that was not before.
  lemma RanOrphans(w: State, dtype: int, e: Effect)
    requires Sound(w) && Behaves(w, e) && e.Runs? && NameOutputs(w.table, w.id, dtype, e.outputs).ok
    ensures Orphans(Ran(w, dtype, e)) == Orphans(w)
  {
    var n := NameOutputs(w.table, w.id, dtype, e.outputs);
    assert e.outputs[..|e.outputs|] == e.outputs;
    NamedRemotes(w, dtype, e, |e.outputs|);
    hide NameOutputs, Inv;
    forall p
      ensures p in e.heap && !HasRemote(n.table.regions, |n.table.regions|, p)
         <==> p in w.heap && !HasRemote(w.table.regions, |w.table.regions|, p)
    {
      if IsOutput(e.outputs, p) {
        var i :| 0 <= i < |e.outputs| && e.outputs[i].Some? && e.outputs[i].value.remote == p;
        assert NewBuffer(w, e, e.outputs[i].value);
      }
    }
  }

  lemma {:induction false} NamedRemotes(w: State, dtype: int, e: Effect, k: nat)
    requires Sound(w) && e.Runs? && k <= |e.outputs| && NameOutputs(w.table, w.id, dtype, e.outputs[..k]).ok
    ensures var rs := NameOutputs(w.table, w.id, dtype, e.outputs[..k]).table.regions;
            forall p :: HasRemote(rs, |rs|, p)
              <==> HasRemote(w.table.regions, |w.table.regions|, p) || IsOutput(e.outputs[..k], p)
  {
    if k > 0 {
      hide Inv, HasRoom, Addr, HasRemote, IsOutput, Sound;
      assert e.outputs[..k][..k - 1] == e.outputs[..k - 1];
      NamedRemotes(w, dtype, e, k - 1);
      var front := NameOutputs(w.table, w.id, dtype, e.outputs[..k - 1]).table.regions;
      var rs := NameOutputs(w.table, w.id, dtype, e.outputs[..k]).table.regions;
      forall p
        ensures HasRemote(rs, |rs|, p) <==> HasRemote(front, |front|, p) || p == e.outputs[k - 1].value.remote
        ensures IsOutput(e.outputs[..k], p) <==> IsOutput(e.outputs[..k - 1], p) || p == e.outputs[k - 1].value.remote
      {
        OneMoreRemote(front, rs[|front|], p);
        OneMoreOutput(e.outputs[..k - 1], e.outputs[k - 1], p);
        assert rs == front + [rs[|front|]] && e.outputs[..k] == e.outputs[..k - 1] + [e.outputs[k - 1]];
      }
    }
  }

  lemma OneMoreRemote(front: seq<Region>, r: Region, p: nat)
    requires r.live
    ensures var rs := front + [r]; HasRemote(rs, |rs|, p) <==> HasRemote(front, |front|, p) || p == r.remote
  {
    var rs := front + [r];
    assert rs[|front|] == r;
    if HasRemote(front, |front|, p) {
      var i :| 0 <= i < |front| && front[i].live && front[i].remote == p;
      assert rs[i] == front[i];
    }
  }

  lemma OneMoreOutput(front: seq<Option<Output>>, o: Option<Output>, p: nat)
    requires o.Some?
    ensures IsOutput(front + [o], p) <==> IsOutput(front, p) || p == o.value.remote
  {
    var all := front + [o];
    assert all[|front|] == o;
    if IsOutput(front, p) {
      var i :| 0 <= i < |front| && front[i].Some? && front[i].value.remote == p;
      assert all[i] == front[i];
    }
  }

  // ---- The process ----

  // What a transfer may leave: nothing new and handle 0, or the bytes at a new handle.
  ghost predicate TransferDone(w: State, bytes: Bytes, dtype: int, w': State, handle: nat)
    requires |w.table.next| == 256
  {
    exists dev :: Unused(w, dev) && w' == Stored(w, bytes, dtype, dev) && handle == StoredAt(w, bytes, dev)
  }

  // What the plugin is handed for a dispatch.
  ghost function Handed(w: State, d: Dispatch, topology: int): (h: Launch)
    ensures |h.tags| == |h.args| == |d.args|
  {
    var payload := Retarget.Retargeted(d.payload, topology);
    Launch(if payload.Some? then payload.value else d.payload, TagsOf(d.args), AllRebuilt(w.table.regions, d.args))
  }

  function TagsOf(args: seq<Arg>): seq<nat> {
    seq(|args|, i requires 0 <= i < |args| => args[i].tag)
  }

  function AllRebuilt(rs: seq<Region>, args: seq<Arg>): seq<Rebuilt> {
    seq(|args|, i requires 0 <= i < |args| => RebuiltAs(rs, args[i]))
  }

  // The launch is for this dispatch on this device: the payload names the device, and every argument
  // has its tag and is what it must become.
  ghost predicate LaunchRight(w: State, d: Dispatch, topology: int, h: Launch)
    requires AllSized(d.args)
  {
    && Retarget.NamesDevice(d.payload, topology, h.payload) && |h.tags| == |h.args| == |d.args|
    && forall i :: 0 <= i < |d.args| ==> h.tags[i] == d.args[i].tag && Rebuilds(w.table.regions, d.args[i], h.args[i])
  }

  // What the plugin is handed in a dispatch that can run is right.
  lemma HandedRight(w: State, d: Dispatch, topology: int)
    requires AllSized(d.args) && IsI32(topology) && Retarget.Retargeted(d.payload, topology).Some?
    requires forall i :: 0 <= i < |d.args| ==> CanRebuild(w.table.regions, d.args[i])
    ensures LaunchRight(w, d, topology, Handed(w, d, topology))
  {
    hide Rebuilds, Sized, Retarget.NamesDevice, Retarget.Retargeted;
    Retarget.RewriteRight(d.payload, topology);
    forall i | 0 <= i < |d.args|
      ensures Rebuilds(w.table.regions, d.args[i], Handed(w, d, topology).args[i])
    {
      assert CanRebuild(w.table.regions, d.args[i]);
      var r :| Rebuilds(w.table.regions, d.args[i], r);
      RebuiltOnce(w.table.regions, d.args[i], r);
    }
  }

  // Two plugins that do the same with every launch that is right.
  ghost predicate Agree(w: State, d: Dispatch, topology: int, a: Plugin, b: Plugin)
    requires AllSized(d.args)
  {
    forall h :: LaunchRight(w, d, topology, h) ==> a(w, h) == b(w, h)
  }

  // So a dispatch depends only on what the plugin does with such launches.
  lemma AgreeingPlugins(w: State, d: Dispatch, topology: int, a: Plugin, b: Plugin)
    requires AllSized(d.args) && |w.table.next| == 256 && IsI32(topology) && Agree(w, d, topology, a, b)
    ensures Dispatched(w, topology, d, a) == Dispatched(w, topology, d, b)
    ensures DispatchReply(w, topology, d, a) == DispatchReply(w, topology, d, b)
  {
    hide LaunchRight, Handed, NameOutputs, Ran;
    if CanRun(w, topology, d, a) || CanRun(w, topology, d, b) {
      HandedRight(w, d, topology);
    }
  }

  // The empty slots of the launch are those of the dispatch.
  lemma {:induction false} SameEmpties(rs: seq<Region>, args: seq<Arg>)
    requires AllSized(args) && forall i :: 0 <= i < |args| ==> CanRebuild(rs, args[i])
    ensures EmptiesOf(AllRebuilt(rs, args)) == SlotsOf(args)
  {
    if |args| > 0 {
      var n := |args| - 1;
      SameEmpties(rs, args[..n]);
      assert AllRebuilt(rs, args)[..n] == AllRebuilt(rs, args[..n]);
      assert CanRebuild(rs, args[n]);
      var r :| Rebuilds(rs, args[n], r);
      RebuiltOnce(rs, args[n], r);
    }
  }

  // What a plugin does that keeps its promises.
  lemma PluginFills(w: State, topology: int, d: Dispatch, kernel: Plugin)
    requires AllSized(d.args) && WellBehaved(kernel)
    requires forall i :: 0 <= i < |d.args| ==> CanRebuild(w.table.regions, d.args[i])
    ensures Behaves(w, kernel(w, Handed(w, d, topology))) && Fills(d.args, kernel(w, Handed(w, d, topology)))
  {
    hide CanRebuild, Behaves, EmptiesOf, SlotsOf, Sized, RebuiltAs;
    SameEmpties(w.table.regions, d.args);
    var h := Handed(w, d, topology);
    assert FillsLaunch(h, kernel(w, h));
  }

  // There is room for the arguments, every one can be rebuilt, the payload can name the worker's
  // device, and the plugin has a route.
  ghost predicate CanRun(w: State, topology: int, d: Dispatch, kernel: Plugin)
    requires AllSized(d.args)
  {
    && |d.args| <= MAX_ARGS && (forall i :: 0 <= i < |d.args| ==> CanRebuild(w.table.regions, d.args[i]))
    && Retarget.Retargeted(d.payload, topology).Some? && kernel(w, Handed(w, d, topology)).Runs?
  }

  // What a dispatch does to the worker, and what it answers.
  ghost function Dispatched(w: State, topology: int, d: Dispatch, kernel: Plugin): State
    requires AllSized(d.args) && |w.table.next| == 256
  {
    if CanRun(w, topology, d, kernel) then
      Ran(w, kernel(w, Handed(w, d, topology)).dtype, kernel(w, Handed(w, d, topology)))
    else w
  }

  ghost function DispatchReply(w: State, topology: int, d: Dispatch, kernel: Plugin): (r: Reply)
    requires AllSized(d.args) && |w.table.next| == 256
    ensures r.status == 0 || (r.status == -1 && r.results == [])
  {
    if CanRun(w, topology, d, kernel) then
      var e := kernel(w, Handed(w, d, topology));
      var n := NameOutputs(w.table, w.id, e.dtype, e.outputs);
      if n.ok then Reply(0, n.results) else Reply(-1, [])
    else Reply(-1, [])
  }

  lemma AllOnce(rs: seq<Region>, args: seq<Arg>, out: seq<Rebuilt>)
    requires AllSized(args) && |out| == |args| && forall i :: 0 <= i < |args| ==> Rebuilds(rs, args[i], out[i])
    ensures out == AllRebuilt(rs, args)
  {
    hide Rebuilds, RebuiltAs, Sized;
    forall i | 0 <= i < |args|
      ensures out[i] == RebuiltAs(rs, args[i])
    {
      RebuiltOnce(rs, args[i], out[i]);
    }
  }

  const BODY_MAX: nat := 0x400_0000

  class WorkerProcess {
    const table: RegionTable
    const id: nat
    const topology: int
    var heap: map<nat, Bytes>
    var offers: seq<Option<nat>>   // what the device allocator will answer
    ghost var refused: nat         // how many transfers got no handle

    ghost predicate Valid()
      reads this, table, table.regions, table.nextOffset
    {
      table.Valid() && Sound(Now()) && IsI32(topology)
    }

    ghost function Now(): State
      requires table.Valid()
      reads this, table, table.regions, table.nextOffset
    {
      State(table.Contents(), heap, id)
    }

    constructor (t: RegionTable, worker: nat, device: int, answers: seq<Option<nat>>)
      requires t.Valid() && t.Contents() == Start(t.regions.Length) && 1 <= worker <= WORKER_MAX && IsI32(device)
      ensures Valid() && table == t && id == worker && topology == device
      ensures Now() == State(Start(t.regions.Length), map[], worker)
    {
      table, id, topology, heap, offers, refused := t, worker, device, map[], answers, 0;
      new;
      StartInv(t.regions.Length);
    }

    // The state a kernel runs in.
    method Snapshot() returns (w: State)
      requires Valid()
      ensures w == Now()
    {
      w := State(Table(table.regions[..table.count], table.regions.Length, table.nextOffset[..]), heap, id);
    }

    // The device allocator has memory to give.
    predicate Offering()
      reads this
    {
      |offers| > 0 && offers[0].Some? && offers[0].value !in heap
    }

    // The device allocator: memory that is not in use, or nothing.
    method DeviceAlloc() returns (dev: Option<nat>)
      requires Valid()
      modifies `offers
      ensures Unused(Now(), dev) && (old(Offering()) ==> dev.Some?)
    {
      dev := None;
      if |offers| > 0 {
        if offers[0].Some? && offers[0].value !in heap {
          dev := offers[0];
        }
        offers := offers[1..];
      }
    }

    // serve_transfer
    method ServeTransfer(bytes: Bytes, dtype: int) returns (handle: nat)
      requires Valid()
      modifies this, table, table.regions, table.nextOffset
      ensures Valid() && TransferDone(old(Now()), bytes, dtype, Now(), handle)
      ensures old(Offering()) && HasRoom(old(Now()).table, id, |bytes|) ==> handle != 0
      ensures refused == old(refused) + if handle == 0 then 1 else 0
    {
      hide Sound, HasRoom, Addr, Inv, Placed;
      ghost var w := Now();
      var dev := DeviceAlloc();
      assert Now() == w;
      StoredSound(w, bytes, dtype, dev);
      if dev.None? {
        assert Stored(w, bytes, dtype, dev) == w;
        refused := refused + 1;
        return 0;
      }
      SoundParts(w);
      handle := table.TableAlloc(id, |bytes|, dtype, dev.value);
      HandleOrNot(w, |bytes|);
      if handle != 0 {
        heap := heap[dev.value := bytes];
      } else {
        refused := refused + 1;
      }
      assert Now() == Stored(w, bytes, dtype, dev) && handle == StoredAt(w, bytes, dev);
    }

    // The FETCH case of serve
    method ServeFetch(handle: nat, n: nat) returns (b: Bytes)
      requires Valid()
      ensures b == Fetched(Now(), handle, n)
    {
      hide Resolve, Inv;
      var ref := table.TableResolve(handle);
      if ref.Nowhere? {
        return [];
      }
      var r := table.regions[ref.index];
      if n > r.size - ref.offset || n > REPLY_MAX {
        return [];
      }
      assert Backed(Now(), ref.index);
      b := heap[r.remote][ref.offset..ref.offset + n];
    }

    // The FREE case of serve
    method ServeFree(handle: nat)
      requires Valid()
      modifies this, table, table.regions
      ensures Valid() && Now() == Released(old(Now()), handle)
    {
      hide Resolve, Inv, Sound, FirstLive;
      ghost var w := Now();
      ReleasedSound(w, handle);
      var ref := table.TableResolve(handle);
      if ref.Ref? && ref.offset == 0 {
        heap := heap - {table.regions[ref.index].remote};
        var ok := table.TableFree(handle);
      }
    }

    // serve_dispatch, and the test of its caller for the number of arguments
    method ServeDispatch(d: Dispatch, kernel: Plugin) returns (ok: bool, results: seq<Result>)
      requires Valid() && AllSized(d.args) && WellBehaved(kernel)
      modifies this, table, table.regions, table.nextOffset
      ensures Valid() && Now() == Dispatched(old(Now()), topology, d, kernel)
      ensures ok <==> DispatchReply(old(Now()), topology, d, kernel).status == 0
      ensures ok ==> results == DispatchReply(old(Now()), topology, d, kernel).results
      ensures forall other :: Agree(old(Now()), d, topology, kernel, other) ==>
                && Now() == Dispatched(old(Now()), topology, d, other)
                && (ok <==> DispatchReply(old(Now()), topology, d, other).status == 0)
                && (ok ==> results == DispatchReply(old(Now()), topology, d, other).results)
    {
      hide Sound, Inv, Placed, CanRebuild, NameOutputs, Behaves, Fills, Ran, WellBehaved, Rebuilds, Agree, LaunchRight;
      hide Retarget.Retargeted, RebuiltAs;
      forall other | Agree(Now(), d, topology, kernel, other)
        ensures Dispatched(Now(), topology, d, kernel) == Dispatched(Now(), topology, d, other)
        ensures DispatchReply(Now(), topology, d, kernel) == DispatchReply(Now(), topology, d, other)
      {
        SoundParts(Now());
        AgreeingPlugins(Now(), d, topology, kernel, other);
      }
      ghost var w := Now();
      SoundParts(w);
      results := [];
      if |d.args| > MAX_ARGS {
        return false, [];
      }
      var rebuilt;
      ok, rebuilt := RebuildArgs(table, d.args);
      if !ok {
        return false, [];
      }
      var payload := new Byte[|d.payload|](i requires 0 <= i < |d.payload| => d.payload[i]);
      assert payload[..] == d.payload;
      ok := Retarget.RewriteTopo(payload, topology);
      if !ok {
        return false, [];
      }
      var seen := Snapshot();
      AllOnce(w.table.regions, d.args, rebuilt);
      var effect := kernel(seen, Launch(payload[..], TagsOf(d.args), rebuilt));
      PluginFills(w, topology, d, kernel);
      assert effect == kernel(w, Handed(w, d, topology));
      if effect.Declines? {
        return false, [];
      }
      ok, results := NameResults(d.args, effect);
    }

    // Run the kernel, and name what it published, slot by slot.
    method NameResults(args: seq<Arg>, effect: Effect) returns (ok: bool, results: seq<Result>)
      requires Valid() && effect.Runs? && Behaves(Now(), effect) && Fills(args, effect) && |Now().table.next| == 256
      modifies this, table, table.regions, table.nextOffset
      ensures Valid() && Now() == Ran(old(Now()), effect.dtype, effect)
      ensures var n := NameOutputs(old(Now()).table, id, effect.dtype, effect.outputs);
              ok == n.ok && (ok ==> results == n.results)
    {
      hide Sound, Inv, Placed, NameOutputs, Behaves;
      ghost var w := Now();
      var dtype := effect.dtype;
      RunSound(w, effect);
      heap := effect.heap;
      SoundParts(w);
      NamesStart(w, dtype, effect);
      var i, j := 0, 0;
      ok, results := true, [];
      assert args[..0] == [];
      while ok && i < |args|
        invariant 0 <= i <= |args| && table.Valid() && heap == effect.heap && |w.table.next| == 256
        invariant j <= |effect.outputs| && (ok ==> j == |SlotsOf(args[..i])|)
        invariant table.Contents() == NameOutputs(w.table, id, dtype, effect.outputs[..j]).table
        invariant results == NameOutputs(w.table, id, dtype, effect.outputs[..j]).results
        invariant ok == NameOutputs(w.table, id, dtype, effect.outputs[..j]).ok
        invariant Placed(table.Contents())
      {
        SlotsStep(args, i);
        if IsEmptySlot(args[i]) {
          NamesStep(w, dtype, effect, j);
          var o := effect.outputs[j];
          if o.None? {
            ok := false;
          } else {
            ghost var t := table.Contents();
            var handle := table.TableAlloc(id, o.value.bytes, dtype, o.value.remote);
            HandleOrNot(State(t, w.heap, w.id), o.value.bytes);
            if handle == 0 {
              ok := false;
            } else {
              results := results + [Result(handle, o.value.sizes)];
            }
          }
          j := j + 1;
        }
        i := i + 1;
      }
      assert args[..|args|] == args;
      NamesStop(w, dtype, effect, j, |effect.outputs|);
      assert effect.outputs[..|effect.outputs|] == effect.outputs;
      RanRight(w, dtype, effect);
    }

    // The end of a connection: what the release callback gets.
    method Disconnect() returns (released: seq<nat>)
      requires Valid()
      modifies this, table
      ensures Valid() && Now() == Disconnected(old(Now())) && released == LiveRemotes(old(Now()).table.regions)
    {
      ghost var w := Now();
      DisconnectedClean(w);
      hide Inv;
      released := table.TableFreeAll();
      heap := heap - (set p | p in released);
      assert heap == Disconnected(w).heap;
    }
  }

  lemma SoundParts(w: State)
    requires Sound(w)
    ensures Placed(w.table) && |w.table.next| == 256 && 1 <= w.id <= WORKER_MAX
  {}

  lemma HandleOrNot(w: State, size: nat)
    requires |w.table.next| == 256
    ensures HasRoom(w.table, w.id, size) ==> Addr(w.id, w.table.next[w.id]) != 0
  {}

  // The empty slots of a prefix come first.
  lemma SlotsStep(args: seq<Arg>, i: nat)
    requires i < |args|
    ensures SlotsOf(args[..i + 1]) == SlotsOf(args[..i]) + if IsEmptySlot(args[i]) then [i] else []
    ensures |SlotsOf(args[..i + 1])| <= |SlotsOf(args)|
  {
    assert args[..i + 1][..i] == args[..i];
    SlotsPrefix(args, i + 1);
  }

  lemma {:induction false} SlotsPrefix(args: seq<Arg>, i: nat)
    requires i <= |args|
    ensures SlotsOf(args[..i]) <= SlotsOf(args)
    decreases |args|
  {
    if i < |args| {
      SlotsPrefix(args[..|args| - 1], i);
      assert args[..|args| - 1][..i] == args[..i];
    } else {
      assert args[..i] == args;
    }
  }

  lemma NamesStart(w: State, dtype: int, e: Effect)
    requires |w.table.next| == 256 && e.Runs?
    ensures NameOutputs(w.table, w.id, dtype, e.outputs[..0]) == Named(w.table, [], true)
  {}

  lemma NamesStep(w: State, dtype: int, e: Effect, i: nat)
    requires |w.table.next| == 256 && e.Runs? && i < |e.outputs|
    ensures var front := NameOutputs(w.table, w.id, dtype, e.outputs[..i]);
            var o := e.outputs[i];
            NameOutputs(w.table, w.id, dtype, e.outputs[..i + 1]) ==
            if !front.ok || o.None? || !HasRoom(front.table, w.id, o.value.bytes) then front.(ok := false)
            else Named(Allocated(front.table, w.id, o.value.bytes, dtype, o.value.remote),
                       front.results + [Result(Addr(w.id, front.table.next[w.id]), o.value.sizes)], true)
  {
    assert e.outputs[..i + 1][..i] == e.outputs[..i];
  }

  lemma {:induction false} NamesStop(w: State, dtype: int, e: Effect, i: nat, n: nat)
    requires |w.table.next| == 256 && e.Runs? && i <= n <= |e.outputs|
    requires NameOutputs(w.table, w.id, dtype, e.outputs[..i]).ok ==> i == n
    ensures NameOutputs(w.table, w.id, dtype, e.outputs[..n]) == NameOutputs(w.table, w.id, dtype, e.outputs[..i])
    decreases n
  {
    if i < n {
      NamesStop(w, dtype, e, i, n - 1);
      NamesStep(w, dtype, e, n - 1);
    }
  }
}
