// A worker process (runtime/vx_worker_main.cpp): its region table, the device buffers
// behind it, and what each request does to them.
module Worker {
  import opened Options
  import opened Wire
  import opened Handles

  // `heap` holds the device buffers that are allocated. The worker gives every region
  // the one id it was started with.
  datatype State = State(table: Table, heap: map<nat, Bytes>, id: nat)

  // Each live region stands for a device buffer of its own, of its size.
  ghost predicate Sound(w: State) {
    && |w.table.next| == 256 && Inv(w.table) && 1 <= w.id <= WORKER_MAX
    && (forall i :: 0 <= i < |w.table.regions| ==> Backed(w, i))
    && (forall i, j :: 0 <= i < j < |w.table.regions| && w.table.regions[i].live && w.table.regions[j].live ==>
          w.table.regions[i].remote != w.table.regions[j].remote)
  }

  predicate Backed(w: State, i: nat)
    requires i < |w.table.regions|
  {
    var r := w.table.regions[i];
    r.worker == w.id && (r.live ==> r.remote in w.heap && |w.heap[r.remote]| == r.size)
  }

  // The bases of the live regions.
  function Live(t: Table): set<nat> {
    set i | 0 <= i < |t.regions| && t.regions[i].live :: t.regions[i].base
  }

  // Some live region among the first `n` has this buffer.
  predicate HasRemote(rs: seq<Region>, n: nat, p: nat)
    requires n <= |rs|
  {
    exists i :: 0 <= i < n && rs[i].live && rs[i].remote == p
  }

  // The device buffers that no live region stands for.
  function Orphans(w: State): set<nat> {
    set p | p in w.heap && !HasRemote(w.table.regions, |w.table.regions|, p)
  }

  // ---- TRANSFER ----

  // `dev` is what the device allocator answers.
  function Stored(w: State, bytes: Bytes, dtype: int, dev: Option<nat>): State
    requires |w.table.next| == 256
  {
    if dev.None? || !HasRoom(w.table, w.id, |bytes|) then w
    else State(Allocated(w.table, w.id, |bytes|, dtype, dev.value), w.heap[dev.value := bytes], w.id)
  }

  function StoredAt(w: State, bytes: Bytes, dev: Option<nat>): nat
    requires |w.table.next| == 256
  {
    if dev.None? || !HasRoom(w.table, w.id, |bytes|) then 0 else Addr(w.id, w.table.next[w.id])
  }

  // The allocator hands out memory that is not in use.
  predicate Unused(w: State, dev: Option<nat>) {
    dev.Some? ==> dev.value !in w.heap
  }

  lemma InTurn(w: State, size: nat, dtype: int, dev: nat)
    requires Sound(w)
    ensures InOrder(w.table, Alloc(w.id, size, dtype, dev))
  {
    if |w.table.regions| > 0 {
      assert Backed(w, |w.table.regions| - 1);
    }
  }

  // A region and the bytes behind it.
  ghost predicate Resident(w: State, base: nat, bytes: Bytes) {
    exists i :: 0 <= i < |w.table.regions| && ResidentAt(w, i, base, bytes)
  }

  predicate ResidentAt(w: State, i: nat, base: nat, bytes: Bytes)
    requires i < |w.table.regions|
  {
    var r := w.table.regions[i];
    r.live && r.base == base && r.size == |bytes| && r.remote in w.heap && w.heap[r.remote] == bytes
  }

  lemma StoredSound(w: State, bytes: Bytes, dtype: int, dev: Option<nat>)
    requires Sound(w) && Unused(w, dev)
    ensures Sound(Stored(w, bytes, dtype, dev))
  {
    var w' := Stored(w, bytes, dtype, dev);
    if w' != w {
      InTurn(w, |bytes|, dtype, dev.value);
      InvStep(w.table, Alloc(w.id, |bytes|, dtype, dev.value));
      forall i | 0 <= i < |w'.table.regions|
        ensures Backed(w', i)
      {
        if i < |w.table.regions| {
          assert Backed(w, i);
        }
      }
      forall i, j | 0 <= i < j < |w'.table.regions| && w'.table.regions[i].live && w'.table.regions[j].live
        ensures w'.table.regions[i].remote != w'.table.regions[j].remote
      {
        assert Backed(w, i);
      }
    }
  }

  // What was resident stays, and the new bytes are resident at their handle.
  lemma StoredKeeps(w: State, bytes: Bytes, dtype: int, dev: Option<nat>, base: nat, was: Bytes)
    requires Sound(w) && Unused(w, dev) && Resident(w, base, was)
    ensures Resident(Stored(w, bytes, dtype, dev), base, was)
  {
    hide Inv, HasRoom, Addr;
    var i :| 0 <= i < |w.table.regions| && ResidentAt(w, i, base, was);
    assert ResidentAt(Stored(w, bytes, dtype, dev), i, base, was);
  }

  lemma StoredIsResident(w: State, bytes: Bytes, dtype: int, dev: Option<nat>)
    requires Sound(w) && Unused(w, dev) && StoredAt(w, bytes, dev) != 0
    ensures Resident(Stored(w, bytes, dtype, dev), StoredAt(w, bytes, dev), bytes)
  {
    hide Inv, HasRoom, Addr;
    assert ResidentAt(Stored(w, bytes, dtype, dev), |w.table.regions|, StoredAt(w, bytes, dev), bytes);
  }

  lemma {:induction false} FreshBase(w: State, i: nat)
    requires Sound(w) && i < |w.table.regions|
    ensures w.table.regions[i].base < Addr(w.id, w.table.next[w.id])
  {
    assert Backed(w, i) && Backed(w, |w.table.regions| - 1);
    NewIsAbove(w.table, w.id, i);
  }

  // A transfer adds its handle to the live regions.
  lemma StoredLive(w: State, bytes: Bytes, dtype: int, dev: Option<nat>)
    requires Sound(w) && StoredAt(w, bytes, dev) != 0
    ensures Live(Stored(w, bytes, dtype, dev).table) == Live(w.table) + {StoredAt(w, bytes, dev)}
    ensures StoredAt(w, bytes, dev) !in Live(w.table)
  {
    hide Inv, HasRoom, Addr;
    var h := StoredAt(w, bytes, dev);
    var rs, rs' := w.table.regions, Stored(w, bytes, dtype, dev).table.regions;
    assert rs'[|rs|].live && rs'[|rs|].base == h;
    forall i | 0 <= i < |rs|
      ensures rs[i].base != h && rs'[i] == rs[i]
    {
      FreshBase(w, i);
    }
    forall b | b in Live(w.table)
      ensures b in Live(Stored(w, bytes, dtype, dev).table)
    {
      var i :| 0 <= i < |rs| && rs[i].live && rs[i].base == b;
      assert rs'[i].live && rs'[i].base == b;
    }
  }

  lemma StoredOrphans(w: State, bytes: Bytes, dtype: int, dev: Option<nat>)
    requires Sound(w) && Unused(w, dev)
    ensures Orphans(Stored(w, bytes, dtype, dev)) == Orphans(w)
  {
    hide Inv, HasRoom, Addr;
    var w' := Stored(w, bytes, dtype, dev);
    if w' != w {
      var rs, rs' := w.table.regions, w'.table.regions;
      forall p
        ensures HasRemote(rs', |rs'|, p) <==> HasRemote(rs, |rs|, p) || p == dev.value
      {
        if HasRemote(rs, |rs|, p) {
          var i :| 0 <= i < |rs| && rs[i].live && rs[i].remote == p;
          assert rs'[i].live && rs'[i].remote == p;
        }
        assert rs'[|rs|].live && rs'[|rs|].remote == dev.value;
      }
    }
  }

  // ---- FREE ----

  function Released(w: State, handle: nat): State {
    var ref := Resolve(w.table.regions, handle);
    if ref.Ref? && ref.offset == 0 then
      State(Freed(w.table, handle), w.heap - {w.table.regions[ref.index].remote}, w.id)
    else w
  }

  // A handle of a live region is the base of exactly that region.
  lemma OneBase(w: State, i: nat)
    requires Sound(w) && i < |w.table.regions| && w.table.regions[i].live
    ensures var h := w.table.regions[i].base;
            Resolve(w.table.regions, h) == Ref(i, 0) && FirstLive(w.table.regions, h) == i
  {
    var rs := w.table.regions;
    var h := rs[i].base;
    ResolveIsLinear(w.table, h);
    assert WellPlaced(rs[i], w.table.next);
    assert Contains(rs[i], h);
    forall j | 0 <= j < i
      ensures rs[j].base < h
    {
      assert rs[j].base + rs[j].size + Gap(rs[j].size) <= rs[i].base;
    }
  }

  // Region `i` is dead and its buffer is gone.
  function WithoutRegion(w: State, i: nat): State
    requires i < |w.table.regions|
  {
    var r := w.table.regions[i];
    State(w.table.(regions := w.table.regions[i := r.(live := false)]), w.heap - {r.remote}, w.id)
  }

  // A free does nothing, or takes one live region away.
  lemma ReleaseShape(w: State, handle: nat)
    requires Sound(w)
    ensures Released(w, handle) != w ==>
              var ref := Resolve(w.table.regions, handle);
              && ref.Ref? && ref.index < |w.table.regions| && w.table.regions[ref.index].live
              && w.table.regions[ref.index].base == handle && Released(w, handle) == WithoutRegion(w, ref.index)
  {
    hide Inv, IsHandle, AddrWorker;
    var ref := Resolve(w.table.regions, handle);
    if ref.Ref? && ref.offset == 0 {
      ResolveIsLinear(w.table, handle);
      OneBase(w, ref.index);
    }
  }

  lemma ReleasedSound(w: State, handle: nat)
    requires Sound(w)
    ensures Sound(Released(w, handle))
  {
    hide Inv, Resolve, FirstLive, Sound;
    ReleaseShape(w, handle);
    ReleasedInv(w, handle);
    if Released(w, handle) != w {
      WithoutSound(w, Resolve(w.table.regions, handle).index);
    }
  }

  // What is resident at another handle stays.
  lemma ReleasedKeeps(w: State, handle: nat, base: nat, bytes: Bytes)
    requires Sound(w) && Resident(w, base, bytes) && base != handle
    ensures Resident(Released(w, handle), base, bytes)
  {
    hide Inv, Resolve, FirstLive, Released;
    ReleaseShape(w, handle);
    var w' := Released(w, handle);
    var i :| 0 <= i < |w.table.regions| && ResidentAt(w, i, base, bytes);
    if w' != w {
      var k := Resolve(w.table.regions, handle).index;
      assert i != k;
      assert w.table.regions[i].remote != w.table.regions[k].remote;
      assert ResidentAt(w', i, base, bytes);
    }
  }

  lemma ReleasedInv(w: State, handle: nat)
    requires Sound(w)
    ensures Inv(Released(w, handle).table)
  {
    hide Inv, Resolve, FirstLive;
    InvStep(w.table, Free(handle));
  }

  lemma WithoutSound(w: State, i: nat)
    requires Sound(w) && i < |w.table.regions| && w.table.regions[i].live && Inv(WithoutRegion(w, i).table)
    ensures Sound(WithoutRegion(w, i))
  {
    hide Inv;
    var w' := WithoutRegion(w, i);
    forall j | 0 <= j < |w'.table.regions|
      ensures Backed(w', j)
    {
      assert Backed(w, j);
    }
  }

  // Freeing a live handle takes it from the live regions, and its buffer with it.
  lemma ReleasedLive(w: State, i: nat)
    requires Sound(w) && i < |w.table.regions| && w.table.regions[i].live
    ensures var h := w.table.regions[i].base;
            && Live(Released(w, h).table) == Live(w.table) - {h}
            && Released(w, h).heap == w.heap - {w.table.regions[i].remote} && w.table.regions[i].remote in w.heap
  {
    hide Inv, Resolve, FirstLive;
    var rs := w.table.regions;
    var h := rs[i].base;
    OneBase(w, i);
    assert Backed(w, i);
    assert Released(w, h) == WithoutRegion(w, i);
    forall j | 0 <= j < |rs| && j != i && rs[j].live
      ensures rs[j].base != h
    {
      OneBase(w, j);
    }
    LiveWithout(w, i);
  }

  lemma LiveWithout(w: State, i: nat)
    requires i < |w.table.regions| && w.table.regions[i].live
    requires forall j :: 0 <= j < |w.table.regions| && j != i && w.table.regions[j].live ==>
               w.table.regions[j].base != w.table.regions[i].base
    ensures Live(WithoutRegion(w, i).table) == Live(w.table) - {w.table.regions[i].base}
  {
    var rs, rs' := w.table.regions, WithoutRegion(w, i).table.regions;
    forall b | b in Live(w.table) && b != rs[i].base
      ensures b in Live(WithoutRegion(w, i).table)
    {
      var j :| 0 <= j < |rs| && rs[j].live && rs[j].base == b;
      assert rs'[j].live && rs'[j].base == b;
    }
  }

  lemma ReleasedOrphans(w: State, handle: nat)
    requires Sound(w)
    ensures Orphans(Released(w, handle)) == Orphans(w)
  {
    hide Inv, Resolve, FirstLive, Released;
    ReleaseShape(w, handle);
    if Released(w, handle) != w {
      WithoutOrphans(w, Resolve(w.table.regions, handle).index);
    }
  }

  lemma WithoutOrphans(w: State, i: nat)
    requires Sound(w) && i < |w.table.regions| && w.table.regions[i].live
    ensures Orphans(WithoutRegion(w, i)) == Orphans(w)
  {
    hide Inv;
    var rs, rs' := w.table.regions, WithoutRegion(w, i).table.regions;
    forall p
      ensures HasRemote(rs, |rs|, p) <==> HasRemote(rs', |rs'|, p) || p == rs[i].remote
    {
      if HasRemote(rs, |rs|, p) {
        var j :| 0 <= j < |rs| && rs[j].live && rs[j].remote == p;
        assert j != i ==> rs'[j].live && rs'[j].remote == p;
      }
    }
  }

  // ---- FETCH ----

  const REPLY_MAX: nat := 0x400_0000

  // The bytes a fetch answers with: none when the handle or the length is not good.
  function Fetched(w: State, handle: nat, n: nat): Bytes {
    var ref := Resolve(w.table.regions, handle);
    if ref.Nowhere? then []
    else
      var r := w.table.regions[ref.index];
      if r.remote !in w.heap || n > r.size - ref.offset || n > REPLY_MAX || ref.offset + n > |w.heap[r.remote]| then []
      else w.heap[r.remote][ref.offset..ref.offset + n]
  }

  // Fetching from anywhere in a region gives the bytes there, if they are all in it and fit in a reply.
  lemma FetchedThere(w: State, i: nat, handle: nat, n: nat)
    requires Sound(w) && i < |w.table.regions| && Contains(w.table.regions[i], handle)
    ensures var r := w.table.regions[i];
            && r.remote in w.heap && |w.heap[r.remote]| == r.size
            && Fetched(w, handle, n) ==
               if handle + n <= r.base + r.size && n <= REPLY_MAX
               then w.heap[r.remote][handle - r.base..handle - r.base + n] else []
  {
    hide Inv, Resolve;
    ResolveIsLinear(w.table, handle);
    assert Backed(w, i);
  }

  // And nothing where no live region is.
  lemma FetchedNowhere(w: State, handle: nat, n: nat)
    requires Sound(w) && forall i :: 0 <= i < |w.table.regions| ==> !Contains(w.table.regions[i], handle)
    ensures Fetched(w, handle, n) == []
  {
    hide Inv, Resolve;
    ResolveIsLinear(w.table, handle);
  }

  // Fetching a whole resident buffer gives its bytes.
  lemma FetchedWhole(w: State, base: nat, bytes: Bytes)
    requires Sound(w) && Resident(w, base, bytes) && |bytes| <= REPLY_MAX
    ensures Fetched(w, base, |bytes|) == bytes
  {
    var i :| 0 <= i < |w.table.regions| && ResidentAt(w, i, base, bytes);
    OneBase(w, i);
  }

  // ---- End of the connection ----

  function Disconnected(w: State): State {
    State(FreedAll(w.table), w.heap - (set i | 0 <= i < |w.table.regions|
                                       && w.table.regions[i].live :: w.table.regions[i].remote), w.id)
  }

  // The release at the end of a connection frees each live region's buffer, once.
  lemma DisconnectedClean(w: State)
    requires Sound(w)
    ensures Sound(Disconnected(w)) && Live(Disconnected(w).table) == {}
    ensures forall i, j :: 0 <= i < j < |LiveRemotes(w.table.regions)| ==>
               LiveRemotes(w.table.regions)[i] != LiveRemotes(w.table.regions)[j]
    ensures forall p :: p in LiveRemotes(w.table.regions) <==> p in w.heap && p !in Disconnected(w).heap
  {
    InvStep(w.table, FreeAll);
    LiveRemotesDistinct(w, |w.table.regions|);
    assert w.table.regions[..|w.table.regions|] == w.table.regions;
    assert forall p :: p in LiveRemotes(w.table.regions) <==> HasRemote(w.table.regions, |w.table.regions|, p);
    forall p
      ensures p in LiveRemotes(w.table.regions) <==> p in w.heap && p !in Disconnected(w).heap
    {
      if p in LiveRemotes(w.table.regions) {
        var i :| 0 <= i < |w.table.regions| && w.table.regions[i].live && w.table.regions[i].remote == p;
        assert Backed(w, i);
      }
    }
  }

  lemma {:induction false} LiveRemotesDistinct(w: State, n: nat)
    requires Sound(w) && n <= |w.table.regions|
    ensures var ps := LiveRemotes(w.table.regions[..n]);
            && (forall p :: p in ps <==> HasRemote(w.table.regions, n, p))
            && (forall i, j :: 0 <= i < j < |ps| ==> ps[i] != ps[j])
  {
    if n > 0 {
      hide Inv;
      LiveRemotesDistinct(w, n - 1);
      var rs := w.table.regions;
      assert rs[..n][..n - 1] == rs[..n - 1];
      var ps := LiveRemotes(rs[..n - 1]);
      assert rs[n - 1].live ==> !HasRemote(rs, n - 1, rs[n - 1].remote);
      forall p
        ensures HasRemote(rs, n, p) <==> HasRemote(rs, n - 1, p) || (rs[n - 1].live && rs[n - 1].remote == p)
      {
      }
    }
  }
}
