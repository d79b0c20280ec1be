// A whole remote dispatch (runtime/vx_remote_client.h): stage, run on the worker, bring
// back, free.
module Dispatching {
  import opened Options
  import opened Strided
  import opened Abi
  import opened Blocks
  import opened Plan
  import opened Copying
  import Staging
  import opened Execute
  import opened Wire
  import opened Cursor
  import opened Transport
  import opened Handles
  import opened Worker
  import opened Agent
  import Retarget
  import opened Serving
  import opened Protocol
  import opened Carry
  import opened Client

  // ---- Bringing buffers back ----

  // `m'` is `m` with the bytes `b` written to `hosts`.
  ghost predicate WrittenTo(m: seq<Byte>, m': seq<Byte>, hosts: seq<int>, b: Bytes) {
    && |m'| == |m| && |hosts| == |b| && (forall c :: 0 <= c < |b| ==> 0 <= hosts[c] < |m| && m'[hosts[c]] == b[c])
    && (forall x :: 0 <= x < |m| && x !in hosts ==> m'[x] == m[x])
  }

  // The scatter from memory of its own.
  method ScatterDense(mem: array<Byte>, v: Layout, b: Bytes)
    requires ValidLayout(v) && |b| == DenseBytes(v) && InMemory(HostBytes(v), mem[..]) && Distinct(HostBytes(v))
    modifies mem
    ensures WrittenTo(old(mem[..]), mem[..], HostBytes(v), b)
  {
    var n := mem.Length;
    var work := new Byte[n + |b|](i => 0);
    forall i | 0 <= i < n {
      work[i] := mem[i];
    }
    forall i | 0 <= i < |b| {
      work[n + i] := b[i];
    }
    ghost var m, before, hosts := mem[..], work[..], HostBytes(v);
    assert forall i :: 0 <= i < n ==> before[i] == m[i];
    assert forall c :: 0 <= c < |b| ==> before[n + c] == b[c];
    Scatter(work, v, n);
    assert hosts[..|b|] == hosts;
    ghost var after := work[..];
    forall i | 0 <= i < n {
      mem[i] := work[i];
    }
    assert forall i :: 0 <= i < n ==> mem[i] == after[i];
  }

  lemma FetchAnswered(w: State, topology: int, kernel: Plugin, handle: int, n: int, w': State, f: Frame)
    requires |w.table.next| == 256 && IsU64(handle) && IsU64(n)
    requires Answers(w, topology, kernel, Delivery(Frame(FETCH, FetchBytes(handle, n)), BODY_MAX), w', f)
    ensures w' == w && f == Frame(FETCH, Fetched(w, handle, n)) && |f.body| <= n
  {
    hide GetFetch, FetchBytes, Resolve, AnswersTransfer, AnswersDispatch, AnswersFree;
    assert Holds(FetchBytes(handle, n), 0, FetchBytes(handle, n));
    FetchBack(FetchBytes(handle, n), 0, handle, n);
  }

  method EncodeFetch(handle: int, n: int) returns (message: Bytes)
    requires IsU64(handle) && IsU64(n)
    ensures message == FetchBytes(handle, n)
  {
    hide FetchBytes, Wrote;
    var buf := new Byte[32](i => 0);
    var w := new Writer(buf);
    w.PutFetch(handle, n);
    WroteOrNot(32, FetchBytes(handle, n), w.State());
    message := buf[..w.len];
  }

  // vx_remote_fetch
  method RemoteFetch(fd: Link, handle: nat, n: nat) returns (ok: bool, b: Bytes)
    requires fd.Valid() && IsU64(handle) && IsU64(n)
    modifies fd.Parts()
    ensures fd.Valid() && fd.refused == old(fd.refused) && (old(fd.Quiet()) ==> fd.Quiet())
    ensures !fd.lost ==> fd.Now() == old(fd.Now()) && b == Fetched(fd.Now(), handle, n) && (ok <==> |b| == n)
    ensures fd.lost ==> !ok
  {
    hide Sound, WellBehaved, Benign, Answers, FrameBytes, Fetched, FetchBytes;
    ghost var before := fd.Now();
    SoundParts(before);
    var message := EncodeFetch(handle, n);
    assert fd.Valid() && fd.Now() == before && (old(fd.Quiet()) ==> fd.Quiet());
    var r;
    ghost var f;
    r, f := fd.RoundTrip(FETCH, message, n);
    if !fd.lost {
      FetchAnswered(before, fd.worker.topology, fd.kernel, handle, n, fd.Now(), f);
    }
    b := if r.Message? then r.body else [];
    ok := r.Message? && |b| == n;
  }

  // A buffer of the worker's, by handles and lengths of 64 bits.
  predicate Nameable(s: Staged) {
    s.handle < TWO_64 && s.bytes < TWO_64
  }

  // vx_remote_fetch_staged
  method FetchStaged(fd: Link, mem: array<Byte>, s: Staged) returns (ok: bool)
    requires fd.Valid() && fd.Quiet() && Home(s, mem.Length) && Nameable(s)
    modifies fd.Parts(), mem
    ensures fd.Valid() && fd.Quiet() && fd.Now() == old(fd.Now()) && fd.refused == old(fd.refused)
    ensures ok <==> s.bytes == 0 || |Fetched(fd.Now(), s.handle, s.bytes)| == s.bytes
    ensures ok && s.bytes != 0 ==>
              WrittenTo(old(mem[..]), mem[..], HostsOfStaged(s), Fetched(fd.Now(), s.handle, s.bytes))
    ensures !ok || s.bytes == 0 ==> mem[..] == old(mem[..])
  {
    hide Sound, Inv, Fetched, WellBehaved, Benign;
    if s.bytes == 0 {
      return true;
    }
    var b;
    ok, b := RemoteFetch(fd, s.handle, s.bytes);
    if !ok {
      return;
    }
    ghost var w := fd.Now();
    WriteBack(mem, s, b);
    assert fd.Valid() && fd.Quiet() && fd.Now() == w;
  }

  // The bytes of a staged buffer, to where they came from.
  method WriteBack(mem: array<Byte>, s: Staged, b: Bytes)
    requires Home(s, mem.Length) && s.bytes != 0 && |b| == s.bytes
    modifies mem
    ensures WrittenTo(old(mem[..]), mem[..], HostsOfStaged(s), b)
  {
    if s.dense.Some? {
      ScatterDense(mem, LayoutOf(s.dense.value), b);
    } else {
      PlainHome(s, mem.Length);
      forall i | 0 <= i < s.bytes {
        mem[s.host + i] := b[i];
      }
      PlainWritten(old(mem[..]), mem[..], s.host, b);
    }
  }

  lemma PlainHome(s: Staged, size: nat)
    requires Home(s, size) && s.dense.None? && s.bytes != 0
    ensures 0 <= s.host && s.host + s.bytes <= size
  {
    assert HostsOfStaged(s)[0] == s.host && HostsOfStaged(s)[s.bytes - 1] == s.host + s.bytes - 1;
  }

  lemma PlainWritten(m: seq<Byte>, m': seq<Byte>, host: int, b: Bytes)
    requires |m'| == |m| && 0 <= host && host + |b| <= |m|
    requires forall x :: 0 <= x < |m| ==> m'[x] == if host <= x < host + |b| then b[x - host] else m[x]
    ensures WrittenTo(m, m', SpanAddresses(host, |b|), b)
  {
    var hosts := SpanAddresses(host, |b|);
    forall x | host <= x < host + |b|
      ensures x in hosts
    {
      assert hosts[x - host] == x;
    }
  }

  // What is brought back when every staged buffer is fetched from worker state `w`: each
  // place gets the worker's byte, and no other byte changes.
  ghost predicate BroughtBack(m: seq<Byte>, m': seq<Byte>, staged: seq<Staged>, n: nat, w: State)
    requires n <= |staged| && AllHome(staged, |m|)
  {
    && |m'| == |m|
    && (forall k :: 0 <= k < n && staged[k].bytes != 0 ==> BroughtOne(m', staged[k], w))
    && (forall x :: 0 <= x < |m| && !InStaged(staged, n, x) ==> m'[x] == m[x])
  }

  ghost predicate BroughtOne(m': seq<Byte>, s: Staged, w: State)
    requires s.bytes != 0 && Home(s, |m'|)
  {
    var b := Fetched(w, s.handle, s.bytes);
    |b| == s.bytes && forall c :: 0 <= c < |b| ==> m'[HostsOfStaged(s)[c]] == b[c]
  }

  ghost predicate InStaged(staged: seq<Staged>, n: nat, x: int)
    requires n <= |staged|
  {
    exists k :: 0 <= k < n && staged[k].bytes != 0 && x in HostsOfStaged(staged[k])
  }

  lemma BroughtMore(m: seq<Byte>, m1: seq<Byte>, m2: seq<Byte>, staged: seq<Staged>, n: nat, w: State)
    requires n < |staged| && AllHome(staged, |m|) && BroughtBack(m, m1, staged, n, w) && staged[n].bytes != 0
    requires WrittenTo(m1, m2, HostsOfStaged(staged[n]), Fetched(w, staged[n].handle, staged[n].bytes))
    ensures BroughtBack(m, m2, staged, n + 1, w)
  {
    hide Home, HostsOfStaged, Fetched;
    var s := staged[n];
    forall k | 0 <= k < n && staged[k].bytes != 0
      ensures BroughtOne(m2, staged[k], w)
    {
      assert BroughtOne(m1, staged[k], w);
      assert NoneShared(HostsOfStaged(staged[k]), HostsOfStaged(s));
      HomeLength(staged[k], |m|);
    }
    HomeLength(s, |m|);
    forall x | 0 <= x < |m| && !InStaged(staged, n + 1, x)
      ensures m2[x] == m[x]
    {
      assert !InStaged(staged, n, x) && x !in HostsOfStaged(s);
    }
  }

  lemma HomeLength(s: Staged, size: nat)
    requires Home(s, size) && s.bytes != 0
    ensures |HostsOfStaged(s)| == s.bytes && forall c :: 0 <= c < s.bytes ==> 0 <= HostsOfStaged(s)[c] < size
  {}

  lemma BroughtSkip(m: seq<Byte>, m1: seq<Byte>, staged: seq<Staged>, n: nat, w: State)
    requires n < |staged| && AllHome(staged, |m|) && BroughtBack(m, m1, staged, n, w) && staged[n].bytes == 0
    ensures BroughtBack(m, m1, staged, n + 1, w)
  {
    hide Home, HostsOfStaged, Fetched;
  }

  // The loop that reads every staged buffer back.
  method FetchEvery(fd: Link, mem: array<Byte>, staged: seq<Staged>) returns (ok: bool)
    requires fd.Valid() && fd.Quiet() && AllHome(staged, mem.Length)
    requires forall k :: 0 <= k < |staged| ==> Nameable(staged[k])
    modifies fd.Parts(), mem
    ensures fd.Valid() && fd.Quiet() && fd.Now() == old(fd.Now()) && fd.refused == old(fd.refused)
    ensures ok ==> BroughtBack(old(mem[..]), mem[..], staged, |staged|, fd.Now())
    ensures ok <==> forall k :: 0 <= k < |staged| ==> Fetchable(fd.Now(), staged[k])
  {
    hide Sound, Inv, Fetched, Home, HostsOfStaged, BroughtBack, WellBehaved, Benign;
    ghost var m := mem[..];
    NoneBrought(m, staged, fd.Now());
    var k := 0;
    while k < |staged|
      invariant 0 <= k <= |staged| && fd.Valid() && fd.Quiet() && fd.Now() == old(fd.Now())
      invariant fd.refused == old(fd.refused)
      invariant BroughtBack(m, mem[..], staged, k, fd.Now())
      invariant forall j :: 0 <= j < k ==> Fetchable(fd.Now(), staged[j])
    {
      ghost var m1 := mem[..];
      ok := FetchStaged(fd, mem, staged[k]);
      if !ok {
        return;
      }
      if staged[k].bytes != 0 {
        BroughtMore(m, m1, mem[..], staged, k, fd.Now());
      } else {
        BroughtSkip(m, m1, staged, k, fd.Now());
      }
      k := k + 1;
    }
    ok := true;
  }

  predicate Fetchable(w: State, s: Staged) {
    s.bytes == 0 || |Fetched(w, s.handle, s.bytes)| == s.bytes
  }

  lemma NoneBrought(m: seq<Byte>, staged: seq<Staged>, w: State)
    requires AllHome(staged, |m|)
    ensures BroughtBack(m, m, staged, 0, w)
  {}

  // ---- Freeing what was staged ----

  lemma FreeOne(w: State, handle: nat)
    requires Sound(w) && handle in Live(w.table)
    ensures Sound(Released(w, handle)) && Live(Released(w, handle).table) == Live(w.table) - {handle}
    ensures Orphans(Released(w, handle)) == Orphans(w)
  {
    hide Inv, Released, Sound;
    var i :| 0 <= i < |w.table.regions| && w.table.regions[i].live && w.table.regions[i].base == handle;
    ReleasedSound(w, handle);
    ReleasedLive(w, i);
    ReleasedOrphans(w, handle);
  }

  predicate OneEach(staged: seq<Staged>) {
    forall j, k :: 0 <= j < k < |staged| ==> staged[j].handle != staged[k].handle
  }

  lemma FreeAnswered(w: State, topology: int, kernel: Plugin, handle: int, w': State, f: Frame)
    requires |w.table.next| == 256 && IsU64(handle)
    requires Answers(w, topology, kernel, Delivery(Frame(FREE, U64(handle)), BODY_MAX), w', f)
    ensures w' == Released(w, handle) && f == Frame(FREE, [])
  {
    hide GetU64, U64, Released, AnswersTransfer, AnswersDispatch, AnswersFetch;
    HandleIsRead(handle);
  }

  method EncodeFree(handle: int) returns (message: Bytes)
    requires IsU64(handle)
    ensures message == U64(handle)
  {
    hide U64, Wrote;
    var buf := new Byte[16](i => 0);
    var w := new Writer(buf);
    w.PutU64(handle);
    WroteOrNot(16, U64(handle), w.State());
    message := buf[..w.len];
  }

  // vx_remote_free, which waits for the acknowledgement
  method RemoteFree(fd: Link, handle: nat) returns (ok: bool)
    requires fd.Valid() && IsU64(handle)
    modifies fd.Parts()
    ensures fd.Valid() && fd.refused == old(fd.refused) && (old(fd.Quiet()) ==> fd.Quiet())
    ensures (ok <==> !fd.lost) && (ok ==> fd.Now() == Released(old(fd.Now()), handle))
  {
    hide Sound, WellBehaved, Benign, Answers, FrameBytes, Released, U64;
    ghost var before := fd.Now();
    SoundParts(before);
    var message := EncodeFree(handle);
    assert fd.Valid() && fd.Now() == before && (old(fd.Quiet()) ==> fd.Quiet());
    var r;
    ghost var f;
    r, f := fd.RoundTrip(FREE, message, 16);
    if !fd.lost {
      FreeAnswered(before, fd.worker.topology, fd.kernel, handle, fd.Now(), f);
    }
    ok := r.Message?;
  }

  // What is resident at these handles stays.
  ghost predicate KeepsAll(w: State, w': State, handles: set<nat>) {
    forall base, bytes :: base in handles && Resident(w, base, bytes) ==> Resident(w', base, bytes)
  }

  lemma KeepsOn(w: State, w1: State, handle: nat, handles: set<nat>)
    requires Sound(w1) && KeepsAll(w, w1, handles) && handle !in handles
    ensures KeepsAll(w, Released(w1, handle), handles)
  {
    hide Sound, Resident, Released;
    forall base, bytes | base in handles && Resident(w, base, bytes)
      ensures Resident(Released(w1, handle), base, bytes)
    {
      ReleasedKeeps(w1, handle, base, bytes);
    }
  }

  // The loop that frees every staged buffer.
  method FreeStaged(fd: Link, staged: seq<Staged>, ghost rest: set<nat>)
    requires fd.Valid() && fd.Quiet() && OneEach(staged) && forall k :: 0 <= k < |staged| ==> Nameable(staged[k])
    requires Live(fd.Now().table) == rest + HandleSet(staged) && rest !! HandleSet(staged)
    modifies fd.Parts()
    ensures fd.Valid() && fd.Quiet() && Live(fd.Now().table) == rest && Orphans(fd.Now()) == old(Orphans(fd.Now()))
    ensures fd.refused == old(fd.refused) && KeepsAll(old(fd.Now()), fd.Now(), rest)
  {
    hide Sound, Inv, Live, Orphans, Released, WellBehaved, Benign, Resident, KeepsAll;
    ghost var w := fd.Now();
    KeepsStart(w, rest);
    var i := 0;
    assert staged[0..] == staged;
    while i < |staged|
      invariant 0 <= i <= |staged| && fd.Valid() && fd.Quiet() && Orphans(fd.Now()) == old(Orphans(fd.Now()))
      invariant Live(fd.Now().table) == rest + HandleSet(staged[i..]) && fd.refused == old(fd.refused)
      invariant KeepsAll(w, fd.Now(), rest)
    {
      var h := staged[i].handle;
      FirstHandle(staged, i);
      FreeOne(fd.Now(), h);
      KeepsOn(w, fd.Now(), h, rest);
      var ok := RemoteFree(fd, h);
      assert h in HandleSet(staged);
      i := i + 1;
    }
    assert staged[i..] == [];
  }

  lemma KeepsStart(w: State, handles: set<nat>)
    ensures KeepsAll(w, w, handles)
  {}

  lemma FirstHandle(staged: seq<Staged>, i: nat)
    requires i < |staged| && OneEach(staged)
    ensures HandleSet(staged[i..]) == {staged[i].handle} + HandleSet(staged[i + 1..])
    ensures staged[i].handle !in HandleSet(staged[i + 1..]) && staged[i].handle in HandleSet(staged)
  {
    forall h | h in HandleSet(staged[i..])
      ensures h == staged[i].handle || h in HandleSet(staged[i + 1..])
    {
      var k :| 0 <= k < |staged[i..]| && staged[i..][k].handle == h;
      if k > 0 {
        assert staged[i + 1..][k - 1] == staged[i..][k];
      }
    }
    forall h | h in HandleSet(staged[i + 1..])
      ensures h in HandleSet(staged[i..]) && h != staged[i].handle
    {
      var k :| 0 <= k < |staged[i + 1..]| && staged[i + 1..][k].handle == h;
      assert staged[i..][k + 1] == staged[i + 1..][k] == staged[i + 1 + k];
    }
    assert staged[i..][0] == staged[i];
  }

  // ---- Finding the buffer behind a handle ----

  predicate Covers(s: Staged, handle: nat) {
    s.handle <= handle < s.handle + if s.bytes != 0 then s.bytes else 1
  }

  // vx_remote_find_staged
  method FindStaged(staged: seq<Staged>, handle: nat) returns (k: nat)
    ensures k <= |staged| && (k < |staged| ==> Covers(staged[k], handle))
    ensures forall j :: 0 <= j < k ==> !Covers(staged[j], handle)
  {
    k := 0;
    while k < |staged|
      invariant k <= |staged| && forall j :: 0 <= j < k ==> !Covers(staged[j], handle)
    {
      if Covers(staged[k], handle) {
        return;
      }
      k := k + 1;
    }
  }

  // No two staged buffers cover one handle, so the first is the only one.
  lemma OneCovers(w0: State, w: State, staged: seq<Staged>, contents: seq<Bytes>, j: nat, k: nat, handle: nat)
    requires Sound(w) && StagedOk(w0, w, staged, contents) && j < |staged| && k < |staged|
    requires Covers(staged[j], handle) && Covers(staged[k], handle)
    ensures j == k
  {
    hide Inv, Live, Orphans;
    assert StagedAt(w0, w, staged[j], contents[j]) && StagedAt(w0, w, staged[k], contents[k]);
    var a :| 0 <= a < |w.table.regions| && ResidentAt(w, a, staged[j].handle, contents[j]);
    var b :| 0 <= b < |w.table.regions| && ResidentAt(w, b, staged[k].handle, contents[k]);
    ResolveIsLinear(w.table, handle);
    assert Contains(w.table.regions[a], handle) && Contains(w.table.regions[b], handle);
  }

  // ---- The reply ----

  // The descriptor of a result has its handle for an address, and dense strides.
  function SlotDesc(r: Result): Desc {
    Desc(r.handle, r.handle, 0, r.sizes, DenseStrides(r.sizes))
  }

  // It reaches the elements of the result one after the other, in row-major order.
  lemma SlotIsDense(r: Result, b: int, t: seq<int>, k: int)
    requires InRange(t, r.sizes)
    ensures SlotDesc(r).sizes == r.sizes && |SlotDesc(r).strides| == |r.sizes|
    ensures Staging.ElementByte(SlotDesc(r), b, t, k) == r.handle + Position(t, r.sizes) * b + k
  {
    DenseIsPosition(t, r.sizes);
  }

  // vx_agent_apply_result
  method ApplyResult(r: Result) returns (d: Desc)
    ensures d == SlotDesc(r)
  {
    var strides: seq<int> := [];
    var acc := 1;
    var i := |r.sizes|;
    assert r.sizes[i..] == [];
    while i > 0
      invariant 0 <= i <= |r.sizes| && |strides| == |r.sizes| - i && acc == Product(r.sizes[i..])
      invariant forall k :: i <= k < |r.sizes| ==> strides[k - i] == DenseStrides(r.sizes)[k]
    {
      i := i - 1;
      strides := [acc] + strides;
      ProductFirst(r.sizes[i..]);
      assert r.sizes[i..][1..] == r.sizes[i + 1..];
      acc := acc * r.sizes[i];
    }
    assert strides == DenseStrides(r.sizes);
    d := Desc(r.handle, r.handle, 0, r.sizes, strides);
  }

  lemma ProductFirst(s: seq<int>)
    requires |s| > 0
    ensures Product(s) == s[0] * Product(s[1..])
  {
    hide Product;
    assert s == s[..1] + s[1..];
    ProductConcat(s[..1], s[1..]);
    ProductOne(s[..1]);
  }

  lemma ProductOne(s: seq<int>)
    requires |s| == 1
    ensures Product(s) == s[0]
  {
    assert s[..0] == [];
  }

  // Each slot that was sent empty has its own descriptor in `outers`.
  predicate HasOuters(args: seq<LocalArg>, slots: seq<nat>, n: nat) {
    forall j :: 0 <= j < |slots| ==> slots[j] < |args| && args[slots[j]].outer < n
  }

  // The descriptors of the slots once the results are applied in order.
  function ApplyAll(outers: seq<Desc>, args: seq<LocalArg>, slots: seq<nat>, results: seq<Result>): (r: seq<Desc>)
    requires |slots| == |results| && HasOuters(args, slots, |outers|)
    ensures |r| == |outers|
  {
    if |slots| == 0 then outers
    else
      var n := |slots| - 1;
      ApplyAll(outers, args, slots[..n], results[..n])[args[slots[n]].outer := SlotDesc(results[n])]
  }

  // Result `j` lands in slot `j`, unless a later slot is the same one.
  lemma {:induction false} AppliedAt(outers: seq<Desc>, args: seq<LocalArg>, slots: seq<nat>, results: seq<Result>,
                                     j: nat)
    requires |slots| == |results| && HasOuters(args, slots, |outers|) && j < |slots|
    requires forall k :: j < k < |slots| ==> args[slots[k]].outer != args[slots[j]].outer
    ensures ApplyAll(outers, args, slots, results)[args[slots[j]].outer] == SlotDesc(results[j])
    decreases |slots|
  {
    var n := |slots| - 1;
    if j < n {
      AppliedAt(outers, args, slots[..n], results[..n], j);
    }
  }

  // And nowhere else.
  lemma {:induction false} AppliedElsewhere(outers: seq<Desc>, args: seq<LocalArg>, slots: seq<nat>,
                                            results: seq<Result>, x: nat)
    requires |slots| == |results| && HasOuters(args, slots, |outers|) && x < |outers|
    requires forall k :: 0 <= k < |slots| ==> args[slots[k]].outer != x
    ensures ApplyAll(outers, args, slots, results)[x] == outers[x]
    decreases |slots|
  {
    if |slots| > 0 {
      AppliedElsewhere(outers, args, slots[..|slots| - 1], results[..|slots| - 1], x);
    }
  }

  lemma ApplyStep(outers: seq<Desc>, args: seq<LocalArg>, slots: seq<nat>, results: seq<Result>, x: nat, r: Result)
    requires |slots| == |results| && HasOuters(args, slots, |outers|) && x < |args| && args[x].outer < |outers|
    ensures HasOuters(args, slots + [x], |outers|)
    ensures ApplyAll(outers, args, slots + [x], results + [r]) ==
            ApplyAll(outers, args, slots, results)[args[x].outer := SlotDesc(r)]
  {
    var n := |slots|;
    assert (slots + [x])[..n] == slots && (results + [r])[..n] == results;
  }

  // Result `k` stands behind the ones before it.
  lemma {:induction false} ResultStands(s: Bytes, p: nat, rs: seq<Result>, k: nat)
    requires AllResultsFit(rs) && k < |rs| && Holds(s, p, ResultsBytes(rs))
    ensures AllResultsFit(rs[..k]) && AllResultsFit(rs[..k + 1])
    ensures GetResult(s, p + |ResultsBytes(rs[..k])|) == Got(rs[k], p + |ResultsBytes(rs[..k + 1])|)
    decreases |rs|
  {
    hide Holds, GetResult, ResultBytes, ResultFits;
    var n := |rs| - 1;
    HoldsBoth(s, p, ResultsBytes(rs[..n]), ResultBytes(rs[n]));
    if k == n {
      assert rs[..k + 1] == rs;
      ResultBack(s, p + |ResultsBytes(rs[..n])|, rs[n]);
    } else {
      ResultStands(s, p, rs[..n], k);
      assert rs[..n][..k] == rs[..k] && rs[..n][..k + 1] == rs[..k + 1];
    }
  }

  lemma ReplyStands(m: Reply)
    requires ReplyFits(m)
    ensures GetReplyHead(ReplyBytes(m), 0) == Got((m.status, |m.results|), 12)
    ensures AllResultsFit(m.results) && Holds(ReplyBytes(m), 12, ResultsBytes(m.results))
  {
    hide Holds, I32, I64, GetI32, GetI64, ResultsBytes, AllResultsFit;
    var s := ReplyBytes(m);
    var a, b, c := I32(m.status), I64(|m.results|), ResultsBytes(m.results);
    WholeHolds(s);
    HoldsBoth(s, 0, a + b, c);
    HoldsBoth(s, 0, a, b);
    HoldsInside(s, 12, c);
    I32Back(s, 0, m.status);
    I64Back(s, 4, |m.results|);
    assert |m.results| * 12 % TWO_64 == |m.results| * 12;
  }

  lemma WholeHolds(s: Bytes)
    ensures Holds(s, 0, s)
  {}

  lemma NothingInReply()
    ensures GetReplyHead([], 0).Refused?
  {}

  // The reply to a dispatch: the header, and then a result for each slot that was sent empty.
  method ReadReply(body: Bytes, args: seq<LocalArg>, sent: seq<Arg>, outers: array<Desc>, ghost reply: Reply)
    returns (ok: bool, results: seq<Result>)
    requires |sent| == |args| && HasOuters(args, SlotsOf(sent), outers.Length)
    requires body != [] ==> ReplyFits(reply) && body == ReplyBytes(reply)
    requires body != [] && reply.status == 0 ==> |reply.results| == |SlotsOf(sent)|
    modifies outers
    ensures ok <==> body != [] && reply.status == 0
    ensures ok ==> results == reply.results && outers[..] == ApplyAll(old(outers[..]), args, SlotsOf(sent), results)
    ensures !ok ==> outers[..] == old(outers[..])
  {
    hide GetReplyHead, GetResult, ReplyBytes, ReplyFits, Holds, ResultsBytes, AllResultsFit;
    results := [];
    var rd := new Reader(body);
    if body == [] {
      NothingInReply();
    } else {
      ReplyStands(reply);
    }
    var status, count;
    ok, status, count := rd.ReplyHeadGet();
    if !ok || status != 0 {
      return false, [];
    }
    ok, results := ReadResults(rd, count, args, sent, outers, reply.results);
  }

  // The loop over the slots.
  method ReadResults(rd: Reader, count: int, args: seq<LocalArg>, sent: seq<Arg>, outers: array<Desc>,
                     ghost rs: seq<Result>)
    returns (ok: bool, results: seq<Result>)
    requires |sent| == |args| && HasOuters(args, SlotsOf(sent), outers.Length) && count == |rs| == |SlotsOf(sent)|
    requires AllResultsFit(rs) && Holds(rd.data, 12, ResultsBytes(rs)) && rd.Valid() && rd.pos == 12 && !rd.underflow
    modifies rd, outers
    ensures ok && results == rs && outers[..] == ApplyAll(old(outers[..]), args, SlotsOf(sent), rs)
  {
    hide GetResult, Holds, ResultFits, SlotsOf, ApplyAll, ResultsBytes, HasOuters, IsEmptySlot, SlotDesc, AllResultsFit;
    ghost var os, slots := outers[..], SlotsOf(sent);
    var i := 0;
    results := [];
    NothingRead(os, args, sent, rs);
    while i < |args|
      invariant 0 <= i <= |args| && rd.Valid() && !rd.underflow && |results| <= |rs| && results == rs[..|results|]
      invariant SlotsOf(sent[..i]) == slots[..|results|] && AllResultsFit(rs[..|results|])
      invariant rd.pos == 12 + |ResultsBytes(rs[..|results|])| && HasOuters(args, slots[..|results|], |os|)
      invariant outers[..] == ApplyAll(os, args, slots[..|results|], rs[..|results|])
    {
      ghost var k := |results|;
      NextSlot(args, sent, i, k, |os|);
      if IsEmptySlot(sent[i]) && count - |results| > 0 {
        ResultStands(rd.data, 12, rs, k);
        var r;
        ok, r := rd.ResultGet();
        if !ok {
          return;
        }
        var d := ApplyResult(r);
        assert rs[..k + 1] == rs[..k] + [r];
        ApplyStep(os, args, slots[..k], rs[..k], i, r);
        outers[args[i].outer] := d;
        results := results + [r];
        assert outers[..] == ApplyAll(os, args, slots[..k + 1], rs[..k + 1]);
      }
      i := i + 1;
    }
    assert sent[..|args|] == sent;
    assert slots[..|rs|] == slots && rs[..|rs|] == rs;
    ok := true;
  }

  lemma NothingRead(outers: seq<Desc>, args: seq<LocalArg>, sent: seq<Arg>, rs: seq<Result>)
    ensures SlotsOf(sent[..0]) == SlotsOf(sent)[..0] == [] && AllResultsFit(rs[..0]) && ResultsBytes(rs[..0]) == []
    ensures HasOuters(args, SlotsOf(sent)[..0], |outers|)
    ensures ApplyAll(outers, args, SlotsOf(sent)[..0], rs[..0]) == outers
  {}

  // The slot that argument `i` is, when it was sent empty.
  lemma NextSlot(args: seq<LocalArg>, sent: seq<Arg>, i: nat, k: nat, n: nat)
    requires |sent| == |args| && i < |args| && HasOuters(args, SlotsOf(sent), n) && k <= |SlotsOf(sent)|
    requires SlotsOf(sent[..i]) == SlotsOf(sent)[..k]
    ensures !IsEmptySlot(sent[i]) ==> SlotsOf(sent[..i + 1]) == SlotsOf(sent)[..k]
    ensures IsEmptySlot(sent[i]) ==>
              && k < |SlotsOf(sent)| && SlotsOf(sent[..i + 1]) == SlotsOf(sent)[..k + 1] == SlotsOf(sent)[..k] + [i]
              && args[i].outer < n
  {
    SlotsStep(sent, i);
    SlotsPrefix(sent, i + 1);
    if IsEmptySlot(sent[i]) {
      assert SlotsOf(sent[..i + 1])[k] == i;
      assert SlotsOf(sent)[k] == i;
    }
  }

  // ---- A whole dispatch ----

  // Which staged buffers the payload says to read back: none, the one behind an argument,
  // or every one.
  datatype Fetching = FetchNothing | FetchArgument(i: nat) | FetchAll

  // The live regions after staging, running and naming the outputs, split into what stays
  // and what is freed.
  lemma AfterRun(w0: State, w1: State, staged: seq<Staged>, contents: seq<Bytes>, dtype: int, e: Effect)
    requires Sound(w1) && StagedOk(w0, w1, staged, contents) && Behaves(w1, e) && e.Runs?
    requires NameOutputs(w1.table, w1.id, dtype, e.outputs).ok
    ensures var results := NameOutputs(w1.table, w1.id, dtype, e.outputs).results;
            var rest := Live(w0.table) + HandlesOf(results);
            && Live(Ran(w1, dtype, e).table) == rest + HandleSet(staged) && rest !! HandleSet(staged)
            && NewHandles(w0, results) && Orphans(Ran(w1, dtype, e)) == Orphans(w0) && OneEach(staged)
  {
    RanRight(w1, dtype, e);
    RanOrphans(w1, dtype, e);
    hide Sound, Live, Orphans, NameOutputs, Behaves, Ran;
    var results := NameOutputs(w1.table, w1.id, dtype, e.outputs).results;
    forall h | h in HandleSet(staged)
      ensures h !in Live(w0.table) && h !in HandlesOf(results)
    {
      var k :| 0 <= k < |staged| && staged[k].handle == h;
      assert StagedAt(w0, w1, staged[k], contents[k]);
      assert h in Live(w1.table);
    }
  }

  // Naming outputs only appends regions.
  lemma {:induction false} RegionsStay(w: State, dtype: int, outputs: seq<Option<Output>>)
    requires |w.table.next| == 256
    ensures w.table.regions <= NameOutputs(w.table, w.id, dtype, outputs).table.regions
  {
    if |outputs| > 0 {
      hide HasRoom, Addr;
      RegionsStay(w, dtype, outputs[..|outputs| - 1]);
    }
  }

  // The buffer behind the base of a region.
  function RemoteAt(w: State, base: nat): nat {
    var ref := Resolve(w.table.regions, base);
    if ref.Nowhere? then 0 else w.table.regions[ref.index].remote
  }

  // A resident buffer, and what an address inside it resolves to.
  lemma ResidentAddress(w: State, base: nat, b: Bytes, at: nat)
    requires Sound(w) && Resident(w, base, b) && at < |b|
    ensures var ref := Resolve(w.table.regions, base + at);
            && ref.Ref? && ref.offset == at && w.table.regions[ref.index].remote == RemoteAt(w, base)
            && w.table.regions[ref.index].base == base && w.table.regions[ref.index].live
            && RemoteAt(w, base) in w.heap && w.heap[RemoteAt(w, base)] == b
  {
    hide Inv, Resolve;
    var i :| 0 <= i < |w.table.regions| && ResidentAt(w, i, base, b);
    ResolveIsLinear(w.table, base + at);
    ResolveIsLinear(w.table, base);
    assert Contains(w.table.regions[i], base + at) && Contains(w.table.regions[i], base);
  }

  // A staged buffer after the run is the plugin's buffer.
  lemma FetchedBuffer(w0: State, w: State, staged: seq<Staged>, contents: seq<Bytes>, dtype: int, e: Effect, k: nat)
    requires Sound(w) && StagedOk(w0, w, staged, contents) && Behaves(w, e) && e.Runs? && k < |staged|
    requires staged[k].bytes != 0
    ensures |w.table.next| == 256 && RemoteAt(w, staged[k].handle) in e.heap && RemoteAt(w, staged[k].handle) in w.heap
    ensures Fetched(Ran(w, dtype, e), staged[k].handle, staged[k].bytes) == e.heap[RemoteAt(w, staged[k].handle)]
    ensures |e.heap[RemoteAt(w, staged[k].handle)]| == staged[k].bytes
  {
    hide Inv, Live, Orphans, NameOutputs, Resolve, RemoteAt, Resident;
    SoundParts(w);
    var w2, h := Ran(w, dtype, e), staged[k].handle;
    RanRight(w, dtype, e);
    RegionsStay(w, dtype, e.outputs);
    assert StagedAt(w0, w, staged[k], contents[k]);
    ResidentAddress(w, h, contents[k], 0);
    RanResident(w, w2, h, contents[k], e);
    FetchedWhole(w2, h, e.heap[RemoteAt(w, h)]);
  }

  lemma RanResident(w: State, w2: State, h: nat, b: Bytes, e: Effect)
    requires Sound(w) && Resident(w, h, b) && |b| > 0 && Behaves(w, e) && e.Runs? && w.table.regions <= w2.table.regions
    requires w2.heap == e.heap
    requires RemoteAt(w, h) in w.heap
    ensures RemoteAt(w, h) in e.heap && |e.heap[RemoteAt(w, h)]| == |b| && Resident(w2, h, e.heap[RemoteAt(w, h)])
  {
    hide Sound, Inv, Resolve;
    ResidentAddress(w, h, b, 0);
    var i := Resolve(w.table.regions, h + 0).index;
    assert w2.table.regions[i] == w.table.regions[i];
    ResidentSize(w, h, b);
    assert ResidentAt(w2, i, h, e.heap[RemoteAt(w, h)]);
  }

  lemma ResidentSize(w: State, h: nat, b: Bytes)
    requires Sound(w) && Resident(w, h, b) && |b| > 0
    ensures var ref := Resolve(w.table.regions, h + 0);
            ref.Ref? && ref.index < |w.table.regions| && w.table.regions[ref.index].size == |b|
  {
    hide Inv, Resolve;
    ResidentAddress(w, h, b, 0);
    assert Backed(w, Resolve(w.table.regions, h + 0).index);
  }

  // Every staged buffer can be read back after the kernel has run.
  lemma StagedFetchable(w0: State, w1: State, staged: seq<Staged>, contents: seq<Bytes>, dtype: int, e: Effect, k: nat)
    requires Sound(w1) && StagedOk(w0, w1, staged, contents) && Behaves(w1, e) && e.Runs? && k < |staged|
    ensures |w1.table.next| == 256 && Fetchable(Ran(w1, dtype, e), staged[k])
  {
    hide Sound, StagedOk, Behaves, Ran, Fetched, RemoteAt;
    SoundParts(w1);
    if staged[k].bytes != 0 {
      FetchedBuffer(w0, w1, staged, contents, dtype, e, k);
    }
  }

  // How a dispatch ends. Only the first is a success to the caller.
  datatype End = Served | NotEncoded(why: Encoding) | TooLong | Declined

  // A payload and arguments as a program can hold them: 64-bit counts do not overflow.
  predicate Countable(payload: Bytes, n: nat) {
    |payload| < 0x4000_0000_0000_0000 && n < 0x10_0000_0000_0000
  }

  lemma {:induction false} ArgsShort(args: seq<Arg>)
    requires AllWellFormed(args)
    ensures |ArgsBytes(args)| <= 144 * |args|
  {
    if |args| > 0 {
      var n := |args| - 1;
      ArgsShort(args[..n]);
      hide WellFormed, IsSlot, Kind, Rank, Elem, AllI64;
      ArgShort(args[n]);
      hide ArgBytes;
    }
  }

  lemma ArgShort(a: Arg)
    requires WellFormed(a) && Sized(a)
    ensures |ArgBytes(a)| <= 144
  {
    hide IsSlot, Kind, Rank, Elem, AllI64;
  }

  // Can the worker serve this dispatch, and what has it become then?
  ghost predicate Completed(w: State, topology: int, d: Dispatch, kernel: Plugin) {
    |w.table.next| == 256 && AllSized(d.args) && DispatchReply(w, topology, d, kernel).status == 0
  }

  lemma DispatchAnswered(w: State, topology: int, kernel: Plugin, d: Dispatch, w': State, f: Frame)
    requires Sound(w) && |w.table.next| == 256 && Sendable(d) && WellBehaved(kernel) && AllSized(d.args)
    requires Answers(w, topology, kernel, Delivery(Frame(DISPATCH, DispatchBytes(d)), BODY_MAX), w', f)
    ensures |DispatchBytes(d)| > BODY_MAX ==> w' == w && f.body == []
    ensures |DispatchBytes(d)| <= BODY_MAX ==>
              && w' == Dispatched(w, topology, d, kernel) && ReplyFits(DispatchReply(w, topology, d, kernel))
              && f.body == ReplyBytes(DispatchReply(w, topology, d, kernel)) && |f.body| <= 4096 && f.body != []
  {
    hide Sound, GetDispatch, DispatchBytes, AnswersTransfer, AnswersFetch, AnswersFree, Sendable, WellBehaved;
    hide Dispatched, DispatchReply, ReplyBytes;
    if |DispatchBytes(d)| <= BODY_MAX {
      WholeHolds(DispatchBytes(d));
      DispatchBack(DispatchBytes(d), 0, d);
      ReplyIsSmall(w, topology, d, kernel);
      ReplyNotEmpty(DispatchReply(w, topology, d, kernel));
    }
  }

  lemma ReplyNotEmpty(m: Reply)
    requires ReplyFits(m)
    ensures ReplyBytes(m) != []
  {}

  // A run that answers with status 0 names an output for each slot that was sent empty.
  lemma ResultForEach(w: State, topology: int, d: Dispatch, kernel: Plugin)
    requires AllSized(d.args) && |w.table.next| == 256 && WellBehaved(kernel)
    requires DispatchReply(w, topology, d, kernel).status == 0
    ensures CanRun(w, topology, d, kernel) && |DispatchReply(w, topology, d, kernel).results| == |SlotsOf(d.args)|
    ensures var e := kernel(w, Handed(w, d, topology));
            && e.Runs? && Behaves(w, e) && NameOutputs(w.table, w.id, e.dtype, e.outputs).ok
            && Dispatched(w, topology, d, kernel) == Ran(w, e.dtype, e)
            && DispatchReply(w, topology, d, kernel).results == NameOutputs(w.table, w.id, e.dtype, e.outputs).results
  {
    PluginFills(w, topology, d, kernel);
  }

  // The message of a dispatch, when it fits in the scratch buffer.
  method EncodeDispatch(d: Dispatch, scratch: nat) returns (ok: bool, message: Bytes)
    requires Sendable(d)
    ensures ok <==> |DispatchBytes(d)| <= scratch
    ensures ok ==> message == DispatchBytes(d)
  {
    hide DispatchBytes, Wrote, Sendable;
    var buf := new Byte[scratch](i => 0);
    var w := new Writer(buf);
    w.PutDispatch(d);
    WroteOrNot(scratch, DispatchBytes(d), w.State());
    ok, message := !w.overflow, buf[..w.len];
  }

  // Send a dispatch and apply its reply. `fits` tells whether it was sent.
  method SendDispatch(fd: Link, d: Dispatch, args: seq<LocalArg>, outers: array<Desc>, scratch: nat)
    returns (fits: bool, ok: bool, results: seq<Result>)
    requires fd.Valid() && fd.Quiet() && Sendable(d) && AllSized(d.args) && |d.args| == |args|
    requires HasOuters(args, SlotsOf(d.args), outers.Length)
    modifies fd.Parts(), outers
    ensures fd.Valid() && fd.Quiet() && fd.refused == old(fd.refused) && |old(fd.Now()).table.next| == 256
    ensures fits <==> |DispatchBytes(d)| <= scratch
    ensures !fits || |DispatchBytes(d)| > BODY_MAX ==> !ok && fd.Now() == old(fd.Now())
    ensures fits && |DispatchBytes(d)| <= BODY_MAX ==>
              && fd.Now() == Dispatched(old(fd.Now()), fd.worker.topology, d, fd.kernel)
              && (ok <==> Completed(old(fd.Now()), fd.worker.topology, d, fd.kernel))
    ensures ok ==>
              && results == DispatchReply(old(fd.Now()), fd.worker.topology, d, fd.kernel).results
              && |results| == |SlotsOf(d.args)|
              && outers[..] == ApplyAll(old(outers[..]), args, SlotsOf(d.args), results)
    ensures !ok ==> outers[..] == old(outers[..])
  {
    hide Sound, WellBehaved, Benign, Answers, FrameBytes, DispatchBytes, Dispatched, DispatchReply, Sendable, AllSized;
    hide ReplyFits, ReplyBytes, CanRun, NameOutputs, Ran, ApplyAll, SlotsOf, HasOuters, Behaves, Handed;
    ghost var before, os := fd.Now(), outers[..];
    SoundParts(before);
    results, ok := [], false;
    var message;
    fits, message := EncodeDispatch(d, scratch);
    assert fd.Valid() && fd.Quiet() && fd.Now() == before && outers[..] == os;
    if !fits {
      return;
    }
    SmallMessage(d);
    var r;
    ghost var f;
    r, f := fd.RoundTrip(DISPATCH, message, 4096);
    ghost var after := fd.Now();
    DispatchAnswered(before, fd.worker.topology, fd.kernel, d, after, f);
    ghost var reply := DispatchReply(before, fd.worker.topology, d, fd.kernel);
    if reply.status == 0 {
      ResultForEach(before, fd.worker.topology, d, fd.kernel);
    }
    assert outers[..] == os;
    ok, results := ReadReply(r.body, args, d.args, outers, reply);
    assert fd.Valid() && fd.Quiet() && fd.Now() == after;
  }

  // What was sent: every argument in local memory reads on the worker what it reads here, and exactly
  // the staged buffers are new there.
  ghost predicate SentRight(w0: State, w: State, payload: Bytes, args: seq<LocalArg>, descs: seq<Desc>, sent: seq<Arg>,
                            staged: seq<Staged>, contents: seq<Bytes>, m: seq<Byte>)
    requires AllGood(args, descs)
  {
    && |sent| == |args| && AllSized(sent) && Sendable(Dispatch(payload, sent)) && Sound(w) && |w.table.next| == 256
    && StagedSince(w0, w, staged) && AllReadSame(args, descs, sent, w, m) && AllArrive(args, descs, sent, w, m)
    && StagedOk(w0, w, staged, contents) && Imaged(staged, contents, m) && AllHome(staged, |m|)
    && (forall i :: 0 <= i < |args| ==> SentAs(args[i], sent[i], descs, staged, contents, m))
  }

  // What a served dispatch leaves on the worker: what was there, and the results under new handles.
  ghost predicate LeftRight(w0: State, w: State, results: seq<Result>) {
    Live(w.table) == Live(w0.table) + HandlesOf(results) && NewHandles(w0, results) && Orphans(w) == Orphans(w0)
  }

  // Every result is there, under its handle and in its shape: what the plugin published in the slot.
  ghost predicate ResultsThere(w: State, e: Effect, results: seq<Result>) {
    && e.Runs? && |results| == |e.outputs|
    && forall j :: 0 <= j < |results| ==>
         && e.outputs[j].Some? && e.outputs[j].value.remote in e.heap && results[j].sizes == e.outputs[j].value.sizes
         && Resident(w, results[j].handle, e.heap[e.outputs[j].value.remote])
  }

  lemma AllResultsHold(w: State, topology: int, d: Dispatch, kernel: Plugin)
    requires Sound(w) && WellBehaved(kernel) && Completed(w, topology, d, kernel)
    ensures ResultsThere(Dispatched(w, topology, d, kernel), kernel(w, Handed(w, d, topology)),
                         DispatchReply(w, topology, d, kernel).results)
  {
    hide Sound, NameOutputs, Ran, Behaves, CanRun, Resident, Handed, Dispatched, DispatchReply;
    SoundParts(w);
    ResultForEach(w, topology, d, kernel);
    var e := kernel(w, Handed(w, d, topology));
    NamedLength(w, e);
    forall j | 0 <= j < |e.outputs|
      ensures e.outputs[j].Some? && e.outputs[j].value.remote in e.heap
      ensures NameOutputs(w.table, w.id, e.dtype, e.outputs).results[j].sizes == e.outputs[j].value.sizes
      ensures Resident(Ran(w, e.dtype, e), NameOutputs(w.table, w.id, e.dtype, e.outputs).results[j].handle,
                       e.heap[e.outputs[j].value.remote])
    {
      ResultsHold(w, e.dtype, e, j);
    }
  }

  lemma NamedLength(w: State, e: Effect)
    requires |w.table.next| == 256 && e.Runs? && NameOutputs(w.table, w.id, e.dtype, e.outputs).ok
    ensures |NameOutputs(w.table, w.id, e.dtype, e.outputs).results| == |e.outputs|
  {}

  lemma ResultsStay(w: State, w': State, e: Effect, results: seq<Result>, handles: set<nat>)
    requires ResultsThere(w, e, results) && KeepsAll(w, w', handles) && HandlesOf(results) <= handles
    ensures ResultsThere(w', e, results)
  {
    hide Resident;
    forall j | 0 <= j < |results|
      ensures Resident(w', results[j].handle, e.heap[e.outputs[j].value.remote])
    {
      assert results[j].handle in HandlesOf(results);
    }
  }

  // What is brought back from state `w`.
  ghost predicate BroughtFor(fetching: Fetching, m: seq<Byte>, m': seq<Byte>, sent: seq<Arg>, staged: seq<Staged>,
                             w: State) {
    match fetching
    case FetchNothing => m' == m
    case FetchAll => AllHome(staged, |m|) && BroughtBack(m, m', staged, |staged|, w)
    case FetchArgument(i) => FetchedFor(m, m', sent, staged, i, w)
  }

  // What was staged is live, and so there is nothing of it or it shows.
  lemma StagedLive(w0: State, w: State, staged: seq<Staged>, contents: seq<Bytes>)
    requires StagedOk(w0, w, staged, contents)
    ensures HandleSet(staged) <= Live(w.table) && (HandleSet(staged) == {} <==> staged == [])
  {
    if staged != [] {
      assert staged[0].handle in HandleSet(staged);
    }
  }

  // A dispatch, also one that the worker declines, releases nothing.
  lemma StagedStay(w0: State, w: State, staged: seq<Staged>, contents: seq<Bytes>, topology: int, d: Dispatch,
                   kernel: Plugin)
    requires Sound(w) && StagedOk(w0, w, staged, contents) && WellBehaved(kernel)
    requires AllSized(d.args) && |w.table.next| == 256
    ensures HandleSet(staged) <= Live(Dispatched(w, topology, d, kernel).table)
  {
    hide StagedOk, Live, Sound, NameOutputs, Ran, HandleSet;
    StagedLive(w0, w, staged, contents);
    if CanRun(w, topology, d, kernel) {
      var e := kernel(w, Handed(w, d, topology));
      RanRight(w, e.dtype, e);
    }
  }

  // vx_remote_dispatch_staged. `before` and `ran` are the worker's state when it takes the dispatch and
  // when the kernel has run.
  method RemoteDispatch(fd: Link, mem: array<Byte>, payload: Bytes, args: seq<LocalArg>, descs: seq<Desc>,
                        outers: array<Desc>, fetching: Fetching, scratch: nat)
    returns (end: End, results: seq<Result>, ghost sent: seq<Arg>, ghost staged: seq<Staged>,
             ghost contents: seq<Bytes>, ghost before: State, ghost ran: State)
    requires fd.Valid() && fd.Quiet() && AllGood(args, descs) && Mapped(args, descs, mem.Length) && mem.Length < TWO_63
    requires Countable(payload, |args|)
    requires forall i :: 0 <= i < |args| && IsSlot(args[i].tag) ==> args[i].outer < outers.Length
    modifies fd.Parts(), mem, outers
    ensures fd.Valid() && fd.Quiet()
    ensures StagedOk(old(fd.Now()), before, staged, contents)
    ensures HandleSet(staged) !! Live(fd.Now().table) <==> end.Served? || staged == []
    ensures !end.Served? ==> HandleSet(staged) <= Live(fd.Now().table)
    ensures !end.NotEncoded? ==>
              SentRight(old(fd.Now()), before, payload, args, descs, sent, staged, contents, old(mem[..]))
    ensures end.Served? ==>
              && LeftRight(old(fd.Now()), fd.Now(), results)
              && Completed(before, fd.worker.topology, Dispatch(payload, sent), fd.kernel)
              && ran == Dispatched(before, fd.worker.topology, Dispatch(payload, sent), fd.kernel)
              && results == DispatchReply(before, fd.worker.topology, Dispatch(payload, sent), fd.kernel).results
              && BroughtFor(fetching, old(mem[..]), mem[..], sent, staged, ran)
              && var d := Dispatch(payload, sent);
                 ResultsThere(fd.Now(), fd.kernel(before, Handed(before, d, fd.worker.topology)), results)
    ensures end.Served? ==>
              && |results| == |SlotsOf(sent)| && HasOuters(args, SlotsOf(sent), outers.Length)
              && outers[..] == ApplyAll(old(outers[..]), args, SlotsOf(sent), results)
    ensures !end.Served? ==> mem[..] == old(mem[..]) && outers[..] == old(outers[..])
    ensures end.NotEncoded? ==>
              && !end.why.Encoded? && fd.Now() == before
              && (end.why.NotSent? ==> Excused(end.why.why, args, descs, fd.refused > old(fd.refused)))
    ensures end.TooLong? ==> |DispatchBytes(Dispatch(payload, sent))| > scratch && fd.Now() == before
    ensures end.Declined? ==>
              if |DispatchBytes(Dispatch(payload, sent))| > BODY_MAX then fd.Now() == before
              else
                && !Completed(before, fd.worker.topology, Dispatch(payload, sent), fd.kernel)
                && fd.Now() == Dispatched(before, fd.worker.topology, Dispatch(payload, sent), fd.kernel)
  {
    hide Sound, Inv, StagedOk, SentAs, GoodArg, AllHome, IsLocal, Mapped, Excused, ArgsBytes, AllReadSame;
    hide DispatchBytes, Dispatched, DispatchReply, Sendable, AllSized, WellBehaved, Benign, StagedSince, LeftRight;
    hide Imaged, BroughtFor, ApplyAll, SlotsOf, HasOuters, Completed, ResultsThere, Handed;
    ghost var w0, os, m := fd.Now(), outers[..], mem[..];
    end, results, sent, staged, contents, before, ran := Served, [], [], [], [], w0, w0;
    var enc;
    enc, staged, contents := EncodeArgs(fd, mem, args, descs, scratch);
    assert outers[..] == os;
    before := fd.Now();
    StagedLive(w0, before, staged, contents);
    if !enc.Encoded? {
      end := NotEncoded(enc);
      return;
    }
    sent := enc.args;
    StagedFacts(w0, before, args, enc.args, descs, enc.staged, contents, m, payload, outers.Length);
    var d := Dispatch(payload, enc.args);
    var fits, ok;
    fits, ok, results := SendDispatch(fd, d, args, outers, scratch);
    assert mem[..] == m;
    if !ok {
      end := if fits then Declined else TooLong;
      StagedStay(w0, before, staged, contents, fd.worker.topology, d, fd.kernel);
      return;
    }
    ran := fd.Now();
    ghost var os' := outers[..];
    Finish(fd, mem, enc.args, enc.staged, fetching, results, w0, before, d, contents);
    assert outers[..] == os';
  }

  // Bring back what the payload says, and free what was staged.
  method Finish(fd: Link, mem: array<Byte>, sent: seq<Arg>, staged: seq<Staged>, fetching: Fetching,
                ghost results: seq<Result>, ghost w0: State, ghost w1: State, ghost d: Dispatch,
                ghost contents: seq<Bytes>)
    requires fd.Valid() && fd.Quiet() && AllHome(staged, mem.Length)
    requires Sound(w1) && StagedOk(w0, w1, staged, contents) && Completed(w1, fd.worker.topology, d, fd.kernel)
    requires fd.Now() == Dispatched(w1, fd.worker.topology, d, fd.kernel)
    requires results == DispatchReply(w1, fd.worker.topology, d, fd.kernel).results
    requires forall k :: 0 <= k < |staged| ==> Nameable(staged[k])
    modifies fd.Parts(), mem
    ensures fd.Valid() && fd.Quiet() && LeftRight(w0, fd.Now(), results) && HandleSet(staged) !! Live(fd.Now().table)
    ensures ResultsThere(fd.Now(), fd.kernel(w1, Handed(w1, d, fd.worker.topology)), results)
    ensures BroughtFor(fetching, old(mem[..]), mem[..], sent, staged, old(fd.Now()))
  {
    hide Sound, StagedOk, AllHome, DispatchReply, Dispatched, WellBehaved, Benign, BroughtBack, FetchedFor, Live;
    hide Orphans, Fetchable, ResultsThere, KeepsAll, Handed;
    Ready(w0, w1, staged, contents, fd.worker.topology, d, fd.kernel);
    var ok := BringBack(fd, mem, sent, staged, fetching);
    ghost var m := mem[..];
    AllResultsHold(w1, fd.worker.topology, d, fd.kernel);
    ghost var w2, rest := fd.Now(), Live(w0.table) + HandlesOf(results);
    FreeStaged(fd, staged, rest);
    assert mem[..] == m;
    ResultsStay(w2, fd.Now(), fd.kernel(w1, Handed(w1, d, fd.worker.topology)), results, rest);
  }

  // What is known once the arguments are encoded.
  lemma StagedFacts(w0: State, w: State, args: seq<LocalArg>, sent: seq<Arg>, descs: seq<Desc>, staged: seq<Staged>,
                    contents: seq<Bytes>, m: seq<Byte>, payload: Bytes, n: nat)
    requires Sound(w) && StagedOk(w0, w, staged, contents) && AllGood(args, descs) && |sent| == |args|
    requires forall i :: 0 <= i < |args| ==> SentAs(args[i], sent[i], descs, staged, contents, m)
    requires Countable(payload, |args|) && forall i :: 0 <= i < |args| && IsSlot(args[i].tag) ==> args[i].outer < n
    ensures AllSized(sent) && Sendable(Dispatch(payload, sent)) && |w.table.next| == 256 && StagedSince(w0, w, staged)
    ensures AllReadSame(args, descs, sent, w, m) && AllArrive(args, descs, sent, w, m)
    ensures HasOuters(args, SlotsOf(sent), n)
    ensures forall k :: 0 <= k < |staged| ==> Nameable(staged[k])
  {
    EncodedWellFormed(args, sent, descs, staged, contents, m);
    StagedSinceThen(w0, w, staged, contents);
    AllStagedRead(w0, w, args, sent, descs, staged, contents, m);
    ArgsShort(sent);
    AllNameable(w0, w, staged, contents);
    SoundParts(w);
    AreSized(sent);
    EveryoneArrives(w0, w, args, sent, descs, staged, contents, m);
    hide *;
    assert HasOuters(args, SlotsOf(sent), n) by {
      SlotsHaveOuters(args, sent, descs, staged, contents, m, n);
    }
    SendableNow(payload, sent);
  }

  lemma AreSized(args: seq<Arg>)
    requires AllWellFormed(args)
    ensures AllSized(args)
  {}

  lemma SendableNow(payload: Bytes, args: seq<Arg>)
    requires Countable(payload, |args|) && AllWellFormed(args) && |ArgsBytes(args)| <= 144 * |args|
    ensures Sendable(Dispatch(payload, args))
  {
    hide ArgsBytes, AllWellFormed;
  }

  lemma SlotsHaveOuters(args: seq<LocalArg>, sent: seq<Arg>, descs: seq<Desc>, staged: seq<Staged>,
                        contents: seq<Bytes>, m: seq<Byte>, n: nat)
    requires AllGood(args, descs) && |sent| == |args|
    requires forall i :: 0 <= i < |args| ==> SentAs(args[i], sent[i], descs, staged, contents, m)
    requires forall i :: 0 <= i < |args| && IsSlot(args[i].tag) ==> args[i].outer < n
    ensures HasOuters(args, SlotsOf(sent), n)
  {
    hide SentAs, IsSlot;
    forall j | 0 <= j < |SlotsOf(sent)|
      ensures args[SlotsOf(sent)[j]].outer < n
    {
      SentTag(args[SlotsOf(sent)[j]], sent[SlotsOf(sent)[j]], descs, staged, contents, m);
    }
  }

  lemma SentTag(a: LocalArg, out: Arg, descs: seq<Desc>, staged: seq<Staged>, contents: seq<Bytes>, m: seq<Byte>)
    requires GoodArg(a, descs) && SentAs(a, out, descs, staged, contents, m)
    ensures out.tag == a.tag
  {
    hide Carried, IsSlot, Kind, Elem, Rank, IsHandle;
  }

  lemma AllNameable(w0: State, w: State, staged: seq<Staged>, contents: seq<Bytes>)
    requires StagedOk(w0, w, staged, contents)
    ensures forall k :: 0 <= k < |staged| ==> Nameable(staged[k])
  {
    hide Live, Orphans, Resident;
    forall k | 0 <= k < |staged|
      ensures Nameable(staged[k])
    {
      assert StagedAt(w0, w, staged[k], contents[k]);
    }
  }

  // After a run that named every output, everything staged can be fetched and freed.
  lemma Ready(w0: State, w1: State, staged: seq<Staged>, contents: seq<Bytes>, topology: int, d: Dispatch,
              kernel: Plugin)
    requires Sound(w1) && StagedOk(w0, w1, staged, contents) && WellBehaved(kernel)
    requires Completed(w1, topology, d, kernel)
    ensures var w2, results := Dispatched(w1, topology, d, kernel), DispatchReply(w1, topology, d, kernel).results;
            var rest := Live(w0.table) + HandlesOf(results);
            && Live(w2.table) == rest + HandleSet(staged) && rest !! HandleSet(staged)
            && NewHandles(w0, results) && Orphans(w2) == Orphans(w0) && OneEach(staged)
            && forall k :: 0 <= k < |staged| ==> Fetchable(w2, staged[k])
  {
    hide StagedOk, NameOutputs, Ran, Behaves, Live, Orphans, Fetchable, CanRun, Sound;
    SoundParts(w1);
    ResultForEach(w1, topology, d, kernel);
    var e := kernel(w1, Handed(w1, d, topology));
    AfterRun(w0, w1, staged, contents, e.dtype, e);
    forall k | 0 <= k < |staged|
      ensures Fetchable(Ran(w1, e.dtype, e), staged[k])
    {
      StagedFetchable(w0, w1, staged, contents, e.dtype, e, k);
    }
  }

  // Every argument in local memory resolves on the worker, fits in its region, and reads
  // the values it has here.
  ghost predicate AllReadSame(args: seq<LocalArg>, descs: seq<Desc>, sent: seq<Arg>, w: State, m: seq<Byte>)
    requires AllGood(args, descs)
  {
    |sent| == |args| && forall i :: 0 <= i < |args| && IsLocal(args[i], descs) ==>
      ReadsSame(w, sent[i], m, descs[args[i].desc])
  }

  // However the worker rebuilds what was sent, it gets what must arrive.
  ghost predicate AllArrive(args: seq<LocalArg>, descs: seq<Desc>, sent: seq<Arg>, w: State, m: seq<Byte>)
    requires AllGood(args, descs)
  {
    && |sent| == |args| && AllSized(sent)
    && (forall i :: 0 <= i < |args| ==> sent[i].tag == args[i].tag)
    && forall i, r :: 0 <= i < |args| && Rebuilds(w.table.regions, sent[i], r) ==> ArrivesAs(w, args[i], descs, m, r)
  }

  lemma EveryoneArrives(w0: State, w: State, args: seq<LocalArg>, sent: seq<Arg>, descs: seq<Desc>,
                        staged: seq<Staged>, contents: seq<Bytes>, m: seq<Byte>)
    requires Sound(w) && StagedOk(w0, w, staged, contents) && AllGood(args, descs) && |sent| == |args| && AllSized(sent)
    requires forall i :: 0 <= i < |args| ==> SentAs(args[i], sent[i], descs, staged, contents, m)
    ensures AllArrive(args, descs, sent, w, m)
  {
    hide Sound, StagedOk, SentAs, ArrivesAs, Rebuilds, Sized, GoodArg;
    forall i | 0 <= i < |args|
      ensures sent[i].tag == args[i].tag
    {
      SentTag(args[i], sent[i], descs, staged, contents, m);
    }
    forall i, r | 0 <= i < |args| && Rebuilds(w.table.regions, sent[i], r)
      ensures ArrivesAs(w, args[i], descs, m, r)
    {
      Arrives(w0, w, args[i], sent[i], descs, staged, contents, m, r);
    }
  }

  // So every launch for the dispatch has the arguments of the call.
  lemma LaunchArrives(w0: State, w: State, payload: Bytes, args: seq<LocalArg>, descs: seq<Desc>, sent: seq<Arg>,
                      staged: seq<Staged>, contents: seq<Bytes>, m: seq<Byte>, topology: int, h: Launch)
    requires AllGood(args, descs) && SentRight(w0, w, payload, args, descs, sent, staged, contents, m)
    requires LaunchRight(w, Dispatch(payload, sent), topology, h)
    ensures |h.args| == |h.tags| == |args|
    ensures forall i :: 0 <= i < |args| ==> h.tags[i] == args[i].tag && ArrivesAs(w, args[i], descs, m, h.args[i])
  {
    hide Sound, StagedOk, SentAs, ArrivesAs, Rebuilds, Sized, GoodArg, Sendable, Retarget.NamesDevice;
  }

  lemma AllStagedRead(w0: State, w: State, args: seq<LocalArg>, sent: seq<Arg>, descs: seq<Desc>, staged: seq<Staged>,
                      contents: seq<Bytes>, m: seq<Byte>)
    requires Sound(w) && StagedOk(w0, w, staged, contents) && AllGood(args, descs) && |sent| == |args|
    requires forall i :: 0 <= i < |args| ==> SentAs(args[i], sent[i], descs, staged, contents, m)
    ensures AllReadSame(args, descs, sent, w, m)
  {
    hide Sound, StagedOk, SentAs, ReadsSame, IsHandle, IsSlot, Kind, Elem, Rank, AllI64;
    forall i | 0 <= i < |args| && IsLocal(args[i], descs)
      ensures ReadsSame(w, sent[i], m, descs[args[i].desc])
    {
      LocalIsCarried(args[i], sent[i], descs, staged, contents, m);
      StagedReadsSame(w0, w, staged, contents, sent[i], m, descs[args[i].desc]);
    }
  }

  lemma LocalIsCarried(a: LocalArg, out: Arg, descs: seq<Desc>, staged: seq<Staged>, contents: seq<Bytes>, m: seq<Byte>)
    requires GoodArg(a, descs) && SentAs(a, out, descs, staged, contents, m) && IsLocal(a, descs)
    ensures 0 <= a.desc < |descs| && Carried(out, staged, contents, m, descs[a.desc])
  {
    hide Carried, IsHandle, IsSlot, Kind, Elem, Rank;
  }

  // Exactly these buffers were added, and they are still there.
  ghost predicate StagedSince(w0: State, w: State, staged: seq<Staged>) {
    Live(w.table) == Live(w0.table) + HandleSet(staged) && Live(w0.table) !! HandleSet(staged) && OneEach(staged)
  }

  lemma StagedSinceThen(w0: State, w: State, staged: seq<Staged>, contents: seq<Bytes>)
    requires StagedOk(w0, w, staged, contents)
    ensures StagedSince(w0, w, staged)
  {
    hide Live, Orphans, Resident;
    forall h | h in HandleSet(staged)
      ensures h !in Live(w0.table)
    {
      var k :| 0 <= k < |staged| && staged[k].handle == h;
      assert StagedAt(w0, w, staged[k], contents[k]);
    }
  }

  lemma EncodedWellFormed(args: seq<LocalArg>, out: seq<Arg>, descs: seq<Desc>, staged: seq<Staged>,
                          contents: seq<Bytes>, m: seq<Byte>)
    requires AllGood(args, descs) && |out| == |args|
    requires forall i :: 0 <= i < |args| ==> SentAs(args[i], out[i], descs, staged, contents, m)
    ensures AllWellFormed(out)
  {
    hide SentAs, GoodArg, WellFormed, Sized;
    forall i | 0 <= i < |out|
      ensures WellFormed(out[i]) && Sized(out[i])
    {
      SentWellFormed(args[i], out[i], descs, staged, contents, m);
      SizedIfWellFormed(out[i]);
    }
  }

  // What the payload says to read back.
  method BringBack(fd: Link, mem: array<Byte>, args: seq<Arg>, staged: seq<Staged>, fetching: Fetching)
    returns (ok: bool)
    requires fd.Valid() && fd.Quiet() && AllHome(staged, mem.Length)
    requires forall k :: 0 <= k < |staged| ==> Nameable(staged[k])
    modifies fd.Parts(), mem
    ensures fd.Valid() && fd.Quiet() && fd.Now() == old(fd.Now()) && fd.refused == old(fd.refused)
    ensures fetching.FetchNothing? ==> ok && mem[..] == old(mem[..])
    ensures fetching.FetchAll? && ok ==> BroughtBack(old(mem[..]), mem[..], staged, |staged|, fd.Now())
    ensures fetching.FetchArgument? && ok ==> FetchedFor(old(mem[..]), mem[..], args, staged, fetching.i, fd.Now())
    ensures ok <== forall k :: 0 <= k < |staged| ==> Fetchable(fd.Now(), staged[k])
  {
    hide Sound, Inv, Fetched, HostsOfStaged, BroughtBack, Home, WellBehaved, Benign;
    ok := true;
    match fetching
    case FetchNothing =>
    case FetchAll => ok := FetchEvery(fd, mem, staged);
    case FetchArgument(i) =>
      if i < |args| && args[i].handle != 0 {
        var k := FindStaged(staged, args[i].handle);
        if k < |staged| {
          assert IsTarget(args, staged, i, k);
          ok := FetchStaged(fd, mem, staged[k]);
        }
      }
  }

  // Argument `i` names the staged buffer `k`.
  predicate IsTarget(args: seq<Arg>, staged: seq<Staged>, i: nat, k: nat) {
    && i < |args| && args[i].handle != 0 && k < |staged| && Covers(staged[k], args[i].handle)
    && forall j :: 0 <= j < k ==> !Covers(staged[j], args[i].handle)
  }

  // The buffer behind argument `i` was read back, if this call staged it.
  ghost predicate FetchedFor(m: seq<Byte>, m': seq<Byte>, args: seq<Arg>, staged: seq<Staged>, i: nat, w: State) {
    && ((forall k: nat :: !IsTarget(args, staged, i, k)) ==> m' == m)
    && (forall k: nat :: IsTarget(args, staged, i, k) ==>
          if staged[k].bytes == 0 then m' == m
          else WrittenTo(m, m', HostsOfStaged(staged[k]), Fetched(w, staged[k].handle, staged[k].bytes)))
  }

  // ---- What the program reads afterwards ----

  // The arguments that are read back.
  predicate ReadsBack(fetching: Fetching, i: nat) {
    fetching.FetchAll? || (fetching.FetchArgument? && fetching.i == i)
  }

  // The staged buffer that carries an argument covers its handle.
  lemma CarrierCovers(out: Arg, s: Staged, at: nat, b: Bytes, m: seq<Byte>, d: Desc)
    requires CarriedBy(out, s, at, b, m, d) && (s.bytes != 0 ==> |b| == s.bytes)
    ensures s.bytes != 0 ==> Covers(s, out.handle)
  {
    hide SameCells, FitsIn, SameValues, AllI64;
  }

  // Once its buffer is brought back, an argument reads here what the plugin left in it there.
  lemma CarriedBack(w0: State, w: State, staged: seq<Staged>, contents: seq<Bytes>, e: Effect, out: Arg, r: Rebuilt,
                    m: seq<Byte>, d: Desc, m': seq<Byte>, j: nat, at: nat)
    requires Sound(w) && StagedOk(w0, w, staged, contents) && Behaves(w, e) && e.Runs? && |w.table.next| == 256
    requires j < |staged| && j < |contents| && CarriedBy(out, staged[j], at, contents[j], m, d)
    requires Sized(out) && NamesView(w.table.regions, out, r) && Home(staged[j], |m'|)
    requires staged[j].bytes != 0 ==> BroughtOne(m', staged[j], Ran(w, e.dtype, e))
    ensures ReadsAs(e.heap, r, DtypeBytes(Elem(out.tag)), m', d)
  {
    hide Sound, Live, Orphans, Resident, RemoteAt, HostsOfStaged, Elem, AllI64, FitsIn, SameValues, Resolve, Fetched;
    hide Ran, Behaves, NameOutputs, Linear, Staging.ElementByte, DtypeBytes;
    var s, b := staged[j], DtypeBytes(Elem(out.tag));
    assert StagedAt(w0, w, s, contents[j]);
    ResidentAddress(w, s.handle, contents[j], at);
    KeptBuffer(w, e, RemoteAt(w, s.handle));
    if s.bytes != 0 {
      FetchedBuffer(w0, w, staged, contents, e.dtype, e, j);
    } else {
      NoPlaces(s);
    }
    forall t, k | InRange(t, r.sizes) && 0 <= k < b
      ensures SameByte(r.strides, r.offset, e.heap[r.remote], m', d, b, t, k)
    {
      assert IsCell(out.strides, at, HostsOfStaged(s), d, b, t, k);
    }
  }

  lemma KeptBuffer(w: State, e: Effect, p: nat)
    requires Behaves(w, e) && e.Runs? && p in w.heap
    ensures p in e.heap && |e.heap[p]| == |w.heap[p]|
  {}

  lemma NoPlaces(s: Staged)
    requires s.bytes == 0
    ensures HostsOfStaged(s) == []
  {}

  // After a dispatch that is served, every local argument that was asked for reads what the plugin left.
  lemma ArgumentBack(w0: State, w: State, payload: Bytes, args: seq<LocalArg>, descs: seq<Desc>, sent: seq<Arg>,
                     staged: seq<Staged>, contents: seq<Bytes>, m: seq<Byte>, topology: int, kernel: Plugin,
                     fetching: Fetching, m': seq<Byte>, i: nat, r: Rebuilt)
    requires AllGood(args, descs) && SentRight(w0, w, payload, args, descs, sent, staged, contents, m)
    requires WellBehaved(kernel) && Completed(w, topology, Dispatch(payload, sent), kernel)
    requires BroughtFor(fetching, m, m', sent, staged, Dispatched(w, topology, Dispatch(payload, sent), kernel))
    requires ReadsBack(fetching, i) && i < |args| && IsLocal(args[i], descs) && args[i].desc >= 0
    requires NamesView(w.table.regions, sent[i], r)
    ensures var e := kernel(w, Handed(w, Dispatch(payload, sent), topology));
            e.Runs? && ReadsAs(e.heap, r, DtypeBytes(Elem(sent[i].tag)), m', descs[args[i].desc])
  {
    hide Sound, StagedOk, Imaged, SentAs, DispatchReply, Dispatched, Behaves, NameOutputs, Ran, CanRun, CarriedBy;
    hide Sendable, AllReadSame, AllArrive, StagedSince, GoodArg, IsLocal, WellBehaved, ReadsAs, NamesView, Handed;
    hide Sized;
    hide Home, HostsOfStaged, Fetched, NoneShared;
    var d := Dispatch(payload, sent);
    ResultForEach(w, topology, d, kernel);
    var e := kernel(w, Handed(w, d, topology));
    LocalIsCarried(args[i], sent[i], descs, staged, contents, m);
    var j, at: nat :| 0 <= j < |staged| && j < |contents|
                      && CarriedBy(sent[i], staged[j], at, contents[j], m, descs[args[i].desc]);
    StagedBytes(w0, w, staged, contents, j);
    CarrierCovers(sent[i], staged[j], at, contents[j], m, descs[args[i].desc]);
    if staged[j].bytes != 0 {
      BroughtCarrier(w0, w, args, sent, staged, contents, m, fetching, m', Ran(w, e.dtype, e), i, j);
    }
    LengthStays(fetching, m, m', sent, staged, Ran(w, e.dtype, e));
    CarriedBack(w0, w, staged, contents, e, sent[i], r, m, descs[args[i].desc], m', j, at);
  }

  lemma StagedBytes(w0: State, w: State, staged: seq<Staged>, contents: seq<Bytes>, j: nat)
    requires StagedOk(w0, w, staged, contents) && j < |staged|
    ensures |contents| == |staged| && (staged[j].bytes != 0 ==> |contents[j]| == staged[j].bytes)
  {
    hide Live, Orphans, Resident;
    assert StagedAt(w0, w, staged[j], contents[j]);
  }

  lemma LengthStays(fetching: Fetching, m: seq<Byte>, m': seq<Byte>, sent: seq<Arg>, staged: seq<Staged>, w: State)
    requires BroughtFor(fetching, m, m', sent, staged, w)
    ensures |m'| == |m|
  {
    hide HostsOfStaged, Fetched, Covers, AllHome;
  }

  // The carrier of an argument that is read back is brought back.
  lemma BroughtCarrier(w0: State, w: State, args: seq<LocalArg>, sent: seq<Arg>, staged: seq<Staged>,
                       contents: seq<Bytes>, m: seq<Byte>, fetching: Fetching, m': seq<Byte>, w2: State, i: nat, j: nat)
    requires Sound(w) && StagedOk(w0, w, staged, contents) && |sent| == |args| && AllHome(staged, |m|)
    requires BroughtFor(fetching, m, m', sent, staged, w2) && ReadsBack(fetching, i) && i < |sent|
    requires j < |staged| && staged[j].bytes != 0 && Covers(staged[j], sent[i].handle)
    ensures |m'| == |m| && Home(staged[j], |m'|) && BroughtOne(m', staged[j], w2)
  {
    hide Sound, HostsOfStaged, Fetched;
    assert StagedAt(w0, w, staged[j], contents[j]);
    hide StagedOk;
    LengthStays(fetching, m, m', sent, staged, w2);
    if fetching.FetchArgument? {
      assert IsTarget(sent, staged, i, j) by {
        forall k | 0 <= k < j
          ensures !Covers(staged[k], sent[i].handle)
        {
          if Covers(staged[k], sent[i].handle) {
            OneCovers(w0, w, staged, contents, k, j, sent[i].handle);
          }
        }
      }
    }
  }

  // ---- Passing a slot on ----

  // Where the descriptor of a slot leads the next dispatch: nowhere, to a descriptor of the host, or to
  // an address where the host has none. `at` are the addresses of the host's descriptors.
  datatype Held = Nothing | Descriptor(k: nat) | Stray

  ghost function HeldBy(outer: Desc, at: seq<int>): Held {
    if outer.aligned == 0 then Nothing
    else if exists k: nat :: k < |at| && at[k] == outer.aligned then
      var k: nat :| k < |at| && at[k] == outer.aligned;
      Descriptor(k)
    else Stray
  }

  lemma {:induction false} NamedAreHandles(t: Table, id: nat, dtype: int, outputs: seq<Option<Output>>, j: nat)
    requires |t.next| == 256 && 1 <= id <= WORKER_MAX && j < |NameOutputs(t, id, dtype, outputs).results|
    ensures IsHandle(NameOutputs(t, id, dtype, outputs).results[j].handle)
  {
    hide IsHandle, Addr;
    if |outputs| > 0 {
      var front := NameOutputs(t, id, dtype, outputs[..|outputs| - 1]);
      if j < |front.results| {
        NamedAreHandles(t, id, dtype, outputs[..|outputs| - 1], j);
      } else {
        Composed(id, front.table.next[id]);
      }
    }
  }

  lemma HandleNotNull()
    ensures !IsHandle(0)
  {}

  // The reply is written into the slot's own descriptor, and the next dispatch looks for a descriptor
  // at the address it finds there. The host has none at a handle, so the slot cannot be passed on.
  lemma NotPassedOn(w: State, topology: int, d: Dispatch, kernel: Plugin, outers: seq<Desc>, args: seq<LocalArg>,
                    at: seq<int>, j: nat)
    requires Sound(w) && Completed(w, topology, d, kernel) && WellBehaved(kernel) && j < |SlotsOf(d.args)|
    requires HasOuters(args, SlotsOf(d.args), |outers|)
    requires forall k :: 0 <= k < |at| ==> at[k] >= 0 && !IsHandle(at[k])
    requires forall k :: j < k < |SlotsOf(d.args)| ==> args[SlotsOf(d.args)[k]].outer != args[SlotsOf(d.args)[j]].outer
    ensures var results := DispatchReply(w, topology, d, kernel).results;
            && |results| == |SlotsOf(d.args)|
            && HeldBy(ApplyAll(outers, args, SlotsOf(d.args), results)[args[SlotsOf(d.args)[j]].outer], at) == Stray
  {
    hide IsHandle, ApplyAll, SlotsOf, NameOutputs, Ran, Behaves, CanRun;
    SoundParts(w);
    ResultForEach(w, topology, d, kernel);
    var e, results := kernel(w, Handed(w, d, topology)), DispatchReply(w, topology, d, kernel).results;
    NamedAreHandles(w.table, w.id, e.dtype, e.outputs, j);
    HandleNotNull();
    AppliedAt(outers, args, SlotsOf(d.args), results, j);
  }

  // Written into the descriptor that the slot leads to, the result would go on under its handle.
  lemma InnerWouldPassOn(a: LocalArg, out: Arg, descs: seq<Desc>, staged: seq<Staged>, contents: seq<Bytes>,
                         m: seq<Byte>, r: Result)
    requires GoodArg(a, descs) && IsSlot(a.tag) && a.desc >= 0 && descs[a.desc] == SlotDesc(r)
    requires IsHandle(r.handle) && r.handle < TWO_64 && !IsEmpty(descs[a.desc], Elem(a.tag))
    requires SentAs(a, out, descs, staged, contents, m)
    ensures out.handle == r.handle
  {
    HandleNotNull();
    hide IsHandle, IsSlot, Kind, Elem, Rank, Carried, AllI64;
  }
}
