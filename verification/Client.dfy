// The host's side of a dispatch (runtime/vx_remote_client.h): each call is a round trip of frames on
// the connection to the worker.
module Client {
  import opened Options
  import opened Abi
  import opened Blocks
  import opened Plan
  import opened Copying
  import opened Execute
  import opened Wire
  import opened Cursor
  import opened Transport
  import opened Handles
  import opened Worker
  import opened Agent
  import opened Serving
  import opened Protocol
  import opened Carry

  // ---- TRANSFER ----

  // What is on the worker stays as it is.
  ghost predicate Keeps(w: State, w': State) {
    forall base, b :: Resident(w, base, b) ==> Resident(w', base, b)
  }

  // A new region that holds `bytes`.
  ghost predicate Added(w: State, bytes: Bytes, w': State, handle: nat) {
    && handle > 0 && 1 <= |bytes| < BODY_MAX && handle + |bytes| < TWO_64 && Resident(w', handle, bytes) && Keeps(w, w')
    && Live(w'.table) == Live(w.table) + {handle} && handle !in Live(w.table)
    && Orphans(w') == Orphans(w)
  }

  lemma StoredIsAdded(w: State, bytes: Bytes, dtype: int, dev: Option<nat>)
    requires Sound(w) && Unused(w, dev) && StoredAt(w, bytes, dev) != 0 && |bytes| < BODY_MAX
    ensures Added(w, bytes, Stored(w, bytes, dtype, dev), StoredAt(w, bytes, dev))
  {
    var w', h := Stored(w, bytes, dtype, dev), StoredAt(w, bytes, dev);
    SmallHandle(w, |bytes|);
    hide Inv, HasRoom, Addr;
    StoredIsResident(w, bytes, dtype, dev);
    StoredLive(w, bytes, dtype, dev);
    forall base, b | Resident(w, base, b)
      ensures Resident(w', base, b)
    {
      StoredKeeps(w, bytes, dtype, dev, base, b);
    }
    StoredOrphans(w, bytes, dtype, dev);
  }

  lemma SmallHandle(w: State, size: nat)
    requires Sound(w) && HasRoom(w.table, w.id, size)
    ensures 0 < Addr(w.id, w.table.next[w.id]) && Addr(w.id, w.table.next[w.id]) + size < TWO_64
  {}

  // What the worker answers to a transfer, and what the host reads from it.
  lemma TransferAnswered(w: State, topology: int, kernel: Plugin, t: Transfer, w': State, f: Frame)
    requires Sound(w) && |w.table.next| == 256 && Carriable(t) && IsU64(|TransferBytes(t)|)
    requires var m := Delivery(Frame(TRANSFER, TransferBytes(t)), BODY_MAX); Answers(w, topology, kernel, m, w', f)
    ensures |TransferBytes(t)| > BODY_MAX ==> w' == w && f.body == []
    ensures |TransferBytes(t)| <= BODY_MAX ==>
              exists handle: nat ::
                IsU64(handle) && TransferDone(w, t.bytes, t.dtype, w', handle) && f.body == U64(handle)
  {
    hide Sound, TransferDone, U64, GetTransfer, TransferBytes, AnswersDispatch, AnswersFetch, AnswersFree;
    TransferIsRead(t);
  }

  lemma TransferIsRead(t: Transfer)
    requires Carriable(t)
    ensures GetTransfer(TransferBytes(t), 0).Got? && GetTransfer(TransferBytes(t), 0).value == t
  {
    hide GetTransfer, TransferBytes;
    assert Holds(TransferBytes(t), 0, TransferBytes(t));
    TransferBack(TransferBytes(t), 0, t);
  }

  // The handle in a reply, 0 for none.
  function HandleIn(body: Bytes): nat {
    var g := GetU64(body, 0);
    if g.Refused? || g.value < 0 then 0 else g.value
  }

  method ReadHandle(body: Bytes) returns (handle: nat)
    ensures handle == HandleIn(body)
  {
    hide GetU64;
    var r := new Reader(body);
    var ok, v := r.U64Get();
    if ok {
      HandleIsNatural(body, 0);
    }
    handle := if ok then v else 0;
  }

  lemma TransferDecided(w: State, topology: int, kernel: Plugin, t: Transfer, w': State, f: Frame)
    requires Sound(w) && |w.table.next| == 256 && Carriable(t) && |t.sizes| == 1 && IsU64(|TransferBytes(t)|)
    requires var m := Delivery(Frame(TRANSFER, TransferBytes(t)), BODY_MAX); Answers(w, topology, kernel, m, w', f)
    ensures |f.body| <= 8 && (HandleIn(f.body) == 0 ==> w' == w)
    ensures HandleIn(f.body) != 0 ==> Added(w, t.bytes, w', HandleIn(f.body))
    ensures |TransferBytes(t)| <= BODY_MAX && f.body != U64(0) ==> HandleIn(f.body) != 0
  {
    TransferAnswered(w, topology, kernel, t, w', f);
    hide Sound, U64, GetU64, TransferBytes, Answers, Added, HasRoom, Addr, Inv;
    if |TransferBytes(t)| <= BODY_MAX {
      var handle: nat :| IsU64(handle) && TransferDone(w, t.bytes, t.dtype, w', handle) && f.body == U64(handle);
      HandleIsRead(handle);
      var dev :| Unused(w, dev) && w' == Stored(w, t.bytes, t.dtype, dev) && handle == StoredAt(w, t.bytes, dev);
      if handle != 0 {
        StoredIsAdded(w, t.bytes, t.dtype, dev);
      } else {
        HandleOrNot(w, |t.bytes|);
      }
    } else {
      NothingToRead();
    }
  }

  lemma NothingToRead()
    ensures HandleIn([]) == 0
  {}

  lemma HandleIsRead(handle: int)
    requires IsU64(handle)
    ensures GetU64(U64(handle), 0) == Got(handle, 8)
  {
    hide U64, GetU64;
    assert Holds(U64(handle), 0, U64(handle));
    U64Back(U64(handle), 0, handle);
  }

  // The message of a transfer, when it fits in the scratch buffer.
  method EncodeTransfer(t: Transfer, scratch: nat) returns (ok: bool, message: Bytes)
    requires Carriable(t)
    ensures ok <==> |TransferBytes(t)| <= scratch
    ensures ok ==> message == TransferBytes(t)
  {
    hide TransferBytes, Wrote;
    var buf := new Byte[scratch](i => 0);
    var w := new Writer(buf);
    w.PutTransfer(t);
    WroteOrNot(scratch, TransferBytes(t), w.State());
    ok, message := !w.overflow, buf[..w.len];
  }

  // vx_remote_transfer
  method RemoteTransfer(fd: Link, bytes: Bytes, dtype: int, scratch: nat) returns (handle: nat)
    requires fd.Valid() && IsI32(dtype) && |bytes| < TWO_63
    modifies fd.Parts()
    ensures fd.Valid() && (fd.lost ==> handle == 0) && (old(fd.Quiet()) ==> fd.Quiet())
    ensures !fd.lost && handle == 0 ==> fd.Now() == old(fd.Now())
    ensures handle != 0 ==> Added(old(fd.Now()), bytes, fd.Now(), handle)
    ensures old(fd.Quiet() && fd.worker.Offering() && HasRoom(fd.Now().table, fd.worker.id, |bytes|)) ==>
              24 + |bytes| <= scratch && 24 + |bytes| <= BODY_MAX ==> handle != 0
    ensures fd.refused == old(fd.refused) + if handle == 0 then 1 else 0
  {
    hide Sound, Added, HasRoom, Addr, Inv, WellBehaved, Benign, TransferBytes, U64, GetU64, Answers, FrameBytes;
    ghost var before := fd.Now();
    SoundParts(before);
    var t := Transfer(dtype, [|bytes|], bytes);
    var ok, message := EncodeTransfer(t, scratch);
    assert fd.Valid() && fd.Now() == before && (old(fd.Quiet()) ==> fd.Quiet());
    if !ok {
      fd.refused := fd.refused + 1;
      return 0;
    }
    TransferIsRead(t);
    var r;
    ghost var f;
    r, f := fd.RoundTrip(TRANSFER, message, 64);
    handle := 0;
    ghost var after := fd.Now();
    if !fd.lost {
      TransferDecided(before, fd.worker.topology, fd.kernel, t, after, f);
    }
    if r.Message? {
      handle := ReadHandle(r.body);
      assert fd.Valid() && fd.Now() == after && (old(fd.Quiet()) ==> fd.Quiet());
    }
    if handle == 0 {
      fd.refused := fd.refused + 1;
    }
  }

  lemma WroteOrNot(room: nat, b: Bytes, o: Out)
    requires Wrote(Out([], room, false), b, o)
    ensures o.overflow <==> |b| > room
    ensures !o.overflow ==> o.bytes == b
  {}

  // ---- What a dispatch staged ----

  // `bytes` bytes from local address `host`, or the dense copy of a view, kept on the
  // worker at `handle`. An empty view has no bytes to bring back.
  datatype Staged = Staged(handle: nat, host: int, bytes: nat, dense: Option<View>)

  function HandleSet(staged: seq<Staged>): set<nat> {
    set k | 0 <= k < |staged| :: staged[k].handle
  }

  // Since state `w0` exactly these buffers were added, and each holds its contents.
  ghost predicate StagedOk(w0: State, w: State, staged: seq<Staged>, contents: seq<Bytes>) {
    && |staged| == |contents| && Keeps(w0, w)
    && (forall k :: 0 <= k < |staged| ==> StagedAt(w0, w, staged[k], contents[k]))
    && Live(w.table) == Live(w0.table) + HandleSet(staged) && Orphans(w) == Orphans(w0)
    && (forall j, k :: 0 <= j < k < |staged| ==> staged[j].handle != staged[k].handle)
  }

  ghost predicate StagedAt(w0: State, w: State, s: Staged, b: Bytes) {
    && Resident(w, s.handle, b) && s.handle > 0 && s.handle + |b| < TWO_64
    && s.handle !in Live(w0.table) && 1 <= |b| < BODY_MAX && (s.bytes != 0 ==> |b| == s.bytes)
  }

  lemma NothingStaged(w: State)
    ensures StagedOk(w, w, [], [])
  {}

  lemma OneMoreStaged(w0: State, w: State, staged: seq<Staged>, contents: seq<Bytes>, w': State, s: Staged, b: Bytes)
    requires StagedOk(w0, w, staged, contents) && Added(w, b, w', s.handle)
    requires s.bytes != 0 ==> |b| == s.bytes
    ensures StagedOk(w0, w', staged + [s], contents + [b])
  {
    var staged', contents' := staged + [s], contents + [b];
    hide Live, Resident;
    forall k | 0 <= k < |staged'|
      ensures StagedAt(w0, w', staged'[k], contents'[k])
    {
      if k < |staged| {
        assert StagedAt(w0, w, staged[k], contents[k]);
        assert Resident(w', staged[k].handle, contents[k]);
      }
    }
    assert HandleSet(staged') == HandleSet(staged) + {s.handle} by {
      assert staged'[|staged|] == s;
      forall h | h in HandleSet(staged)
        ensures h in HandleSet(staged')
      {
        var k :| 0 <= k < |staged| && staged[k].handle == h;
        assert staged'[k].handle == h;
      }
    }
    forall j | 0 <= j < |staged|
      ensures staged[j].handle != s.handle
    {
      assert staged[j].handle in HandleSet(staged);
    }
  }

  // vx_remote_stage_empty
  method StageEmpty(fd: Link, elem: int, staged: seq<Staged>, scratch: nat, ghost w0: State, ghost contents: seq<Bytes>)
    returns (handle: nat, staged': seq<Staged>, ghost contents': seq<Bytes>)
    requires fd.Valid() && fd.Quiet() && StagedOk(w0, fd.Now(), staged, contents) && IsI32(elem)
    modifies fd.Parts()
    ensures fd.Valid() && fd.Quiet() && StagedOk(w0, fd.Now(), staged', contents') && staged <= staged'
    ensures contents <= contents' && |staged'| == |contents'|
    ensures handle != 0 ==>
              && |staged'| == |staged| + 1 && staged'[|staged|].handle == handle
              && |contents'[|staged|]| == DtypeBytes(elem) && staged'[|staged|].bytes == 0
    ensures handle == 0 ==>
              && staged' == staged && contents' == contents
              && (|staged| == MAX_STAGED || fd.refused > old(fd.refused))
    ensures fd.refused >= old(fd.refused)
  {
    hide Sound, Inv, StagedOk, Added;
    StagedLengths(w0, fd.Now(), staged, contents);
    staged', contents' := staged, contents;
    if |staged| == MAX_STAGED {
      return 0, staged', contents';
    }
    ghost var w := fd.Now();
    var zero: Bytes := seq(DtypeBytes(elem), i => 0);
    handle := RemoteTransfer(fd, zero, elem, scratch);
    if handle != 0 {
      var s := Staged(handle, 0, 0, None);
      OneMoreStaged(w0, w, staged, contents, fd.Now(), s, zero);
      staged', contents' := staged + [s], contents + [zero];
    }
  }

  lemma StagedLengths(w0: State, w: State, staged: seq<Staged>, contents: seq<Bytes>)
    requires StagedOk(w0, w, staged, contents)
    ensures |staged| == |contents|
  {}

  const MAX_STAGED: nat := 64

  // ---- Arguments ----

  // An argument of the program: a tag, and the value of a scalar or the descriptor of a tensor. `desc`
  // is -1 where there is none. A slot reaches that descriptor through its own, number `outer`.
  datatype LocalArg = LocalArg(tag: nat, scalar: Bytes, desc: int, outer: nat)

  predicate GoodArg(a: LocalArg, descs: seq<Desc>) {
    && IsU32(a.tag) && |a.scalar| == 8 && a.desc < |descs|
    && (a.desc >= 0 && (IsSlot(a.tag) || Kind(a.tag) == 0) ==>
          && |descs[a.desc].sizes| == |descs[a.desc].strides| == Rank(a.tag)
          && AllI64(descs[a.desc].sizes) && AllI64(descs[a.desc].strides))
  }

  // A slot that holds no buffer is storage to publish into.
  predicate HoldsNothing(a: LocalArg, descs: seq<Desc>)
    requires GoodArg(a, descs)
  {
    IsSlot(a.tag) && (a.desc < 0 || descs[a.desc].aligned == 0)
  }

  predicate IsScalar(a: LocalArg) {
    !IsSlot(a.tag) && Kind(a.tag) != 0
  }

  predicate IsTensor(a: LocalArg, descs: seq<Desc>)
    requires GoodArg(a, descs)
  {
    a.desc >= 0 && !HoldsNothing(a, descs) && !IsScalar(a)
  }

  // vx_memref_data
  function DataAt(d: Desc, elem: int): nat {
    (d.aligned + d.offset * DtypeBytes(elem)) % TWO_64
  }

  // A tensor in the memory of this machine.
  predicate IsLocal(a: LocalArg, descs: seq<Desc>)
    requires GoodArg(a, descs)
  {
    IsTensor(a, descs) && !IsHandle(DataAt(descs[a.desc], Elem(a.tag)))
  }

  ghost predicate IsEmpty(d: Desc, elem: int) {
    |d.sizes| == |d.strides| && IsSpanOf(d.sizes, d.strides, elem, SpanBytes(0))
  }

  function ScalarArg(a: LocalArg): Arg
    requires |a.scalar| == 8
  {
    Arg(a.tag, a.scalar[..ScalarWidth(a.tag)] + ZEROS[ScalarWidth(a.tag)..], 0, [], [])
  }

  // Some staged buffer holds the elements of the descriptor, where the argument says.
  ghost predicate Carried(out: Arg, staged: seq<Staged>, contents: seq<Bytes>, m: seq<Byte>, d: Desc) {
    exists k, at: nat :: 0 <= k < |staged| && k < |contents| && CarriedBy(out, staged[k], at, contents[k], m, d)
  }

  ghost predicate CarriedBy(out: Arg, s: Staged, at: nat, b: Bytes, m: seq<Byte>, d: Desc) {
    Holding(out, s.handle, at, b, m, d) && SameCells(out, at, HostsOfStaged(s), d)
  }

  // What an argument must be sent as.
  ghost predicate SentAs(a: LocalArg, out: Arg, descs: seq<Desc>, staged: seq<Staged>, contents: seq<Bytes>,
                         m: seq<Byte>)
    requires GoodArg(a, descs)
  {
    if HoldsNothing(a, descs) then out == Arg(a.tag, ZEROS, 0, [], [])
    else if IsScalar(a) then ScalarWidth(a.tag) > 0 && out == ScalarArg(a)
    else
      && a.desc >= 0 && Shippable(descs[a.desc], a.tag)
      && var d := descs[a.desc];
         if IsLocal(a, descs)
            || IsEmpty(d, Elem(a.tag)) then out.tag == a.tag && out.scalar == ZEROS && out.handle > 0
               && Carried(out, staged, contents, m, d)
         else out == TensorArg(a.tag, DataAt(d, Elem(a.tag)), d.sizes, d.strides)
  }

  lemma CarriedMore(out: Arg, staged: seq<Staged>, contents: seq<Bytes>, staged': seq<Staged>, contents': seq<Bytes>,
                    m: seq<Byte>, d: Desc)
    requires Carried(out, staged, contents, m, d) && staged <= staged' && contents <= contents'
    ensures Carried(out, staged', contents', m, d)
  {
    hide CarriedBy;
    var k, at: nat :| 0 <= k < |staged| && k < |contents| && CarriedBy(out, staged[k], at, contents[k], m, d);
    assert staged'[k] == staged[k] && contents'[k] == contents[k];
  }

  lemma SentMore(a: LocalArg, out: Arg, descs: seq<Desc>, staged: seq<Staged>, contents: seq<Bytes>,
                 staged': seq<Staged>, contents': seq<Bytes>, m: seq<Byte>)
    requires GoodArg(a, descs) && SentAs(a, out, descs, staged, contents, m) && staged <= staged'
    requires contents <= contents'
    ensures SentAs(a, out, descs, staged', contents', m)
  {
    hide Carried, IsHandle, IsSlot, Kind, Elem, Rank;
    if a.desc >= 0 && Carried(out, staged, contents, m, descs[a.desc]) {
      CarriedMore(out, staged, contents, staged', contents', m, descs[a.desc]);
    }
  }

  // Every argument that is sent is one a decoder gives back unchanged.
  lemma SentWellFormed(a: LocalArg, out: Arg, descs: seq<Desc>, staged: seq<Staged>, contents: seq<Bytes>, m: seq<Byte>)
    requires GoodArg(a, descs) && SentAs(a, out, descs, staged, contents, m)
    requires GoodDescs(descs)
    ensures WellFormed(out)
  {
    hide IsHandle, IsSlot, Kind, Elem, Rank, DtypeBytes, IsSpanOf, FitsIn, SameValues;
    if HoldsNothing(a, descs) {
    } else if IsScalar(a) {
      var n := ScalarWidth(a.tag);
      assert out.scalar[..n] == a.scalar[..n];
      assert out.scalar == out.scalar[..n] + ZEROS[n..];
    } else if IsLocal(a, descs) || IsEmpty(descs[a.desc], Elem(a.tag)) {
      var k, at: nat :| 0 <= k < |staged| && k < |contents|
      && Holding(out, staged[k].handle, at, contents[k], m, descs[a.desc]);
    } else {
      HandlePositive(DataAt(descs[a.desc], Elem(a.tag)));
    }
  }

  lemma HandlePositive(a: nat)
    ensures IsHandle(a) ==> a > 0
  {}

  // ---- vx_remote_encode_args ----

  // What the first loop leaves for an argument: a local tensor waits for its view.
  ghost predicate Begun(args: seq<LocalArg>, i: nat, out: Arg, descs: seq<Desc>, viewArg: seq<nat>, staged: seq<Staged>,
                        contents: seq<Bytes>, m: seq<Byte>)
    requires i < |args| && GoodArg(args[i], descs)
  {
    var a := args[i];
    if IsLocal(a, descs) then Shippable(descs[a.desc], a.tag) && i in viewArg && out.tag == a.tag
    else SentAs(a, out, descs, staged, contents, m)
  }

  // The views are those of the local tensors, in order.
  ghost predicate ViewsOf(args: seq<LocalArg>, n: nat, descs: seq<Desc>, views: seq<View>, viewArg: seq<nat>)
    requires n <= |args| && AllGood(args, descs)
  {
    && |views| == |viewArg| <= MAX_STAGED
    && (forall v :: 0 <= v < |views| ==> ViewOf(args, n, descs, views[v], viewArg[v]))
    && (forall u, v :: 0 <= u < v < |viewArg| ==> viewArg[u] < viewArg[v])
  }

  predicate ViewOf(args: seq<LocalArg>, n: nat, descs: seq<Desc>, view: View, i: nat)
    requires n <= |args| && AllGood(args, descs)
  {
    && i < n && IsLocal(args[i], descs) && Shippable(descs[args[i].desc], args[i].tag)
    && view.desc == args[i].desc && view.elem == Elem(args[i].tag)
  }

  predicate AllGood(args: seq<LocalArg>, descs: seq<Desc>) {
    GoodDescs(descs) && forall i :: 0 <= i < |args| ==> GoodArg(args[i], descs)
  }

  function NewView(desc: nat, elem: int): View {
    View(desc, elem, 0, 0, -1, 0, false, [], [], 0, 0, 0)
  }

  // Why an argument list is not sent.
  datatype Why = BadArgument | TooMany | TransferRefused

  // A scalar without a width, a tensor without a descriptor, or a rank the wire cannot carry.
  predicate Unsendable(a: LocalArg, descs: seq<Desc>)
    requires GoodArg(a, descs)
  {
    if IsScalar(a) then ScalarWidth(a.tag) == 0
    else !HoldsNothing(a, descs) && (a.desc < 0 || Rank(a.tag) > MAX_RANK)
  }

  predicate NotSentFor(why: Why, a: LocalArg, descs: seq<Desc>, full: bool, refused: bool)
    requires GoodArg(a, descs)
  {
    match why
    case BadArgument => Unsendable(a, descs)
    case TooMany => full
    case TransferRefused => refused
  }

  // One argument in the first loop.
  method EncodeOne(fd: Link, a: LocalArg, descs: seq<Desc>, numViews: nat, staged: seq<Staged>, scratch: nat,
                   ghost w0: State, ghost contents: seq<Bytes>, ghost m: seq<Byte>)
    returns (ok: bool, out: Arg, local: bool, staged': seq<Staged>, why: Why, ghost contents': seq<Bytes>)
    requires fd.Valid() && fd.Quiet() && StagedOk(w0, fd.Now(), staged, contents) && GoodArg(a, descs)
    requires GoodDescs(descs) && numViews <= MAX_STAGED
    modifies fd.Parts()
    ensures fd.Valid() && fd.Quiet() && StagedOk(w0, fd.Now(), staged', contents') && staged <= staged'
    ensures contents <= contents'
    ensures ok ==> (local <==> IsLocal(a, descs)) && out.tag == a.tag
    ensures ok && local ==> Shippable(descs[a.desc], a.tag) && numViews < MAX_STAGED
    ensures ok && !local ==> SentAs(a, out, descs, staged', contents', m)
    ensures !ok ==>
              NotSentFor(why, a, descs, numViews == MAX_STAGED || |staged| == MAX_STAGED, fd.refused > old(fd.refused))
    ensures fd.refused >= old(fd.refused) && |staged'| <= |staged| + (if local then 0 else 1)
    ensures forall k :: |staged| <= k < |staged'| ==> staged'[k].bytes == 0
  {
    hide Sound, Inv, StagedOk, IsSlot, Kind, Elem, Rank, IsHandle, DtypeBytes, Carried;
    staged', contents', local, why := staged, contents, false, BadArgument;
    out := Arg(a.tag, ZEROS, 0, [], []);
    if IsSlot(a.tag) {
      if a.desc < 0 || descs[a.desc].aligned == 0 {
        return true, out, false, staged', why, contents';
      }
    } else if Kind(a.tag) != 0 {
      var n := ScalarWidth(a.tag);
      if n == 0 {
        return false, out, false, staged', BadArgument, contents';
      }
      return true, ScalarArg(a), false, staged', why, contents';
    }
    if a.desc < 0 || Rank(a.tag) > MAX_RANK || numViews == MAX_STAGED {
      return false, out, false, staged', if numViews == MAX_STAGED then TooMany else BadArgument, contents';
    }
    var d, elem := descs[a.desc], Elem(a.tag);
    var data := DataAt(d, elem);
    out := TensorArg(a.tag, 0, d.sizes, d.strides);
    if !IsHandle(data) {
      return true, out, true, staged', why, contents';
    }
    var span := ViewSpan(d.sizes, d.strides, elem);
    if span == SpanBytes(0) {
      ElemIsSmall(a.tag);
      var handle;
      handle, staged', contents' := StageEmpty(fd, elem, staged, scratch, w0, contents);
      if handle == 0 {
        return false, out, false, staged', if |staged| == MAX_STAGED then TooMany else TransferRefused, contents';
      }
      out := TensorArg(a.tag, handle, d.sizes, d.strides);
      EmptyCarried(w0, fd.Now(), a.tag, d, |staged|, staged', contents', m);
    } else {
      NotEmptySpan(d, elem, span);
      out := TensorArg(a.tag, data, d.sizes, d.strides);
    }
    ok := true;
  }

  lemma ElemIsSmall(tag: nat)
    ensures IsI32(Elem(tag))
  {}

  lemma NotEmptySpan(d: Desc, elem: int, span: Span)
    requires |d.sizes| == |d.strides| && IsSpanOf(d.sizes, d.strides, elem, span) && span != SpanBytes(0)
    ensures !IsEmpty(d, elem)
  {
    if IsEmpty(d, elem) {
      SpanUnique(d.sizes, d.strides, elem, span, SpanBytes(0));
    }
  }

  lemma EmptyCarried(w0: State, w: State, tag: nat, d: Desc, k: nat, staged: seq<Staged>, contents: seq<Bytes>,
                     m: seq<Byte>)
    requires StagedOk(w0, w, staged, contents) && k < |staged| && k < |contents|
    requires |contents[k]| == DtypeBytes(Elem(tag))
    requires Shippable(d, tag) && IsSpanOf(d.sizes, d.strides, Elem(tag), SpanBytes(0))
    ensures staged[k].handle > 0
    ensures Carried(TensorArg(tag, staged[k].handle, d.sizes, d.strides), staged, contents, m, d)
  {
    hide Holding, IsSpanOf, Shippable, Live, Resident;
    assert StagedAt(w0, w, staged[k], contents[k]);
    EmptyHolding(d, tag, staged[k].handle, contents[k], m);
    EmptyCells(d, tag, staged[k].handle, 0, HostsOfStaged(staged[k]));
    assert CarriedBy(TensorArg(tag, staged[k].handle, d.sizes, d.strides), staged[k], 0, contents[k], m, d);
  }

  // An empty view reaches nothing.
  lemma EmptyCells(d: Desc, tag: nat, handle: nat, at: nat, hosts: seq<int>)
    requires Shippable(d, tag) && IsU64(handle) && IsSpanOf(d.sizes, d.strides, Elem(tag), SpanBytes(0))
    ensures SameCells(TensorArg(tag, handle, d.sizes, d.strides), at, hosts, d)
  {
    SpanMeaning(d.sizes, d.strides, Elem(tag), 0);
    hide IsSpanOf;
  }

  // A reason that can be checked: an argument, more tensors than fit, or a refusal.
  ghost predicate Excused(why: Why, args: seq<LocalArg>, descs: seq<Desc>, refused: bool)
    requires AllGood(args, descs)
  {
    match why
    case BadArgument => exists i :: 0 <= i < |args| && Unsendable(args[i], descs)
    case TooMany => 2 * |args| > MAX_STAGED
    case TransferRefused => refused
  }

  // The first loop: scalars, slots and tensors that are on the worker already.
  method EncodeFirst(fd: Link, args: seq<LocalArg>, descs: seq<Desc>, scratch: nat, ghost w0: State, ghost m: seq<Byte>)
    returns (ok: bool, out: seq<Arg>, views: seq<View>, viewArg: seq<nat>, staged: seq<Staged>, why: Why,
             ghost contents: seq<Bytes>)
    requires fd.Valid() && fd.Quiet() && w0 == fd.Now() && AllGood(args, descs)
    modifies fd.Parts()
    ensures fd.Valid() && fd.Quiet() && StagedOk(w0, fd.Now(), staged, contents)
    ensures ok ==> |out| == |args| && ViewsOf(args, |args|, descs, views, viewArg)
    ensures ok ==> forall i :: 0 <= i < |args| ==> Begun(args, i, out[i], descs, viewArg, staged, contents, m)
    ensures ok ==> |staged| + |views| <= |args|
    ensures forall k :: 0 <= k < |staged| ==> staged[k].bytes == 0
    ensures !ok ==> Excused(why, args, descs, fd.refused > old(fd.refused))
    ensures fd.refused >= old(fd.refused)
  {
    hide Sound, Inv, StagedOk, SentAs, IsLocal, Shippable, GoodArg, GoodDescs;
    out, views, viewArg, staged, why, contents := [], [], [], [], BadArgument, [];
    NothingStaged(w0);
    var i := 0;
    while i < |args|
      invariant 0 <= i <= |args| && fd.Valid() && fd.Quiet() && StagedOk(w0, fd.Now(), staged, contents)
      invariant |out| == i && ViewsOf(args, i, descs, views, viewArg)
      invariant |staged| + |views| <= i && fd.refused >= old(fd.refused)
      invariant forall k :: 0 <= k < |staged| ==> staged[k].bytes == 0
      invariant forall k :: 0 <= k < i ==> Begun(args, k, out[k], descs, viewArg, staged, contents, m)
    {
      ghost var staged0, contents0, viewArg0 := staged, contents, viewArg;
      var a, local;
      ok, a, local, staged, why, contents := EncodeOne(fd, args[i], descs, |views|, staged, scratch, w0, contents, m);
      if !ok {
        return;
      }
      if local {
        LocalDesc(args[i], descs);
        viewArg := viewArg + [i];
        views := views + [NewView(args[i].desc, Elem(args[i].tag))];
        assert viewArg[|viewArg0|] == i;
      }
      forall k | 0 <= k < i
        ensures Begun(args, k, out[k], descs, viewArg, staged, contents, m)
      {
        BegunMore(args, k, out[k], descs, viewArg0, viewArg, staged0, contents0, staged, contents, m);
      }
      out := out + [a];
      i := i + 1;
    }
    ok := true;
  }

  lemma LocalDesc(a: LocalArg, descs: seq<Desc>)
    requires GoodArg(a, descs) && IsLocal(a, descs)
    ensures 0 <= a.desc < |descs|
  {}

  lemma BegunMore(args: seq<LocalArg>, i: nat, out: Arg, descs: seq<Desc>, viewArg: seq<nat>, viewArg': seq<nat>,
                  staged: seq<Staged>, contents: seq<Bytes>, staged': seq<Staged>, contents': seq<Bytes>, m: seq<Byte>)
    requires i < |args| && GoodArg(args[i], descs) && Begun(args, i, out, descs, viewArg, staged, contents, m)
    requires staged <= staged' && contents <= contents' && viewArg <= viewArg'
    ensures Begun(args, i, out, descs, viewArg', staged', contents', m)
  {
    hide SentAs, IsLocal, Shippable, GoodArg;
    if IsLocal(args[i], descs) {
      var v :| 0 <= v < |viewArg| && viewArg[v] == i;
      assert viewArg'[v] == i;
    } else {
      SentMore(args[i], out, descs, staged, contents, staged', contents', m);
    }
  }

  // The gather into memory of its own.
  method GatherDense(mem: array<Byte>, v: Layout) returns (b: Bytes)
    requires ValidLayout(v) && DenseBytes(v) >= 0 && InMemory(HostBytes(v), mem[..])
    ensures |b| == DenseBytes(v) && forall c :: 0 <= c < |b| ==> b[c] == mem[HostBytes(v)[c]]
  {
    var n := mem.Length;
    var work := new Byte[n + DenseBytes(v)](i => 0);
    forall i | 0 <= i < n {
      work[i] := mem[i];
    }
    ghost var before := work[..];
    assert forall i :: 0 <= i < n ==> before[i] == mem[i];
    Gather(work, v, n);
    b := work[n..];
    assert forall c :: 0 <= c < |b| ==> b[c] == work[n + c];
  }

  lemma WholeContents(vs: seq<View>, sp: seq<CopySpan>, descs: seq<Desc>, m: seq<Byte>, s: nat, b: Bytes)
    requires HostsInside(vs, sp, descs, |m|) && s < |sp| && sp[s].view < 0 && |b| == sp[s].bytes
    requires 0 <= sp[s].start && sp[s].start + sp[s].bytes <= |m| && b == m[sp[s].start..sp[s].start + sp[s].bytes]
    ensures IsContents(vs, sp, descs, m, s, b)
  {
    hide PlanOk;
    HullPositive(vs, sp, descs, s);
    assert HostsOf(vs, sp, descs, s) == SpanAddresses(sp[s].start, sp[s].bytes);
    hide HostsOf;
  }

  lemma DenseContents(vs: seq<View>, sp: seq<CopySpan>, descs: seq<Desc>, m: seq<Byte>, s: nat)
    requires HostsInside(vs, sp, descs, |m|) && s < |sp| && sp[s].view >= 0
    ensures sp[s].view < |vs|
    ensures var v := LayoutOf(vs[sp[s].view]);
            && ValidLayout(v) && 0 <= DenseBytes(v) == sp[s].bytes && HostsOf(vs, sp, descs, s) == HostBytes(v)
            && InMemory(HostBytes(v), m)
  {
    PlanMeasures(vs, sp, descs);
    hide PlanOk, LayoutOf, HostBytes;
    PackedLayout(vs, sp, descs, s);
    HullPositive(vs, sp, descs, s);
    assert HostsOf(vs, sp, descs, s) == HostBytes(LayoutOf(vs[sp[s].view]));
    hide HostsOf;
    forall c | 0 <= c < sp[s].bytes
      ensures 0 <= HostsOf(vs, sp, descs, s)[c] < |m|
    {
      HostInside(vs, sp, descs, |m|, s, c);
    }
  }

  // The bytes of one span: as they lie, or the elements of its one view.
  method SpanBytesOf(mem: array<Byte>, vs: seq<View>, sp: seq<CopySpan>, descs: seq<Desc>, s: nat) returns (b: Bytes)
    requires HostsInside(vs, sp, descs, mem.Length) && s < |sp|
    ensures IsContents(vs, sp, descs, mem[..], s, b)
  {
    hide PlanOk, HostsOf, HostBytes, LayoutOf;
    if sp[s].view < 0 {
      WholeSpan(vs, sp, descs, mem.Length, s);
      b := mem[sp[s].start..sp[s].start + sp[s].bytes];
      WholeContents(vs, sp, descs, mem[..], s, b);
    } else {
      DenseContents(vs, sp, descs, mem[..], s);
      b := GatherDense(mem, LayoutOf(vs[sp[s].view]));
    }
  }

  lemma WholeSpan(vs: seq<View>, sp: seq<CopySpan>, descs: seq<Desc>, size: nat, s: nat)
    requires HostsInside(vs, sp, descs, size) && s < |sp| && sp[s].view < 0
    ensures sp[s].bytes > 0 && 0 <= sp[s].start && sp[s].start + sp[s].bytes <= size
  {
    hide PlanOk;
    HullPositive(vs, sp, descs, s);
    HostInside(vs, sp, descs, size, s, 0);
    HostInside(vs, sp, descs, size, s, sp[s].bytes - 1);
  }

  // The element type of the first view of a span.
  function FirstElem(vs: seq<View>, s: int): int {
    if |vs| == 0 then 0 else if vs[0].span == s then vs[0].elem else FirstElem(vs[1..], s)
  }

  // Each buffer from `first` on holds the contents of a span.
  ghost predicate HoldSpans(vs: seq<View>, sp: seq<CopySpan>, descs: seq<Desc>, m: seq<Byte>, contents: seq<Bytes>,
                            first: nat, n: nat)
    requires HostsInside(vs, sp, descs, |m|) && n <= |sp|
  {
    |contents| >= first + n && forall s :: 0 <= s < n ==> HoldsSpan(vs, sp, descs, m, contents, first, s)
  }

  ghost predicate HoldsSpan(vs: seq<View>, sp: seq<CopySpan>, descs: seq<Desc>, m: seq<Byte>, contents: seq<Bytes>,
                            first: nat, s: nat)
    requires HostsInside(vs, sp, descs, |m|) && s < |sp| && first + s < |contents|
  {
    IsContents(vs, sp, descs, m, s, contents[first + s])
  }

  // Where the bytes of a staged buffer came from, in the order they were sent.
  ghost function HostsOfStaged(s: Staged): seq<int> {
    if s.bytes == 0 then []
    else if s.dense.None? then SpanAddresses(s.host, s.bytes)
    else
      var v := LayoutOf(s.dense.value);
      if ValidLayout(v) && DenseBytes(v) >= 0 then HostBytes(v) else []
  }

  // The record of span `s`.
  predicate FromSpan(vs: seq<View>, sp: seq<CopySpan>, st: Staged, s: int) {
    && 0 <= s < |sp| && st.host == sp[s].start && st.bytes == sp[s].bytes && sp[s].view < |vs|
    && st.dense == if sp[s].view >= 0 then Some(vs[sp[s].view]) else None
  }

  // Those places are in memory. An empty view has none.
  ghost predicate Home(s: Staged, size: nat) {
    s.bytes != 0 ==>
      && (s.dense.Some? ==> ValidLayout(LayoutOf(s.dense.value)) && DenseBytes(LayoutOf(s.dense.value)) >= 0)
      && |HostsOfStaged(s)| == s.bytes && (forall c :: 0 <= c < s.bytes ==> 0 <= HostsOfStaged(s)[c] < size)
      && (forall c, e :: 0 <= c < e < s.bytes ==> HostsOfStaged(s)[c] != HostsOfStaged(s)[e])
  }

  lemma SpanHosts(vs: seq<View>, sp: seq<CopySpan>, descs: seq<Desc>, m: seq<Byte>, s: nat, st: Staged)
    requires HostsInside(vs, sp, descs, |m|) && s < |sp| && FromSpan(vs, sp, st, s)
    ensures st.dense.Some? ==> ValidLayout(LayoutOf(st.dense.value)) && DenseBytes(LayoutOf(st.dense.value)) >= 0
    ensures HostsOfStaged(st) == HostsOf(vs, sp, descs, s)
  {
    hide PlanOk, LayoutOf, HostBytes;
    if sp[s].view >= 0 {
      DenseContents(vs, sp, descs, m, s);
    } else {
      HullPositive(vs, sp, descs, s);
    }
  }

  lemma SpanHome(vs: seq<View>, sp: seq<CopySpan>, descs: seq<Desc>, m: seq<Byte>, s: nat, b: Bytes, st: Staged)
    requires HostsInside(vs, sp, descs, |m|) && s < |sp| && IsContents(vs, sp, descs, m, s, b)
    requires sp[s].view < |vs| && st.host == sp[s].start && st.bytes == |b|
    requires st.dense == if sp[s].view >= 0 then Some(vs[sp[s].view]) else None
    ensures Home(st, |m|) && FromSpan(vs, sp, st, s)
  {
    SpanHosts(vs, sp, descs, m, s, st);
    hide PlanOk, HostsOf, HostsOfStaged;
    forall c, e | 0 <= c < e < |b|
      ensures HostsOf(vs, sp, descs, s)[c] != HostsOf(vs, sp, descs, s)[e]
    {
      if HostsOf(vs, sp, descs, s)[c] == HostsOf(vs, sp, descs, s)[e] {
        HostsInjective(vs, sp, descs, s, c, s, e);
      }
    }
  }

  // The loop over the spans.
  method StageSpans(fd: Link, mem: array<Byte>, vs: seq<View>, sp: seq<CopySpan>, descs: seq<Desc>, staged: seq<Staged>,
                    scratch: nat, ghost w0: State, ghost contents: seq<Bytes>)
    returns (ok: bool, staged': seq<Staged>, ghost contents': seq<Bytes>)
    requires fd.Valid() && fd.Quiet() && StagedOk(w0, fd.Now(), staged, contents)
    requires HostsInside(vs, sp, descs, mem.Length) && mem.Length < TWO_63
    modifies fd.Parts()
    ensures fd.Valid() && fd.Quiet() && StagedOk(w0, fd.Now(), staged', contents') && staged <= staged'
    ensures contents <= contents'
    ensures mem[..] == old(mem[..])
    ensures ok ==> |staged'| == |staged| + |sp| && HoldSpans(vs, sp, descs, mem[..], contents', |staged|, |sp|)
    ensures fd.refused >= old(fd.refused) && (!ok ==> fd.refused > old(fd.refused))
    ensures forall k :: |staged| <= k < |staged'| ==>
               Home(staged'[k], mem.Length) && FromSpan(vs, sp, staged'[k], k - |staged|)
  {
    hide Sound, Inv, StagedOk, PlanOk, Added, IsContents, Home;
    StagedLengths(w0, fd.Now(), staged, contents);
    ghost var m := mem[..];
    staged', contents' := staged, contents;
    var s := 0;
    while s < |sp|
      invariant 0 <= s <= |sp| && fd.Valid() && fd.Quiet() && StagedOk(w0, fd.Now(), staged', contents') && mem[..] == m
      invariant staged <= staged' && contents <= contents' && |staged'| == |contents'| == |staged| + s
      invariant HoldSpans(vs, sp, descs, m, contents', |staged|, s) && fd.refused >= old(fd.refused)
      invariant forall k :: |staged| <= k < |staged'| ==>
                 Home(staged'[k], mem.Length) && FromSpan(vs, sp, staged'[k], k - |staged|)
    {
      var b := SpanBytesOf(mem, vs, sp, descs, s);
      ghost var w := fd.Now();
      SpanIsSmall(vs, sp, descs, mem.Length, s);
      FirstElemFits(vs, sp, descs, s);
      assert |b| == sp[s].bytes by { ContentsLength(vs, sp, descs, m, s, b); }
      var handle := RemoteTransfer(fd, b, FirstElem(vs, s), scratch);
      if handle == 0 {
        return false, staged', contents';
      }
      PlanMeasures(vs, sp, descs);
      var st := Staged(handle, sp[s].start, |b|, if sp[s].view >= 0 then Some(vs[sp[s].view]) else None);
      SpanHome(vs, sp, descs, m, s, b, st);
      OneMoreStaged(w0, w, staged', contents', fd.Now(), st, b);
      HoldMore(vs, sp, descs, m, contents', |staged|, s, b);
      staged', contents' := staged' + [st], contents' + [b];
      s := s + 1;
    }
    ok := true;
  }

  // A span is no longer than memory.
  lemma SpanIsSmall(vs: seq<View>, sp: seq<CopySpan>, descs: seq<Desc>, size: nat, s: nat)
    requires HostsInside(vs, sp, descs, size) && s < |sp|
    ensures sp[s].bytes <= size
  {
    var i, j := SpanStarts(vs, sp, descs, s);
    if sp[s].view >= 0 {
      assert SpanRight(vs, sp, descs, s);
    }
  }

  lemma {:induction false} FirstElemOf(vs: seq<View>, s: int) returns (i: nat)
    requires exists k :: 0 <= k < |vs| && vs[k].span == s
    ensures i < |vs| && vs[i].span == s && vs[i].elem == FirstElem(vs, s)
  {
    if vs[0].span == s {
      i := 0;
    } else {
      var k :| 0 <= k < |vs| && vs[k].span == s;
      assert vs[1..][k - 1] == vs[k];
      i := FirstElemOf(vs[1..], s);
      i := i + 1;
    }
  }

  lemma FirstElemFits(vs: seq<View>, sp: seq<CopySpan>, descs: seq<Desc>, s: nat)
    requires PlanOk(vs, sp, descs) && s < |sp|
    ensures IsI32(FirstElem(vs, s))
  {
    assert SpanRight(vs, sp, descs, s);
    var i := FirstElemOf(vs, s);
    PlanMeasures(vs, sp, descs);
    assert Measured(vs[i], descs[vs[i].desc]);
  }

  lemma HoldMore(vs: seq<View>, sp: seq<CopySpan>, descs: seq<Desc>, m: seq<Byte>, contents: seq<Bytes>, first: nat,
                 n: nat, b: Bytes)
    requires HostsInside(vs, sp, descs, |m|) && n < |sp| && |contents| == first + n
    requires HoldSpans(vs, sp, descs, m, contents, first, n) && IsContents(vs, sp, descs, m, n, b)
    ensures HoldSpans(vs, sp, descs, m, contents + [b], first, n + 1)
  {
    hide PlanOk, IsContents;
    forall s | 0 <= s < n + 1
      ensures HoldsSpan(vs, sp, descs, m, contents + [b], first, s)
    {
      if s < n {
        assert HoldsSpan(vs, sp, descs, m, contents, first, s);
        assert (contents + [b])[first + s] == contents[first + s];
      }
    }
  }

  // What a planned view is sent as.
  lemma ViewCarried(vs: seq<View>, sp: seq<CopySpan>, descs: seq<Desc>, m: seq<Byte>, v: nat, tag: nat, w0: State,
                    w: State, staged: seq<Staged>, contents: seq<Bytes>, first: nat)
    requires HostsInside(vs, sp, descs, |m|) && v < |vs| && vs[v].span >= 0 && vs[v].bytes < TWO_63
    requires StagedOk(w0, w, staged, contents) && HoldSpans(vs, sp, descs, m, contents, first, |sp|)
    requires SpansStaged(vs, sp, staged, first)
    requires vs[v].desc < |descs| && Shippable(descs[vs[v].desc], tag) && Elem(tag) == vs[v].elem
    ensures vs[v].span < |sp| && vs[v].at >= 0
    ensures var d := descs[vs[v].desc]; var base := staged[first + vs[v].span].handle;
            && base > 0
               && Carried(TensorArg(tag, base + vs[v].at, d.sizes, SentStrides(vs[v], d)), staged, contents, m, d)
  {
    hide Holding, Shippable, Live, Resident, IsContents, PlanOk, Elem;
    SeatedSpan(vs, sp, descs, v);
    var k := first + vs[v].span;
    assert StagedAt(w0, w, staged[k], contents[k]);
    assert HoldsSpan(vs, sp, descs, m, contents, first, vs[v].span);
    ViewHolding(vs, sp, descs, m, v, tag, staged[k].handle, contents[k]);
    SpanHosts(vs, sp, descs, m, vs[v].span, staged[k]);
    var d := descs[vs[v].desc];
    var out := TensorArg(tag, staged[k].handle + vs[v].at, d.sizes, SentStrides(vs[v], d));
    HoldingSized(out, staged[k].handle, vs[v].at, contents[k], m, d);
    hide SameCells, HostsOfStaged, HostsOf, FromSpan;
    ViewCells(vs, sp, descs, v, out, HostsOfStaged(staged[k]));
    assert CarriedBy(out, staged[k], vs[v].at, contents[k], m, d);
  }

  lemma HoldingSized(a: Arg, base: nat, at: nat, b: Bytes, m: seq<Byte>, d: Desc)
    requires Holding(a, base, at, b, m, d)
    ensures Sized(a) && |d.sizes| == |d.strides|
  {}

  // The records of the spans are the staged ones from `first` on.
  predicate SpansStaged(vs: seq<View>, sp: seq<CopySpan>, staged: seq<Staged>, first: nat) {
    first + |sp| <= |staged| && forall k :: first <= k < first + |sp| ==> FromSpan(vs, sp, staged[k], k - first)
  }

  lemma SeatedSpan(vs: seq<View>, sp: seq<CopySpan>, descs: seq<Desc>, v: nat)
    requires PlanOk(vs, sp, descs) && v < |vs|
    ensures vs[v].desc < |descs| && Measured(vs[v], descs[vs[v].desc])
    ensures vs[v].span < |sp| && (vs[v].span >= 0 <==> vs[v].bytes != 0)
  {
    assert Seated(vs, sp, descs, v);
    PlanMeasures(vs, sp, descs);
  }

  // One view in the last loop: the handle of its bytes, and its strides there.
  method FinishView(fd: Link, vs: seq<View>, sp: seq<CopySpan>, descs: seq<Desc>, ghost m: seq<Byte>, v: nat,
                    a: LocalArg, staged: seq<Staged>, first: nat, scratch: nat, ghost w0: State,
                    ghost contents: seq<Bytes>)
    returns (ok: bool, out: Arg, staged': seq<Staged>, ghost contents': seq<Bytes>)
    requires fd.Valid() && fd.Quiet() && StagedOk(w0, fd.Now(), staged, contents)
    requires HostsInside(vs, sp, descs, |m|) && HoldSpans(vs, sp, descs, m, contents, first, |sp|)
    requires SpansStaged(vs, sp, staged, first)
    requires v < |vs| && vs[v].bytes < TWO_63 && vs[v].desc == a.desc && vs[v].elem == Elem(a.tag)
    requires GoodArg(a, descs) && IsLocal(a, descs) && Shippable(descs[a.desc], a.tag)
    modifies fd.Parts()
    ensures fd.Valid() && fd.Quiet() && StagedOk(w0, fd.Now(), staged', contents') && staged <= staged'
    ensures contents <= contents'
    ensures ok ==> SentAs(a, out, descs, staged', contents', m)
    ensures fd.refused >= old(fd.refused) && |staged'| <= |staged| + 1
    ensures forall k :: |staged| <= k < |staged'| ==> staged'[k].bytes == 0
    ensures !ok ==> |staged| == MAX_STAGED || fd.refused > old(fd.refused)
  {
    hide Sound, Inv, StagedOk, PlanOk, HoldSpans, IsHandle, IsSlot, Kind, Elem, Rank, Shippable, Carried;
    staged', contents' := staged, contents;
    SeatedSpan(vs, sp, descs, v);
    var d := descs[a.desc];
    var handle;
    if vs[v].span < 0 {
      handle, staged', contents' := StageEmpty(fd, vs[v].elem, staged, scratch, w0, contents);
      if handle != 0 {
        EmptyCarried(w0, fd.Now(), a.tag, d, |staged|, staged', contents', m);
      }
    } else {
      ViewCarried(vs, sp, descs, m, v, a.tag, w0, fd.Now(), staged, contents, first);
      handle := staged[first + vs[v].span].handle + vs[v].at;
    }
    NotPackedIfEmpty(vs, sp, descs, v);
    out := TensorArg(a.tag, handle, d.sizes, SentStrides(vs[v], d));
    ok := handle != 0;
  }

  lemma NotPackedIfEmpty(vs: seq<View>, sp: seq<CopySpan>, descs: seq<Desc>, v: nat)
    requires PlanOk(vs, sp, descs) && v < |vs|
    ensures vs[v].span < 0 ==> !vs[v].packed
  {
    assert Seated(vs, sp, descs, v);
  }

  // The views come from the same arguments before and after planning.
  ghost predicate PlannedFor(args: seq<LocalArg>, descs: seq<Desc>, vs: seq<View>, viewArg: seq<nat>)
    requires AllGood(args, descs)
  {
    ViewsOf(args, |args|, descs, vs, viewArg) && forall v :: 0 <= v < |vs| ==> vs[v].bytes < TWO_63
  }

  // The last loop.
  method FinishViews(fd: Link, args: seq<LocalArg>, descs: seq<Desc>, vs: seq<View>, sp: seq<CopySpan>,
                     viewArg: seq<nat>, out0: seq<Arg>, staged0: seq<Staged>, first: nat, scratch: nat, ghost w0: State,
                     ghost contents0: seq<Bytes>, ghost m: seq<Byte>)
    returns (ok: bool, out: seq<Arg>, staged: seq<Staged>, ghost contents: seq<Bytes>)
    requires fd.Valid() && fd.Quiet() && StagedOk(w0, fd.Now(), staged0, contents0) && AllGood(args, descs)
    requires PlannedFor(args, descs, vs, viewArg)
    requires HostsInside(vs, sp, descs, |m|) && HoldSpans(vs, sp, descs, m, contents0, first, |sp|)
    requires SpansStaged(vs, sp, staged0, first)
    requires |out0| == |args|
    requires forall i :: 0 <= i < |args| ==> Begun(args, i, out0[i], descs, viewArg, staged0, contents0, m)
    modifies fd.Parts()
    ensures fd.Valid() && fd.Quiet() && StagedOk(w0, fd.Now(), staged, contents)
    ensures ok ==>
              && |out| == |args|
              && forall i :: 0 <= i < |args| ==> SentAs(args[i], out[i], descs, staged, contents, m)
    ensures fd.refused >= old(fd.refused) && (!ok ==> |staged0| + |vs| > MAX_STAGED || fd.refused > old(fd.refused))
    ensures staged0 <= staged && contents0 <= contents && forall k :: |staged0| <= k < |staged| ==> staged[k].bytes == 0
  {
    hide Sound, Inv, StagedOk, PlanOk, HoldSpans, SentAs, IsLocal, Shippable, GoodArg, GoodDescs, SpansStaged;
    out, staged, contents := out0, staged0, contents0;
    var v := 0;
    while v < |vs|
      invariant 0 <= v <= |vs| && fd.Valid() && fd.Quiet() && StagedOk(w0, fd.Now(), staged, contents)
      invariant staged0 <= staged && contents0 <= contents && |out| == |args|
      invariant |staged| <= |staged0| + v && fd.refused >= old(fd.refused)
      invariant forall k :: |staged0| <= k < |staged| ==> staged[k].bytes == 0
      invariant forall i :: 0 <= i < |args| && !IsLocal(args[i], descs) ==>
                 SentAs(args[i], out[i], descs, staged, contents, m)
      invariant forall u :: 0 <= u < v ==> SentAs(args[viewArg[u]], out[viewArg[u]], descs, staged, contents, m)
    {
      ghost var staged1, contents1, out1 := staged, contents, out;
      assert ViewOf(args, |args|, descs, vs[v], viewArg[v]);
      HoldLonger(vs, sp, descs, m, contents0, contents, first);
      SpansStay(vs, sp, staged0, staged, first);
      var i, a := viewArg[v], Arg(0, [], 0, [], []);
      ok, a, staged, contents := FinishView(fd, vs, sp, descs, m, v, args[i], staged, first, scratch, w0, contents);
      if !ok {
        return;
      }
      forall j | 0 <= j < |args| && SentAs(args[j], out1[j], descs, staged1, contents1, m)
        ensures SentAs(args[j], out1[j], descs, staged, contents, m)
      {
        SentMore(args[j], out1[j], descs, staged1, contents1, staged, contents, m);
      }
      out := out[i := a];
      v := v + 1;
    }
    ok := true;
    forall i | 0 <= i < |args|
      ensures SentAs(args[i], out[i], descs, staged, contents, m)
    {
      assert Begun(args, i, out0[i], descs, viewArg, staged0, contents0, m);
    }
  }

  lemma SpansStay(vs: seq<View>, sp: seq<CopySpan>, staged: seq<Staged>, staged': seq<Staged>, first: nat)
    requires SpansStaged(vs, sp, staged, first) && staged <= staged'
    ensures SpansStaged(vs, sp, staged', first)
  {
    hide FromSpan;
  }

  lemma HoldLonger(vs: seq<View>, sp: seq<CopySpan>, descs: seq<Desc>, m: seq<Byte>, contents: seq<Bytes>,
                   contents': seq<Bytes>, first: nat)
    requires HostsInside(vs, sp, descs, |m|) && HoldSpans(vs, sp, descs, m, contents, first, |sp|)
    requires contents <= contents'
    ensures HoldSpans(vs, sp, descs, m, contents', first, |sp|)
  {
    hide PlanOk, IsContents;
    forall s | 0 <= s < |sp|
      ensures HoldsSpan(vs, sp, descs, m, contents', first, s)
    {
      assert HoldsSpan(vs, sp, descs, m, contents, first, s);
      assert contents'[first + s] == contents[first + s];
    }
  }

  datatype Encoding = NotSent(why: Why) | Aborted | Encoded(args: seq<Arg>, staged: seq<Staged>)

  // Local views lie in memory, and have fewer than 2^63 bytes.
  ghost predicate Mapped(args: seq<LocalArg>, descs: seq<Desc>, size: nat)
    requires AllGood(args, descs)
  {
    forall i :: 0 <= i < |args| && IsLocal(args[i], descs) ==> MappedView(descs[args[i].desc], Elem(args[i].tag), size)
  }

  ghost predicate MappedView(d: Desc, elem: int, size: nat)
    requires |d.sizes| == |d.strides|
  {
    && SmallDesc(d, elem)
    && forall bytes :: IsSpanOf(d.sizes, d.strides, elem, SpanBytes(bytes)) && bytes != 0 && d.offset >= 0
                       && d.aligned + d.offset * DtypeBytes(elem) + bytes < TWO_64 ==>
                       d.aligned + d.offset * DtypeBytes(elem) + bytes <= size
  }

  lemma ViewsAreSmall(args: seq<LocalArg>, descs: seq<Desc>, views: seq<View>, viewArg: seq<nat>, size: nat)
    requires AllGood(args, descs) && ViewsOf(args, |args|, descs, views, viewArg) && Mapped(args, descs, size)
    ensures NamesDescs(views, descs) && FitCall(views, descs)
    ensures forall v :: 0 <= v < |views| ==>
               views[v].desc < |descs| && MappedView(descs[views[v].desc], views[v].elem, size)
  {
    hide IsLocal, Shippable, GoodArg, Elem, IsSpanOf;
    forall v | 0 <= v < |views|
      ensures views[v].desc < |descs| && MappedView(descs[views[v].desc], views[v].elem, size)
    {
      assert ViewOf(args, |args|, descs, views[v], viewArg[v]);
      LocalDesc(args[viewArg[v]], descs);
    }
    forall v | 0 <= v < |views|
      ensures FitDesc(descs[views[v].desc], views[v].elem)
    {
      SmallIsFit(descs[views[v].desc], views[v].elem);
    }
  }

  // The plan's views are the same views, with sizes, in memory.
  lemma PlannedViews(args: seq<LocalArg>, descs: seq<Desc>, views: seq<View>, vs: seq<View>, viewArg: seq<nat>,
                     sp: seq<CopySpan>, size: nat)
    requires AllGood(args, descs) && ViewsOf(args, |args|, descs, views, viewArg) && Mapped(args, descs, size)
    requires SameInputs(views, vs) && PlanOk(vs, sp, descs)
    ensures PlannedFor(args, descs, vs, viewArg) && HostsInside(vs, sp, descs, size)
  {
    ViewsAreSmall(args, descs, views, viewArg, size);
    hide PlanOk, IsLocal, Shippable, GoodArg, Elem, IsSpanOf;
    forall v | 0 <= v < |vs|
      ensures ViewOf(args, |args|, descs, vs[v], viewArg[v]) && vs[v].bytes < TWO_63
      ensures vs[v].bytes > 0 ==> ViewEnd(vs[v]) <= size
    {
      assert ViewOf(args, |args|, descs, views[v], viewArg[v]);
      SeatedSpan(vs, sp, descs, v);
    }
  }

  // A view with no span, or one that is not in the address space.
  ghost predicate Unplannable(d: Desc, elem: int)
    requires |d.sizes| == |d.strides|
  {
    (forall bytes :: !IsSpanOf(d.sizes, d.strides, elem, SpanBytes(bytes))) || OutsideAddresses(d, elem)
  }

  lemma PlanFailed(args: seq<LocalArg>, descs: seq<Desc>, views: seq<View>, vs: seq<View>, viewArg: seq<nat>,
                   r: Outcome)
    requires AllGood(args, descs) && ViewsOf(args, |args|, descs, views, viewArg) && SameInputs(views, vs)
    requires NamesDescs(vs, descs)
    requires exists i :: 0 <= i < |vs| && MeasuredUpTo(vs, descs, i) && StopsAt(r, vs, descs, i)
    ensures exists i ::
              0 <= i < |args| && IsLocal(args[i], descs) && Unplannable(descs[args[i].desc], Elem(args[i].tag))
  {
    hide IsLocal, Shippable, GoodArg, Elem, IsSpanOf;
    var v :| 0 <= v < |vs| && MeasuredUpTo(vs, descs, v) && StopsAt(r, vs, descs, v);
    assert ViewOf(args, |args|, descs, views[v], viewArg[v]);
    LocalDesc(args[viewArg[v]], descs);
    var d, elem := descs[vs[v].desc], vs[v].elem;
    forall bytes
      ensures IsSpanOf(d.sizes, d.strides, elem, SpanBytes(bytes)) ==> OutsideAddresses(d, elem)
    {
      if IsSpanOf(d.sizes, d.strides, elem, SpanBytes(bytes)) && r.Stopped? {
        SpanUnique(d.sizes, d.strides, elem, r.why, SpanBytes(bytes));
      }
    }
    assert Unplannable(d, elem);
  }

  // The plan of the views of one call.
  method PlanCall(views: seq<View>, descs: seq<Desc>) returns (r: Outcome, vs: seq<View>, sp: seq<CopySpan>)
    requires GoodDescs(descs) && NamesDescs(views, descs) && FitCall(views, descs)
    ensures SameInputs(views, vs) && |sp| <= |views|
    ensures r.Ready? ==> PlanOk(vs, sp, descs)
    ensures !r.Ready? ==>
              && NamesDescs(vs, descs)
              && exists i :: 0 <= i < |vs| && MeasuredUpTo(vs, descs, i) && StopsAt(r, vs, descs, i)
  {
    hide PlanOk, FitCall, StopsAt, MeasuredUpTo;
    var va := new View[|views|](i requires 0 <= i < |views| => views[i]);
    var spans := new CopySpan[|views|](i => CopySpan(0, 0, 0, 0));
    assert va[..] == views;
    r := PlanViews(va, spans, descs);
    vs := va[..];
    sp := if r.Ready? then spans[..r.spans] else [];
  }

  // vx_remote_encode_args. `left` are the buffers on the worker that this call staged, also where it
  // gives up.
  method EncodeArgs(fd: Link, mem: array<Byte>, args: seq<LocalArg>, descs: seq<Desc>, scratch: nat)
    returns (r: Encoding, ghost left: seq<Staged>, ghost contents: seq<Bytes>)
    requires fd.Valid() && fd.Quiet() && AllGood(args, descs) && Mapped(args, descs, mem.Length) && mem.Length < TWO_63
    modifies fd.Parts()
    ensures fd.Valid() && fd.Quiet() && mem[..] == old(mem[..])
    ensures StagedOk(old(fd.Now()), fd.Now(), left, contents)
    ensures r.Encoded? ==> left == r.staged && |r.args| == |args|
    ensures r.Encoded? ==>
              forall i :: 0 <= i < |args| ==> SentAs(args[i], r.args[i], descs, r.staged, contents, mem[..])
    ensures r.Encoded? ==> AllHome(r.staged, mem.Length) && Imaged(r.staged, contents, mem[..])
    ensures r.NotSent? ==> Excused(r.why, args, descs, fd.refused > old(fd.refused))
    ensures r.Aborted? ==>
              exists i ::
                0 <= i < |args| && IsLocal(args[i], descs) && Unplannable(descs[args[i].desc], Elem(args[i].tag))
  {
    hide Sound, Inv, StagedOk, PlanOk, SentAs, IsLocal, Shippable, GoodArg, GoodDescs, Home, Begun, ViewsOf, Mapped;
    hide HoldSpans, PlannedFor, FromSpan, AllHome;
    ghost var w0, m := fd.Now(), mem[..];
    var ok, out, views, viewArg, staged, why;
    ok, out, views, viewArg, staged, why, contents := EncodeFirst(fd, args, descs, scratch, w0, m);
    left := staged;
    if !ok {
      return NotSent(why), left, contents;
    }
    ViewsAreSmall(args, descs, views, viewArg, mem.Length);
    var plan, vs, sp := PlanCall(views, descs);
    if !plan.Ready? {
      PlanFailed(args, descs, views, vs, viewArg, plan);
      return Aborted, left, contents;
    }
    PlannedViews(args, descs, views, vs, viewArg, sp, mem.Length);
    if |staged| + |sp| > MAX_STAGED {
      return NotSent(TooMany), left, contents;
    }
    ghost var staged0, contents0 := staged, contents;
    var first := |staged|;
    ok, staged, contents := StageSpans(fd, mem, vs, sp, descs, staged, scratch, w0, contents);
    left := staged;
    if !ok {
      return NotSent(TransferRefused), left, contents;
    }
    forall i | 0 <= i < |args|
      ensures Begun(args, i, out[i], descs, viewArg, staged, contents, m)
    {
      BegunMore(args, i, out[i], descs, viewArg, viewArg, staged0, contents0, staged, contents, m);
    }
    assert SpansStaged(vs, sp, staged, first);
    ghost var staged1, contents1 := staged, contents;
    ok, out, staged, contents := FinishViews(fd, args, descs, vs, sp, viewArg, out, staged, first, scratch, w0,
                                             contents, m);
    left := staged;
    if !ok {
      return NotSent(if first + |sp| + |vs| > MAX_STAGED then TooMany else TransferRefused), left, contents;
    }
    StagedHomes(vs, sp, descs, m, staged, first);
    HoldLonger(vs, sp, descs, m, contents1, contents, first);
    SpansStay(vs, sp, staged1, staged, first);
    StagedLengths(w0, fd.Now(), staged, contents);
    StagedImages(vs, sp, descs, m, staged, contents, first);
    r := Encoded(out, staged);
  }

  lemma StagedImages(vs: seq<View>, sp: seq<CopySpan>, descs: seq<Desc>, m: seq<Byte>, staged: seq<Staged>,
                     contents: seq<Bytes>, first: nat)
    requires HostsInside(vs, sp, descs, |m|) && HoldSpans(vs, sp, descs, m, contents, first, |sp|)
    requires SpansStaged(vs, sp, staged, first) && |contents| == |staged|
    requires forall k :: 0 <= k < |staged| && !(first <= k < first + |sp|) ==> staged[k].bytes == 0
    ensures Imaged(staged, contents, m)
  {
    hide PlanOk, HostsOf, HostsOfStaged;
    forall k | 0 <= k < |staged| && staged[k].bytes != 0
      ensures ImageOf(staged[k], contents[k], m)
    {
      var s := k - first;
      assert FromSpan(vs, sp, staged[k], k - first) && HoldsSpan(vs, sp, descs, m, contents, first, s);
      SpanHosts(vs, sp, descs, m, s, staged[k]);
    }
  }

  // What is staged for a place holds the byte of that place.
  ghost predicate Imaged(staged: seq<Staged>, contents: seq<Bytes>, m: seq<Byte>) {
    |contents| == |staged| && forall k :: 0 <= k < |staged| && staged[k].bytes != 0 ==>
      ImageOf(staged[k], contents[k], m)
  }

  ghost predicate ImageOf(s: Staged, b: Bytes, m: seq<Byte>) {
    && |HostsOfStaged(s)| == |b|
    && forall c :: 0 <= c < |b| ==> 0 <= HostsOfStaged(s)[c] < |m| && b[c] == m[HostsOfStaged(s)[c]]
  }

  // The places of all staged buffers are in memory, and no two are the same.
  ghost predicate AllHome(staged: seq<Staged>, size: nat) {
    && (forall k :: 0 <= k < |staged| ==> Home(staged[k], size))
    && (forall j, k :: 0 <= j < k < |staged| && staged[j].bytes != 0 && staged[k].bytes != 0 ==>
          NoneShared(HostsOfStaged(staged[j]), HostsOfStaged(staged[k])))
  }

  ghost predicate NoneShared(a: seq<int>, b: seq<int>) {
    forall x :: x in a ==> x !in b
  }

  lemma StagedHomes(vs: seq<View>, sp: seq<CopySpan>, descs: seq<Desc>, m: seq<Byte>, staged: seq<Staged>, first: nat)
    requires HostsInside(vs, sp, descs, |m|)
    requires forall k :: 0 <= k < |staged| ==>
               staged[k].bytes == 0 || (Home(staged[k], |m|) && FromSpan(vs, sp, staged[k], k - first))
    ensures AllHome(staged, |m|)
  {
    hide PlanOk, HostsOf, HostsOfStaged, FromSpan, NoneShared;
    forall k | 0 <= k < |staged|
      ensures Home(staged[k], |m|)
    {
    }
    hide Home;
    forall j, k | 0 <= j < k < |staged| && staged[j].bytes != 0 && staged[k].bytes != 0
      ensures NoneShared(HostsOfStaged(staged[j]), HostsOfStaged(staged[k]))
    {
      SpansApart(vs, sp, descs, m, staged[j], j - first, staged[k], k - first);
    }
  }

  lemma SpansApart(vs: seq<View>, sp: seq<CopySpan>, descs: seq<Desc>, m: seq<Byte>, a: Staged, s: int, b: Staged,
                   t: int)
    requires HostsInside(vs, sp, descs, |m|) && s != t && FromSpan(vs, sp, a, s) && FromSpan(vs, sp, b, t)
    requires a.bytes != 0 && b.bytes != 0 && Home(a, |m|) && Home(b, |m|)
    ensures NoneShared(HostsOfStaged(a), HostsOfStaged(b))
  {
    hide PlanOk, HostsOf;
    SpanHosts(vs, sp, descs, m, s, a);
    SpanHosts(vs, sp, descs, m, t, b);
    hide HostsOfStaged;
    var hs, ht := HostsOf(vs, sp, descs, s), HostsOf(vs, sp, descs, t);
    forall c, e | 0 <= c < |hs| && 0 <= e < |ht|
      ensures hs[c] != ht[e]
    {
      if hs[c] == ht[e] {
        HostsInjective(vs, sp, descs, s, c, t, e);
      }
    }
  }

  // ---- On the worker ----

  // Every argument that was staged is rebuilt, and reads the values it has here.
  lemma StagedReadsSame(w0: State, w: State, staged: seq<Staged>, contents: seq<Bytes>, out: Arg, m: seq<Byte>, d: Desc)
    requires Sound(w) && StagedOk(w0, w, staged, contents) && Carried(out, staged, contents, m, d)
    ensures ReadsSame(w, out, m, d)
  {
    hide Sound, Holding, Live, Resident, ReadsSame, SameCells;
    var k, at: nat :| 0 <= k < |staged| && k < |contents| && CarriedBy(out, staged[k], at, contents[k], m, d);
    assert StagedAt(w0, w, staged[k], contents[k]);
    HoldingReads(w, out, staged[k].handle, at, contents[k], m, d);
  }

  // A tensor the program placed on the worker itself resolves there, and fits.
  ghost predicate ResidentFits(w: State, a: LocalArg, descs: seq<Desc>)
    requires GoodArg(a, descs)
  {
    a.desc >= 0 && Shippable(descs[a.desc], a.tag) &&
    var d := descs[a.desc]; var out := TensorArg(a.tag, DataAt(d, Elem(a.tag)), d.sizes, d.strides);
    Sized(out) && exists r :: NamesView(w.table.regions, out, r)
  }

  // The first `n` bytes of a scalar, and zeros.
  predicate SameScalar(s: Bytes, n: nat, v: Bytes) {
    |s| == |v| == 8 && n <= 8 && v[..n] == s[..n] && forall i :: n <= i < 8 ==> v[i] == 0
  }

  // The tensor starts at this address, in a live region of the worker.
  predicate StartsThere(w: State, address: int, r: Rebuilt) {
    r.Tensor? && exists i :: 0 <= i < |w.table.regions| && RegionStarts(w.table.regions[i], address, r)
  }

  predicate RegionStarts(g: Region, address: int, r: Rebuilt)
    requires r.Tensor?
  {
    g.live && g.base <= address < g.base + g.size && r.remote == g.remote && r.offset == address - g.base
  }

  // What the plugin on the worker gets for an argument: an empty slot, the bytes of a scalar, a tensor
  // with the values of the one here, or the tensor that the descriptor names on the worker.
  ghost predicate ArrivesAs(w: State, a: LocalArg, descs: seq<Desc>, m: seq<Byte>, r: Rebuilt)
    requires GoodArg(a, descs)
  {
    if HoldsNothing(a, descs) then r == EmptySlot
    else if IsScalar(a) then r.Value? && SameScalar(a.scalar, DtypeBytes(Kind(a.tag)), r.bytes)
    else
      && a.desc >= 0
      && var d, b := descs[a.desc], DtypeBytes(Elem(a.tag));
         if IsLocal(a, descs) then ReadsAs(w.heap, r, b, m, d)
         else
           && r.Tensor? && r.sizes == d.sizes
           && (!IsEmpty(d, Elem(a.tag)) ==>
                 r.strides == d.strides && StartsThere(w, (d.aligned + d.offset * b) % TWO_64, r))
  }

  lemma Arrives(w0: State, w: State, a: LocalArg, out: Arg, descs: seq<Desc>, staged: seq<Staged>,
                contents: seq<Bytes>, m: seq<Byte>, r: Rebuilt)
    requires Sound(w) && StagedOk(w0, w, staged, contents) && GoodArg(a, descs)
    requires SentAs(a, out, descs, staged, contents, m) && Sized(out) && Rebuilds(w.table.regions, out, r)
    ensures ArrivesAs(w, a, descs, m, r)
  {
    hide Sound, StagedOk, IsHandle, IsSlot, Kind, Elem, Rank, DtypeBytes, IsSpanOf, Carried, NamesView, StartsThere;
    hide ReadsAs, FitsIn, AllI64;
    if HoldsNothing(a, descs) || IsScalar(a) {
    } else if IsLocal(a, descs) || IsEmpty(descs[a.desc], Elem(a.tag)) {
      StagedReadsSame(w0, w, staged, contents, out, m, descs[a.desc]);
      ReadsRebuilt(w, out, m, descs[a.desc], r);
    } else {
      HandlePositive(DataAt(descs[a.desc], Elem(a.tag)));
      ResidentStarts(w, out, r);
    }
  }

  lemma ReadsRebuilt(w: State, a: Arg, m: seq<Byte>, d: Desc, r: Rebuilt)
    requires ReadsSame(w, a, m, d) && NamesView(w.table.regions, a, r)
    ensures ReadsAs(w.heap, r, DtypeBytes(Elem(a.tag)), m, d) && r.Tensor? && r.sizes == d.sizes
  {
    hide FitsIn, Resolve, AllI64;
  }

  lemma ResidentStarts(w: State, a: Arg, r: Rebuilt)
    requires Sound(w) && Sized(a) && NamesView(w.table.regions, a, r)
    ensures r.Tensor? && r.sizes == a.sizes && r.strides == a.strides && StartsThere(w, a.handle, r)
  {
    hide Inv, FitsIn, Resolve, AllI64, Backed;
    ResolveIsLinear(w.table, a.handle);
    var ref := Resolve(w.table.regions, a.handle);
    assert RegionStarts(w.table.regions[ref.index], a.handle, r);
  }

  // The worker accepts an encoded argument, if it accepts what was there before, and rebuilds what must
  // arrive.
  lemma Accepted(w0: State, w: State, a: LocalArg, out: Arg, descs: seq<Desc>, staged: seq<Staged>,
                 contents: seq<Bytes>, m: seq<Byte>)
    requires Sound(w) && StagedOk(w0, w, staged, contents) && GoodArg(a, descs) && GoodDescs(descs)
    requires SentAs(a, out, descs, staged, contents, m)
    requires IsTensor(a, descs) && !IsLocal(a, descs) ==> ResidentFits(w, a, descs)
    requires IsSlot(a.tag) ==> Rank(a.tag) <= MAX_RANK
    ensures WellFormed(out) && CanRebuild(w.table.regions, out)
    ensures IsLocal(a, descs) ==> ReadsSame(w, out, m, descs[a.desc])
    ensures forall r :: Rebuilds(w.table.regions, out, r) ==> ArrivesAs(w, a, descs, m, r)
  {
    SentWellFormed(a, out, descs, staged, contents, m);
    hide Sound, StagedOk, IsHandle, IsSlot, Kind, Elem, Rank, DtypeBytes, IsSpanOf, Carried, WellFormed, NamesView;
    hide ReadsSame, ArrivesAs;
    var rs := w.table.regions;
    SizedIfWellFormed(out);
    forall r | Rebuilds(rs, out, r)
      ensures ArrivesAs(w, a, descs, m, r)
    {
      Arrives(w0, w, a, out, descs, staged, contents, m, r);
    }
    if HoldsNothing(a, descs) {
      assert Rebuilds(rs, out, EmptySlot);
    } else if IsScalar(a) {
      assert Rebuilds(rs, out, Value(out.scalar));
    } else if IsLocal(a, descs) || IsEmpty(descs[a.desc], Elem(a.tag)) {
      StagedReadsSame(w0, w, staged, contents, out, m, descs[a.desc]);
      ReadsNames(w, out, m, descs[a.desc]);
      var r :| NamesView(rs, out, r);
      assert Rebuilds(rs, out, r);
    } else {
      HandlePositive(DataAt(descs[a.desc], Elem(a.tag)));
      var r :| NamesView(rs, out, r);
      assert Rebuilds(rs, out, r);
    }
  }

  lemma ReadsNames(w: State, a: Arg, m: seq<Byte>, d: Desc)
    requires ReadsSame(w, a, m, d)
    ensures Sized(a) && exists r :: NamesView(w.table.regions, a, r)
  {}
}
