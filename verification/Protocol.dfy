// The request and reply protocol over the byte streams of one connection: a turn of the worker's
// serve loop (runtime/vx_worker_main.cpp), and the round trip that every call of the host makes
// (runtime/vx_remote_client.h).
module Protocol {
  import opened Options
  import opened Abi
  import opened Wire
  import opened Cursor
  import opened Transport
  import opened Handles
  import opened Worker
  import opened Agent
  import opened Serving

  const TRANSFER: int := 1
  const DISPATCH: int := 2
  const FREE: int := 3
  const FETCH: int := 4

  // ---- What a message is answered ----

  ghost predicate AnswersTransfer(w: State, body: Bytes, w': State, b: Bytes)
    requires |w.table.next| == 256
  {
    var g := GetTransfer(body, 0);
    if g.Refused? then w' == w && b == U64(0)
    else
      exists handle: nat ::
        IsU64(handle) && TransferDone(w, g.value.bytes, g.value.dtype, w', handle) && b == U64(handle)
  }

  ghost predicate AnswersDispatch(w: State, topology: int, kernel: Plugin, body: Bytes, w': State, b: Bytes)
    requires |w.table.next| == 256
  {
    var g := GetDispatch(body, 0);
    if g.Refused? then w' == w && b == ReplyBytes(Reply(-1, []))
    else
      && AllSized(g.value.args) && w' == Dispatched(w, topology, g.value, kernel)
      && ReplyFits(DispatchReply(w, topology, g.value, kernel))
      && b == ReplyBytes(DispatchReply(w, topology, g.value, kernel))
  }

  ghost predicate AnswersFetch(w: State, body: Bytes, b: Bytes) {
    var g := GetFetch(body, 0);
    if g.Refused? then b == [] else g.value.0 >= 0 && g.value.1 >= 0 && b == Fetched(w, g.value.0, g.value.1)
  }

  ghost predicate AnswersFree(w: State, body: Bytes, w': State) {
    var g := GetU64(body, 0);
    if g.Refused? then w' == w else g.value >= 0 && w' == Released(w, g.value)
  }

  // The worker keeps serving after this message.
  predicate Answerable(m: Received) {
    m.TooLarge? || (m.Message? && m.kind in {TRANSFER, DISPATCH, FREE, FETCH})
  }

  // The one frame that answers a message, and the state it leaves.
  ghost predicate Answers(w: State, topology: int, kernel: Plugin, m: Received, w': State, f: Frame)
    requires |w.table.next| == 256 && Answerable(m)
  {
    && f.kind == m.kind
    && match m
       case TooLarge(_, _) => w' == w && f.body == []
       case Message(kind, body) =>
         if kind == TRANSFER then AnswersTransfer(w, body, w', f.body)
         else if kind == DISPATCH then AnswersDispatch(w, topology, kernel, body, w', f.body)
         else if kind == FETCH then w' == w && AnswersFetch(w, body, f.body)
         else f.body == [] && AnswersFree(w, body, w')
  }

  // A transfer that the region table has room for.
  ghost predicate HasPlace(w: State, m: Received) {
    && m.Message? && m.kind == TRANSFER
    && var g := GetTransfer(m.body, 0); g.Got? && |w.table.next| == 256 && HasRoom(w.table, w.id, |g.value.bytes|)
  }

  // ---- Sizes of replies ----

  lemma HandleFits(w: State, bytes: Bytes, dev: Option<nat>)
    requires Sound(w)
    ensures IsU64(StoredAt(w, bytes, dev))
  {}

  // The handles a run names are addresses, and the ranks are those of the slots.
  lemma {:induction false} NamedFit(t: Table, id: nat, dtype: int, outputs: seq<Option<Output>>)
    requires |t.next| == 256 && 1 <= id <= WORKER_MAX
    requires forall j :: 0 <= j < |outputs| && outputs[j].Some? ==>
               |outputs[j].value.sizes| <= MAX_RANK && AllI64(outputs[j].value.sizes)
    ensures AllResultsFit(NameOutputs(t, id, dtype, outputs).results)
  {
    hide AllI64;
    if |outputs| > 0 {
      NamedFit(t, id, dtype, outputs[..|outputs| - 1]);
    }
  }

  lemma ReplyIsSmall(w: State, topology: int, d: Dispatch, kernel: Plugin)
    requires Sound(w) && AllSized(d.args) && WellBehaved(kernel)
    ensures ReplyFits(DispatchReply(w, topology, d, kernel))
    ensures |ReplyBytes(DispatchReply(w, topology, d, kernel))| <= 12 + 76 * MAX_ARGS
  {
    var r := DispatchReply(w, topology, d, kernel);
    if r.status == 0 {
      var e := kernel(w, Handed(w, d, topology));
      PluginFills(w, topology, d, kernel);
      OutputsFit(w, d.args, e);
      NamedFit(w.table, w.id, e.dtype, e.outputs);
      SlotsFew(d.args);
    }
    hide CanRun, Sound, Behaves, Fills;
    ResultsLength(r.results);
  }

  lemma OutputsFit(w: State, args: seq<Arg>, e: Effect)
    requires AllSized(args) && Fills(args, e) && e.Runs?
    requires forall i :: 0 <= i < |args| ==> CanRebuild(w.table.regions, args[i])
    ensures forall j :: 0 <= j < |e.outputs| && e.outputs[j].Some? ==>
              |e.outputs[j].value.sizes| <= MAX_RANK && AllI64(e.outputs[j].value.sizes)
  {
    forall j | 0 <= j < |e.outputs| && e.outputs[j].Some?
      ensures |e.outputs[j].value.sizes| <= MAX_RANK
    {
      assert CanRebuild(w.table.regions, args[SlotsOf(args)[j]]);
    }
  }

  lemma {:induction false} SlotsFew(args: seq<Arg>)
    ensures |SlotsOf(args)| <= |args|
  {
    if |args| > 0 {
      SlotsFew(args[..|args| - 1]);
    }
  }

  lemma {:induction false} ResultsLength(rs: seq<Result>)
    requires AllResultsFit(rs)
    ensures |ResultsBytes(rs)| <= 76 * |rs|
  {
    if |rs| > 0 {
      hide AllI64;
      ResultsLength(rs[..|rs| - 1]);
    }
  }

  // ---- A turn of serve ----

  // The reply buffer, with one thing in it.
  method NewReply() returns (buf: array<Byte>, w: Writer)
    ensures fresh(buf) && fresh(w) && buf.Length == REPLY_MAX
    ensures w.Valid() && w.data == buf && w.State() == Out([], REPLY_MAX, false)
  {
    buf := new Byte[REPLY_MAX](i => 0);
    w := new Writer(buf);
  }

  lemma AllWritten(room: nat, b: Bytes, o: Out)
    requires Wrote(Out([], room, false), b, o) && |b| <= room
    ensures !o.overflow && o.bytes == b
  {}

  // case VX_WIRE_TRANSFER
  method AnswerTransfer(p: WorkerProcess, body: Bytes) returns (b: Bytes)
    requires p.Valid() && |p.Now().table.next| == 256
    modifies p, p.table, p.table.regions, p.table.nextOffset
    ensures p.Valid() && AnswersTransfer(old(p.Now()), body, p.Now(), b) && |b| == 8
    ensures old(p.Offering()) && HasPlace(old(p.Now()), Message(TRANSFER, body)) ==> b != U64(0)
  {
    hide Sound, GetTransfer, U64, StoredAt, Stored;
    ghost var before := p.Now();
    var r := new Reader(body);
    var ok, t := r.TransferGet();
    var handle := 0;
    assert p.Valid() && p.Now() == before;
    if ok {
      handle := p.ServeTransfer(t.bytes, t.dtype);
      ghost var dev :| Unused(before, dev) && p.Now() == Stored(before, t.bytes, t.dtype, dev)
                       && handle == StoredAt(before, t.bytes, dev);
      HandleFits(before, t.bytes, dev);
    }
    if handle != 0 {
      NotZero(handle);
    }
    ghost var after := p.Now();
    var buf, w := NewReply();
    w.PutU64(handle);
    AllWritten(REPLY_MAX, U64(handle), w.State());
    b := buf[..w.len];
    assert p.Now() == after;
  }

  lemma NotZero(v: int)
    requires IsU64(v) && v != 0
    ensures U64(v) != U64(0)
  {
    assert Holds(U64(v), 0, U64(v)) && Holds(U64(0), 0, U64(0));
    U64Back(U64(v), 0, v);
    U64Back(U64(0), 0, 0);
  }

  // case VX_WIRE_DISPATCH
  method AnswerDispatch(p: WorkerProcess, body: Bytes, kernel: Plugin) returns (b: Bytes)
    requires p.Valid() && |p.Now().table.next| == 256 && |body| <= BODY_MAX && WellBehaved(kernel)
    modifies p, p.table, p.table.regions, p.table.nextOffset
    ensures p.Valid() && AnswersDispatch(old(p.Now()), p.topology, kernel, body, p.Now(), b) && |b| <= REPLY_MAX
  {
    hide Sound, GetDispatch, DispatchReply, Dispatched, WellBehaved, ReplyBytes, Sendable, AllSized, ReplyFits;
    ghost var before := p.Now();
    var r := new Reader(body);
    var ok, d := r.DispatchGet();
    assert p.Valid() && p.Now() == before;
    var results := [];
    if ok {
      DispatchRead(body, 0);
      SendableArgs(d);
      ReplyIsSmall(before, p.topology, d, kernel);
      ok, results := p.ServeDispatch(d, kernel);
    }
    var reply := Reply(if ok then 0 else -1, if ok then results else []);
    assert GetDispatch(body, 0).Got? ==> reply == DispatchReply(before, p.topology, d, kernel);
    RefusalFits();
    ghost var after := p.Now();
    var buf, w := NewReply();
    w.PutReply(reply);
    AllWritten(REPLY_MAX, ReplyBytes(reply), w.State());
    b := buf[..w.len];
    assert p.Now() == after;
  }

  lemma RefusalFits()
    ensures ReplyFits(Reply(-1, [])) && |ReplyBytes(Reply(-1, []))| == 12
  {}

  // case VX_WIRE_FETCH
  method AnswerFetch(p: WorkerProcess, body: Bytes) returns (b: Bytes)
    requires p.Valid()
    ensures AnswersFetch(p.Now(), body, b) && |b| <= REPLY_MAX
  {
    hide Sound, GetU64, Resolve;
    ghost var before := p.Now();
    var r := new Reader(body);
    var ok, handle, n := r.FetchGet();
    assert p.Valid() && p.Now() == before;
    if !ok {
      return [];
    }
    FetchIsNatural(body);
    b := p.ServeFetch(handle, n);
  }

  lemma FetchIsNatural(s: Bytes)
    requires GetFetch(s, 0).Got?
    ensures GetFetch(s, 0).value.0 >= 0 && GetFetch(s, 0).value.1 >= 0
  {
    HandleIsNatural(s, 0);
    HandleIsNatural(s, GetU64(s, 0).next);
  }

  // case VX_WIRE_FREE
  method AnswerFree(p: WorkerProcess, body: Bytes)
    requires p.Valid()
    modifies p, p.table, p.table.regions
    ensures p.Valid() && AnswersFree(old(p.Now()), body, p.Now())
  {
    hide Sound, GetU64, Released;
    ghost var before := p.Now();
    var r := new Reader(body);
    var ok, handle := r.U64Get();
    assert p.Valid() && p.Now() == before;
    if ok {
      HandleIsNatural(body, 0);
      p.ServeFree(handle);
    }
  }

  // The reply to a message that can be answered.
  method Answer(p: WorkerProcess, m: Received, kernel: Plugin) returns (f: Frame)
    requires p.Valid() && |p.Now().table.next| == 256 && Answerable(m) && WellBehaved(kernel)
    requires m.Message? ==> |m.body| <= BODY_MAX
    modifies p, p.table, p.table.regions, p.table.nextOffset
    ensures p.Valid() && Answers(old(p.Now()), p.topology, kernel, m, p.Now(), f)
    ensures f.kind == m.kind && |f.body| <= REPLY_MAX
    ensures old(p.Offering()) && HasPlace(old(p.Now()), m) ==> f.body != U64(0)
  {
    hide Sound, WellBehaved, AnswersTransfer, AnswersDispatch, AnswersFetch, AnswersFree;
    var b: Bytes := [];
    if m.Message? {
      if m.kind == TRANSFER {
        b := AnswerTransfer(p, m.body);
      } else if m.kind == DISPATCH {
        b := AnswerDispatch(p, m.body, kernel);
      } else if m.kind == FETCH {
        b := AnswerFetch(p, m.body);
      } else {
        AnswerFree(p, m.body);
      }
    }
    f := Frame(m.kind, b);
  }

  // One turn of serve: receive, answer, send. It goes on exactly after a message that it can answer,
  // unless a reply did not go out; of TOO_LARGE and FREE it does not look at that.
  method ServeTurn(fd: Source, out: Sink, p: WorkerProcess, kernel: Plugin)
    returns (go: bool, sent: bool, m: Received, ghost f: Frame)
    requires p.Valid() && |p.Now().table.next| == 256 && fd.Valid() && WellBehaved(kernel)
    modifies fd`pos, fd`events, out, p, p.table, p.table.regions, p.table.nextOffset
    ensures p.Valid() && fd.Valid() && (go ==> Answerable(m)) && (sent ==> go)
    ensures m == RecvOutcome(fd.stream, old(fd.pos), BODY_MAX) || m == Broken
    ensures !Answerable(m) ==> p.Now() == old(p.Now()) && out.out == old(out.out)
    ensures Answerable(m) ==>
              && fd.pos == old(fd.pos) + HEADER_BYTES + (if m.Message? then |m.body| else m.length)
              && Answers(old(p.Now()), p.topology, kernel, m, p.Now(), f) && Framable(f)
              && (if sent then out.out == old(out.out) + FrameBytes(f)
                  else CutShort(out.out, old(out.out), FrameBytes(f)))
    ensures Answerable(m) && old(p.Offering()) && HasPlace(old(p.Now()), m) ==> f.body != U64(0)
    ensures Benign(old(fd.events)) && Benign(old(out.events)) ==>
              && m == RecvOutcome(fd.stream, old(fd.pos), BODY_MAX) && (sent <==> Answerable(m))
              && Benign(fd.events) && Benign(out.events)
  {
    hide Sound, WellBehaved, Benign, RecvBody, Answers, FrameBytes;
    f := Frame(0, []);
    ghost var before := p.Now();
    m := Recv(fd, BODY_MAX);
    assert p.Valid() && p.Now() == before;
    if !Answerable(m) {
      return false, false, m, f;
    }
    RecvSizes(fd.stream, old(fd.pos), BODY_MAX);
    var reply := Answer(p, m, kernel);
    f := reply;
    ghost var after := p.Now();
    sent := Send(out, reply);
    assert p.Valid() && p.Now() == after;
    go := sent || m.TooLarge? || m.kind == FREE;
  }

  lemma RecvSizes(s: Bytes, at: nat, capacity: nat)
    requires at <= |s|
    ensures var m := RecvOutcome(s, at, capacity);
            && (m.Message? ==> IsU32(m.kind) && |m.body| <= capacity) && (m.TooLarge? ==> IsU32(m.kind))
  {
    hide Joined;
  }

  // ---- A connection ----

  // The two byte streams between a host and its worker. What one end sent has come in at the other.
  // A connection that failed stays failed.
  class Link {
    const worker: WorkerProcess
    const kernel: Plugin
    const hostOut: Sink
    const workerIn: Source
    const workerOut: Sink
    const hostIn: Source
    var lost: bool
    ghost var refused: nat   // how many transfers got no handle

    ghost function Parts(): set<object>
      reads this
    {
      {this, worker, worker.table, worker.table.regions, worker.table.nextOffset, hostOut, workerIn, workerOut, hostIn}
    }

    ghost predicate Valid()
      reads this, worker, worker.table, worker.table.regions, worker.table.nextOffset
      reads hostOut, workerIn, workerOut, hostIn
    {
      && worker.Valid() && WellBehaved(kernel) && hostOut != workerOut && workerIn != hostIn
      && workerIn.Valid() && hostIn.Valid() && workerIn.stream <= hostOut.out && hostIn.stream <= workerOut.out
      && (!lost ==> InStep())
    }

    // Every byte sent has been taken: both streams are at the end of a frame.
    ghost predicate InStep()
      reads hostOut, workerIn, workerOut, hostIn
    {
      && workerIn.stream == hostOut.out && workerIn.pos == |hostOut.out|
      && hostIn.stream == workerOut.out && hostIn.pos == |workerOut.out|
    }

    // No read or write will fail; they may be short and interrupted.
    ghost predicate Quiet()
      reads this, hostOut, workerIn, workerOut, hostIn
    {
      !lost && Benign(hostOut.events) && Benign(workerIn.events) && Benign(workerOut.events) && Benign(hostIn.events)
    }

    ghost function Now(): State
      requires worker.table.Valid()
      reads worker, worker.table, worker.table.regions, worker.table.nextOffset
    {
      worker.Now()
    }

    constructor (p: WorkerProcess, plugin: Plugin, schedules: seq<seq<Event>>)
      requires p.Valid() && WellBehaved(plugin) && |schedules| == 4
      ensures Valid() && worker == p && kernel == plugin && !lost
      ensures (forall i :: 0 <= i < 4 ==> Benign(schedules[i])) ==> Quiet()
      ensures fresh(hostOut) && fresh(workerIn) && fresh(workerOut) && fresh(hostIn)
    {
      worker, kernel, lost, refused := p, plugin, false, 0;
      hostOut := new Sink(schedules[0]);
      workerIn := new Source([], schedules[1]);
      workerOut := new Sink(schedules[2]);
      hostIn := new Source([], schedules[3]);
    }

    // A request goes out.
    method Ask(f: Frame) returns (ok: bool)
      requires Valid() && !lost && Framable(f)
      modifies hostOut, workerIn`stream
      ensures ok ==> hostOut.out == old(hostOut.out) + FrameBytes(f) && workerIn.stream == hostOut.out
      ensures !ok ==> workerIn.stream == old(workerIn.stream) <= hostOut.out
      ensures Benign(old(hostOut.events)) ==> ok && Benign(hostOut.events)
    {
      hide FrameBytes, Benign, Sound, WellBehaved;
      ok := Send(hostOut, f);
      if ok {
        workerIn.Extend(hostOut.out);
      }
    }

    // The worker takes the request that has come in, and its reply comes in.
    method Turn(ghost before: Bytes, ghost request: Frame) returns (ok: bool, ghost f: Frame)
      requires worker.Valid() && WellBehaved(kernel) && workerIn.Valid() && hostIn.Valid() && Framable(request)
      requires request.kind in {TRANSFER, DISPATCH, FREE, FETCH} && |Now().table.next| == 256
      requires workerIn.stream == before + FrameBytes(request) && workerIn.pos == |before|
      requires hostIn.stream <= workerOut.out
      requires hostOut != workerOut && workerIn != hostIn
      modifies workerIn`pos, workerIn`events, workerOut, hostIn`stream, worker, worker.table, worker.table.regions,
               worker.table.nextOffset
      ensures worker.Valid() && workerIn.Valid() && hostIn.Valid() && hostIn.stream <= workerOut.out
      ensures ok ==> Framable(f) && workerIn.pos == |workerIn.stream|
                     && Answers(old(Now()), worker.topology, kernel, Delivery(request, BODY_MAX), Now(), f)
                     && workerOut.out == old(workerOut.out) + FrameBytes(f) && hostIn.stream == workerOut.out
      ensures ok && old(worker.Offering()) && HasPlace(old(Now()), Delivery(request, BODY_MAX)) ==> f.body != U64(0)
      ensures Benign(old(workerIn.events)) && Benign(old(workerOut.events)) ==>
                ok && Benign(workerIn.events) && Benign(workerOut.events)
    {
      hide Sound, WellBehaved, Benign, Answers, FrameBytes, RecvOutcome, HasPlace, HasRoom;
      StandsAt(before, request);
      FrameArrives(workerIn.stream, |before|, request, BODY_MAX);
      FrameLength(request);
      var go, m;
      go, ok, m, f := ServeTurn(workerIn, workerOut, worker, kernel);
      if ok {
        hostIn.Extend(workerOut.out);
      }
    }

    // The reply that has come in.
    method Await(ghost before: Bytes, ghost f: Frame, capacity: nat) returns (r: Received)
      requires hostIn.Valid() && Framable(f) && hostIn.stream == before + FrameBytes(f) && hostIn.pos == |before|
      modifies hostIn`pos, hostIn`events
      ensures hostIn.Valid() && (r == Delivery(f, capacity) || (!r.Message? && !r.TooLarge?))
      ensures r.Message? || r.TooLarge? ==> hostIn.pos == |hostIn.stream|
      ensures Benign(old(hostIn.events)) ==> r == Delivery(f, capacity) && Benign(hostIn.events)
    {
      hide FrameBytes, Benign, RecvOutcome;
      StandsAt(before, f);
      FrameArrives(hostIn.stream, |before|, f, capacity);
      FrameLength(f);
      r := Recv(hostIn, capacity);
    }

    // A call: one frame each way. A reply that it gets is the reply to its own request.
    method RoundTrip(kind: int, body: Bytes, capacity: nat) returns (r: Received, ghost f: Frame)
      requires Valid() && kind in {TRANSFER, DISPATCH, FREE, FETCH} && IsU64(|body|)
      modifies Parts()
      ensures Valid() && refused == old(refused)
      ensures lost ==> !r.Message? && !r.TooLarge?
      ensures !lost ==>
                && !old(lost) && Framable(f) && |old(Now()).table.next| == 256
                && Answers(old(Now()), worker.topology, kernel, Delivery(Frame(kind, body), BODY_MAX), Now(), f)
                && r == Delivery(f, capacity)
                && hostOut.out == old(hostOut.out) + FrameBytes(Frame(kind, body))
                && workerOut.out == old(workerOut.out) + FrameBytes(f)
      ensures !lost && old(worker.Offering()) && HasPlace(old(Now()), Delivery(Frame(kind, body), BODY_MAX)) ==>
                f.body != U64(0)
      ensures old(Quiet()) ==> Quiet()
    {
      hide Sound, WellBehaved, Benign, Answers, FrameBytes, RecvOutcome, HasPlace, HasRoom;
      f := Frame(kind, []);
      if lost {
        return Broken, f;
      }
      SoundParts(Now());
      ghost var sent, replied := hostOut.out, workerOut.out;
      var request := Frame(kind, body);
      var ok := Ask(request);
      if !ok {
        lost := true;
        return Broken, f;
      }
      ok, f := Turn(sent, request);
      if !ok {
        lost := true;
        return Broken, f;
      }
      r := Await(replied, f, capacity);
      if !r.Message? && !r.TooLarge? {
        lost := true;
      }
    }
  }

  lemma StandsAt(before: Bytes, f: Frame)
    requires Framable(f)
    ensures Holds(before + FrameBytes(f), |before|, FrameBytes(f))
  {}
}
