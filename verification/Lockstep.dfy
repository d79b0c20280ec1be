// A host and its worker as two parties that take turns on two byte streams (runtime/vx_remote_client.h
// and the serve loop of runtime/vx_worker_main.cpp). Whatever the order of their steps, a call never
// reads the reply to another call.
module Lockstep {
  import opened Options
  import opened Wire
  import opened Transport
  import opened Handles
  import opened Worker
  import opened Serving
  import opened Protocol

  // `up` and `down` are all bytes sent each way, `taken` and `read` how many were received. The rest is
  // history: the requests, the replies, the worker's states around its turns, and what the host got.
  datatype System = System(
    up: Bytes, taken: nat, down: Bytes, read: nat, waiting: bool,
    asked: seq<Frame>, replies: seq<Frame>, states: seq<State>, got: seq<Received>, capacities: seq<nat>)

  datatype Step =
    | Ask(request: Frame)                   // a call sends its request
    | Serve(after: State, reply: Frame)     // the worker takes the next message, and replies
    | Read(capacity: nat)                   // the call receives into a buffer, and returns

  // The bytes that a receive takes from the stream.
  function FrameSize(m: Received): nat {
    match m
    case Message(_, body) => HEADER_BYTES + |body|
    case TooLarge(_, length) => HEADER_BYTES + if length < 0 then 0 else length
    case _ => 0
  }

  ghost predicate Enabled(s: System, topology: int, kernel: Plugin, step: Step) {
    match step
    case Ask(f) => !s.waiting && f.kind in {TRANSFER, DISPATCH, FREE, FETCH} && Framable(f)
    case Serve(after, f) =>
      && s.taken < |s.up| && |s.states| > 0 && |s.states[|s.states| - 1].table.next| == 256 && Framable(f)
      && var m := RecvOutcome(s.up, s.taken, BODY_MAX);
         Answerable(m) && Answers(s.states[|s.states| - 1], topology, kernel, m, after, f)
    case Read(_) => s.waiting && s.read < |s.down|
  }

  function Next(s: System, step: Step): System
    requires step.Ask? ==> Framable(step.request)
    requires step.Serve? ==> Framable(step.reply) && s.taken <= |s.up|
    requires step.Read? ==> s.read <= |s.down|
  {
    match step
    case Ask(f) => s.(up := s.up + FrameBytes(f), waiting := true, asked := s.asked + [f])
    case Serve(after, f) =>
      s.(taken := s.taken + FrameSize(RecvOutcome(s.up, s.taken, BODY_MAX)), down := s.down + FrameBytes(f),
         replies := s.replies + [f], states := s.states + [after])
    case Read(capacity) =>
      var m := RecvOutcome(s.down, s.read, capacity);
      s.(read := s.read + FrameSize(m), waiting := false, got := s.got + [m], capacities := s.capacities + [capacity])
  }

  function Start(w: State): System {
    System([], 0, [], 0, false, [], [], [w], [], [])
  }

  // ---- What every run keeps ----

  // Request `k` was answered with reply `k`, in the state that the requests before it left.
  ghost predicate Answered(s: System, topology: int, kernel: Plugin, k: nat)
    requires k < |s.replies| && k < |s.asked| && k + 1 < |s.states|
  {
    && |s.states[k].table.next| == 256 && s.asked[k].kind in {TRANSFER, DISPATCH, FREE, FETCH}
    && Answers(s.states[k], topology, kernel, Delivery(s.asked[k], BODY_MAX), s.states[k + 1], s.replies[k])
  }

  ghost predicate InStep(s: System, topology: int, kernel: Plugin) {
    && AllFramable(s.asked) && AllFramable(s.replies) && s.up == StreamOf(s.asked) && s.down == StreamOf(s.replies)
    && |s.got| == |s.capacities| <= |s.replies| <= |s.asked| <= |s.got| + 1 && |s.states| == |s.replies| + 1
    && s.taken == |StreamOf(s.asked[..|s.replies|])| && s.read == |StreamOf(s.replies[..|s.got|])|
    && (s.waiting <==> |s.got| < |s.asked|)
    && (forall k :: 0 <= k < |s.asked| ==> s.asked[k].kind in {TRANSFER, DISPATCH, FREE, FETCH})
    && (forall k :: 0 <= k < |s.replies| ==> Answered(s, topology, kernel, k))
    && (forall k :: 0 <= k < |s.got| ==> s.got[k] == Delivery(s.replies[k], s.capacities[k]))
  }

  lemma StreamMore(fs: seq<Frame>, f: Frame)
    requires AllFramable(fs) && Framable(f)
    ensures AllFramable(fs + [f]) && StreamOf(fs + [f]) == StreamOf(fs) + FrameBytes(f)
  {
    hide FrameBytes, Framable;
    assert (fs + [f])[..|fs|] == fs;
  }

  lemma AskStep(s: System, topology: int, kernel: Plugin, f: Frame)
    requires InStep(s, topology, kernel) && Enabled(s, topology, kernel, Ask(f))
    ensures InStep(Next(s, Ask(f)), topology, kernel)
  {
    hide Answers, FrameBytes, StreamOf, Framable;
    var s' := Next(s, Ask(f));
    StreamMore(s.asked, f);
    assert s'.asked[..|s.replies|] == s.asked[..|s.replies|];
    forall k | 0 <= k < |s'.replies|
      ensures Answered(s', topology, kernel, k)
    {
      assert Answered(s, topology, kernel, k);
    }
  }

  // The message a worker takes is the request that waits.
  lemma Taken(s: System, topology: int, kernel: Plugin)
    requires InStep(s, topology, kernel) && s.taken < |s.up|
    ensures |s.replies| < |s.asked|
    ensures RecvOutcome(s.up, s.taken, BODY_MAX) == Delivery(s.asked[|s.replies|], BODY_MAX)
    ensures s.taken + FrameSize(RecvOutcome(s.up, s.taken, BODY_MAX)) == |StreamOf(s.asked[..|s.replies| + 1])|
  {
    hide Answers, FrameBytes, StreamOf, Framable, RecvOutcome;
    FramesInOrder(s.asked, |s.replies|, BODY_MAX);
    assert s.asked[..|s.asked|] == s.asked;
  }

  lemma ServeStep(s: System, topology: int, kernel: Plugin, after: State, f: Frame)
    requires InStep(s, topology, kernel) && Enabled(s, topology, kernel, Serve(after, f))
    ensures InStep(Next(s, Serve(after, f)), topology, kernel)
  {
    hide Answers, FrameBytes, StreamOf, Framable, RecvOutcome;
    Taken(s, topology, kernel);
    var s' := Next(s, Serve(after, f));
    StreamMore(s.replies, f);
    assert s'.replies[..|s.got|] == s.replies[..|s.got|];
    forall k | 0 <= k < |s'.replies|
      ensures Answered(s', topology, kernel, k)
    {
      if k < |s.replies| {
        assert Answered(s, topology, kernel, k);
      }
    }
  }

  lemma ReadStep(s: System, topology: int, kernel: Plugin, capacity: nat)
    requires InStep(s, topology, kernel) && Enabled(s, topology, kernel, Read(capacity))
    ensures InStep(Next(s, Read(capacity)), topology, kernel)
  {
    hide Answers, FrameBytes, StreamOf, Framable, RecvOutcome;
    FramesInOrder(s.replies, |s.got|, capacity);
    assert s.replies[..|s.replies|] == s.replies;
    var s' := Next(s, Read(capacity));
    forall k | 0 <= k < |s'.replies|
      ensures Answered(s', topology, kernel, k)
    {
      assert Answered(s, topology, kernel, k);
    }
  }

  // ---- Runs ----

  // A run and the systems it goes through.
  ghost predicate IsRun(topology: int, kernel: Plugin, w: State, steps: seq<Step>, trace: seq<System>) {
    && |trace| == |steps| + 1 && trace[0] == Start(w)
    && forall i :: 0 <= i < |steps| ==> Takes(topology, kernel, trace[i], steps[i], trace[i + 1])
  }

  ghost predicate Takes(topology: int, kernel: Plugin, s: System, step: Step, s': System) {
    Enabled(s, topology, kernel, step) && s.taken <= |s.up| && s.read <= |s.down| && s' == Next(s, step)
  }

  lemma {:induction false} RunsInStep(topology: int, kernel: Plugin, w: State, steps: seq<Step>, trace: seq<System>,
                                      i: nat)
    requires IsRun(topology, kernel, w, steps, trace) && i < |trace|
    ensures InStep(trace[i], topology, kernel) && trace[i].states[0] == w
  {
    hide Answers, Enabled, Next, StreamOf, AllFramable;
    if i == 0 {
      StartInStep(topology, kernel, w);
    } else {
      RunsInStep(topology, kernel, w, steps, trace, i - 1);
      var s, step := trace[i - 1], steps[i - 1];
      assert Takes(topology, kernel, s, step, trace[i - 1 + 1]);
      OneStep(s, topology, kernel, step);
    }
  }

  lemma OneStep(s: System, topology: int, kernel: Plugin, step: Step)
    requires InStep(s, topology, kernel) && Enabled(s, topology, kernel, step) && s.taken <= |s.up|
    requires s.read <= |s.down|
    ensures InStep(Next(s, step), topology, kernel) && |Next(s, step).states| > 0
    ensures Next(s, step).states[0] == s.states[0]
  {
    match step
    case Ask(f) =>
      AskStep(s, topology, kernel, f);
    case Serve(after, f) =>
      ServeStep(s, topology, kernel, after, f);
    case Read(capacity) =>
      ReadStep(s, topology, kernel, capacity);
  }

  lemma StartInStep(topology: int, kernel: Plugin, w: State)
    ensures InStep(Start(w), topology, kernel)
  {}

  // In every run, what call `k` gets is the reply to its own request, as the worker answers it in the
  // state that the calls before it left. Nothing is left in the streams between calls.
  lemma NoStaleReply(topology: int, kernel: Plugin, w: State, steps: seq<Step>, trace: seq<System>)
    requires IsRun(topology, kernel, w, steps, trace)
    ensures var s := trace[|steps|];
            && |s.got| <= |s.asked| && |s.got| <= |s.replies| && |s.states| == |s.replies| + 1
            && |s.capacities| == |s.got|
            && s.states[0] == w
            && (forall k :: 0 <= k < |s.got| ==>
                  Answered(s, topology, kernel, k) && s.got[k] == Delivery(s.replies[k], s.capacities[k]))
            && (!s.waiting ==> |s.got| == |s.asked| && s.taken == |s.up| && s.read == |s.down|)
  {
    RunsInStep(topology, kernel, w, steps, trace, |steps|);
    hide IsRun, Answers;
    var s := trace[|steps|];
    assert s.asked[..|s.asked|] == s.asked && s.replies[..|s.replies|] == s.replies;
  }

  // ---- No call waits for ever ----

  // A sound worker has an answer to every message of a host.
  lemma HasAnswer(w: State, topology: int, kernel: Plugin, f: Frame) returns (after: State, reply: Frame)
    requires Sound(w) && WellBehaved(kernel) && f.kind in {TRANSFER, DISPATCH, FREE, FETCH} && |w.table.next| == 256
    ensures Framable(reply) && Answers(w, topology, kernel, Delivery(f, BODY_MAX), after, reply)
  {
    hide Sound, WellBehaved, GetTransfer, GetDispatch, GetFetch, GetU64, U64, ReplyBytes, Fetched, Released;
    hide Dispatched, DispatchReply;
    after, reply := w, Frame(f.kind, []);
    if |f.body| <= BODY_MAX {
      if f.kind == TRANSFER {
        reply := Frame(TRANSFER, U64(0));
        assert TransferDone(w, GetTransferOr(f.body).bytes, GetTransferOr(f.body).dtype, w, 0) by {
          NoDevice(w, GetTransferOr(f.body).bytes, GetTransferOr(f.body).dtype);
        }
      } else if f.kind == DISPATCH {
        after, reply := DispatchAnswer(w, topology, kernel, f.body);
      } else if f.kind == FETCH {
        reply := FetchAnswer(w, f.body);
      } else {
        after := FreeAnswer(w, f.body);
      }
    }
  }

  ghost function GetTransferOr(body: Bytes): Transfer {
    var g := GetTransfer(body, 0);
    if g.Got? then g.value else Transfer(0, [], [])
  }

  lemma NoDevice(w: State, bytes: Bytes, dtype: int)
    requires |w.table.next| == 256
    ensures TransferDone(w, bytes, dtype, w, 0)
  {
    var dev: Option<nat> := None;
    assert Unused(w, dev) && Stored(w, bytes, dtype, dev) == w && StoredAt(w, bytes, dev) == 0;
  }

  lemma DispatchAnswer(w: State, topology: int, kernel: Plugin, body: Bytes) returns (after: State, reply: Frame)
    requires Sound(w) && WellBehaved(kernel) && |w.table.next| == 256 && |body| <= BODY_MAX
    ensures reply.kind == DISPATCH && Framable(reply) && AnswersDispatch(w, topology, kernel, body, after, reply.body)
  {
    hide Sound, WellBehaved, GetDispatch, ReplyBytes, DispatchReply, Dispatched, Sendable, AllSized;
    RefusalFits();
    after, reply := w, Frame(DISPATCH, ReplyBytes(Reply(-1, [])));
    var g := GetDispatch(body, 0);
    if g.Got? {
      DispatchRead(body, 0);
      SendableArgs(g.value);
      ReplyIsSmall(w, topology, g.value, kernel);
      after := Dispatched(w, topology, g.value, kernel);
      reply := Frame(DISPATCH, ReplyBytes(DispatchReply(w, topology, g.value, kernel)));
    }
  }

  lemma FetchAnswer(w: State, body: Bytes) returns (reply: Frame)
    ensures reply.kind == FETCH && Framable(reply) && AnswersFetch(w, body, reply.body)
  {
    hide GetU64, Resolve;
    reply := Frame(FETCH, []);
    var g := GetFetch(body, 0);
    if g.Got? {
      FetchIsNatural(body);
      reply := Frame(FETCH, Fetched(w, g.value.0, g.value.1));
    }
  }

  lemma FreeAnswer(w: State, body: Bytes) returns (after: State)
    ensures AnswersFree(w, body, after)
  {
    hide GetU64, Released;
    after := w;
    var g := GetU64(body, 0);
    if g.Got? {
      Cursor.HandleIsNatural(body, 0);
      after := Released(w, g.value);
    }
  }

  // Answering keeps the worker sound.
  lemma AnswerSound(w: State, topology: int, kernel: Plugin, m: Received, w': State, f: Frame)
    requires Sound(w) && WellBehaved(kernel) && |w.table.next| == 256 && Answerable(m)
    requires Answers(w, topology, kernel, m, w', f)
    ensures Sound(w') && |w'.table.next| == 256
  {
    SoundParts(w);
    hide Sound, GetTransfer, GetDispatch, GetU64, ReplyBytes, DispatchReply, U64, Released, Stored, StoredAt, Fetched;
    if m.Message? {
      if m.kind == TRANSFER && w' != w {
        var t := GetTransfer(m.body, 0).value;
        var handle: nat :| TransferDone(w, t.bytes, t.dtype, w', handle);
        var dev :| Unused(w, dev) && w' == Stored(w, t.bytes, t.dtype, dev);
        StoredSound(w, t.bytes, t.dtype, dev);
      } else if m.kind == DISPATCH && GetDispatch(m.body, 0).Got? {
        DispatchedSound(w, topology, GetDispatch(m.body, 0).value, kernel);
      } else if m.kind == FREE && w' != w {
        ReleasedSound(w, GetU64(m.body, 0).value);
      }
    }
    SoundParts(w');
  }

  lemma DispatchedSound(w: State, topology: int, d: Dispatch, kernel: Plugin)
    requires Sound(w) && WellBehaved(kernel) && |w.table.next| == 256 && AllSized(d.args)
    ensures Sound(Dispatched(w, topology, d, kernel))
  {
    hide Sound, CanRun, Ran;
    var e := kernel(w, Handed(w, d, topology));
    assert Behaves(w, e);
    if CanRun(w, topology, d, kernel) {
      assert e.Runs? by { RunsIfCan(w, topology, d, kernel); }
      RanRight(w, e.dtype, e);
    }
  }

  lemma RunsIfCan(w: State, topology: int, d: Dispatch, kernel: Plugin)
    requires AllSized(d.args) && CanRun(w, topology, d, kernel)
    ensures kernel(w, Handed(w, d, topology)).Runs?
  {}

  lemma {:induction false} StatesSound(s: System, topology: int, kernel: Plugin, k: nat)
    requires InStep(s, topology, kernel) && WellBehaved(kernel) && Sound(s.states[0]) && k < |s.states|
    ensures Sound(s.states[k])
  {
    hide Sound, WellBehaved, Answers, StreamOf, FrameBytes;
    if k > 0 {
      StatesSound(s, topology, kernel, k - 1);
      assert Answered(s, topology, kernel, k - 1);
      AnswerSound(s.states[k - 1], topology, kernel, Delivery(s.asked[k - 1], BODY_MAX), s.states[k], s.replies[k - 1]);
    }
  }

  // A request that waits can be taken.
  lemma CanServe(s: System, topology: int, kernel: Plugin) returns (after: State, reply: Frame)
    requires InStep(s, topology, kernel) && Sound(s.states[0]) && WellBehaved(kernel) && |s.replies| < |s.asked|
    ensures Enabled(s, topology, kernel, Serve(after, reply))
  {
    hide Sound, WellBehaved, Answers, FrameBytes, StreamOf, RecvOutcome;
    var n := |s.replies|;
    FramesInOrder(s.asked, n, BODY_MAX);
    MoreBytes(s.asked, n);
    StatesSound(s, topology, kernel, n);
    SoundParts(s.states[n]);
    after, reply := HasAnswer(s.states[n], topology, kernel, s.asked[n]);
  }

  // A reply that has come can be read.
  lemma CanRead(s: System, topology: int, kernel: Plugin, capacity: nat)
    requires InStep(s, topology, kernel) && s.waiting && |s.got| < |s.replies|
    ensures Enabled(s, topology, kernel, Read(capacity))
  {
    hide Answers, FrameBytes, StreamOf, RecvOutcome;
    MoreBytes(s.replies, |s.got|);
  }

  lemma MoreBytes(fs: seq<Frame>, n: nat)
    requires AllFramable(fs) && n < |fs|
    ensures |StreamOf(fs[..n])| < |StreamOf(fs)|
  {
    hide StreamOf, RecvOutcome;
    FramesInOrder(fs, n, 0);
    FramesInOrder(fs, n + 1, 0);
  }

  // In every run of a sound worker, a call that waits can go on: its reply has come, or the worker can
  // take its request.
  lemma NeverStuck(topology: int, kernel: Plugin, w: State, steps: seq<Step>, trace: seq<System>)
    requires IsRun(topology, kernel, w, steps, trace) && Sound(w) && WellBehaved(kernel) && trace[|steps|].waiting
    ensures var s := trace[|steps|];
            || (forall capacity :: Enabled(s, topology, kernel, Read(capacity)))
            || exists after, reply :: Enabled(s, topology, kernel, Serve(after, reply))
  {
    RunsInStep(topology, kernel, w, steps, trace, |steps|);
    var s := trace[|steps|];
    hide IsRun, Sound, WellBehaved, Enabled, Answers, StreamOf;
    if |s.replies| == |s.got| {
      var after, reply := CanServe(s, topology, kernel);
    } else {
      forall capacity
        ensures Enabled(s, topology, kernel, Read(capacity))
      {
        CanRead(s, topology, kernel, capacity);
      }
    }
  }
}
