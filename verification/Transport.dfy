// Framing over a byte stream (runtime/vx_transport.h), under every schedule of short
// reads, short writes and interrupted calls.
module Transport {
  import opened Abi
  import opened Wire
  import opened Cursor

  // How one call on the descriptor goes: a signal, a failure, or a number of bytes that
  // the kernel is ready to move. A call with no event left moves all it is asked to.
  datatype Event = Interrupted | Fails | Moves(n: nat)

  predicate Benign(events: seq<Event>) {
    forall i :: 0 <= i < |events| ==> events[i].Interrupted? || (events[i].Moves? && events[i].n > 0)
  }

  datatype Io = Signal | Failure | Count(n: nat)

  function Min(a: nat, b: nat): nat {
    if a < b then a else b
  }

  // What a call for `n` bytes does at an event.
  function IoAt(e: Event, n: nat): Io {
    match e
    case Interrupted => Signal
    case Fails => Failure
    case Moves(k) => Count(Min(k, n))
  }

  // The end of a stream that a sender writes to.
  class Sink {
    var out: Bytes
    var events: seq<Event>

    constructor (schedule: seq<Event>)
      ensures out == [] && events == schedule
    {
      out, events := [], schedule;
    }

    // write(2)
    method Write(b: Bytes) returns (r: Io)
      modifies this
      ensures if old(events) == [] then r == Count(|b|) && events == []
              else events == old(events)[1..] && r == IoAt(old(events)[0], |b|)
      ensures out == old(out) + if r.Count? then b[..r.n] else []
    {
      if |events| == 0 {
        r := Count(|b|);
      } else {
        r := IoAt(events[0], |b|);
        events := events[1..];
      }
      if r.Count? {
        out := out + b[..r.n];
      }
    }
  }

  // The end that a receiver reads from. `stream` is what has come in; a read that needs more sees the
  // peer close.
  class Source {
    var stream: Bytes
    var pos: nat
    var events: seq<Event>

    ghost predicate Valid()
      reads this
    {
      pos <= |stream|
    }

    constructor (bytes: Bytes, schedule: seq<Event>)
      ensures Valid() && stream == bytes && pos == 0 && events == schedule
    {
      stream, pos, events := bytes, 0, schedule;
    }

    // read(2), which blocks until there is a byte or the peer has closed
    method Read(n: nat) returns (r: Io, b: Bytes)
      requires Valid() && n > 0
      modifies `pos, `events
      ensures Valid() && pos == old(pos) + |b| && b == stream[old(pos)..pos] && |b| <= n
      ensures r == if r.Count? then Count(|b|) else r
      ensures !r.Count? ==> b == [] && old(events) != []
      ensures r.Count? ==> (|b| == 0 <==> old(pos) == |stream|)
      ensures events == if old(events) == [] then [] else old(events)[1..]
      ensures Benign(old(events)) ==> r != Failure
      ensures old(events) == [] ==> |b| == Min(n, |stream| - old(pos))
    {
      var most := Min(n, |stream| - pos);
      b := [];
      if |events| == 0 {
        b := stream[pos..pos + most];
        r := Count(most);
      } else {
        var e := events[0];
        events := events[1..];
        match e
        case Interrupted => r := Signal;
        case Fails => r := Failure;
        case Moves(k) =>
          var some := Min(most, if k == 0 then 1 else k);
          b := stream[pos..pos + some];
          r := Count(some);
      }
      pos := pos + |b|;
    }

    // More bytes come in behind those that are there.
    method Extend(bytes: Bytes)
      requires Valid() && stream <= bytes
      modifies `stream
      ensures Valid() && stream == bytes
    {
      stream := bytes;
    }
  }

  // ---- All of a buffer ----

  // Only a strict prefix of `b` went out.
  ghost predicate CutShort(out: Bytes, was: Bytes, b: Bytes) {
    exists k :: 0 <= k < |b| && out == was + b[..k]
  }

  lemma Joins(b: Bytes, i: nat, n: nat)
    requires i + n <= |b|
    ensures b[..i] + b[i..][..n] == b[..i + n]
  {}

  // vx_transport_write_all
  method WriteAll(fd: Sink, b: Bytes) returns (ok: bool)
    modifies fd
    ensures ok ==> fd.out == old(fd.out) + b
    ensures !ok ==> CutShort(fd.out, old(fd.out), b)
    ensures Benign(old(fd.events)) ==> ok && Benign(fd.events)
  {
    var sent := 0;
    while sent < |b|
      invariant 0 <= sent <= |b| && fd.out == old(fd.out) + b[..sent]
      invariant Benign(old(fd.events)) ==> Benign(fd.events)
      decreases |fd.events|, |b| - sent
    {
      var r := fd.Write(b[sent..]);
      if r.Signal? {
        continue;
      }
      if r.Failure? || r.n == 0 {
        return false;
      }
      Joins(b, sent, r.n);
      sent := sent + r.n;
    }
    ok := true;
  }

  datatype Status = Ok | Eof | Error

  // How reading `n` bytes ends when no call fails.
  function ReadOutcome(stream: Bytes, p: nat, n: nat): Status
    requires p <= |stream|
  {
    if p + n <= |stream| then Ok else if p == |stream| then Eof else Error
  }

  // vx_transport_read_all
  method ReadAll(fd: Source, n: nat) returns (status: Status, b: Bytes)
    requires fd.Valid()
    modifies fd`pos, fd`events
    ensures fd.Valid() && old(fd.pos) <= fd.pos <= old(fd.pos) + n
    ensures status == ReadOutcome(fd.stream, old(fd.pos), n) || status == Error
    ensures status.Ok? ==> fd.pos == old(fd.pos) + n && b == fd.stream[old(fd.pos)..fd.pos]
    ensures Benign(old(fd.events)) ==> status == ReadOutcome(fd.stream, old(fd.pos), n) && Benign(fd.events)
  {
    b := [];
    while |b| < n
      invariant fd.Valid() && |b| <= n && fd.pos == old(fd.pos) + |b| && b == fd.stream[old(fd.pos)..fd.pos]
      invariant Benign(old(fd.events)) ==> Benign(fd.events)
      decreases |fd.events|, n - |b|
    {
      ghost var at := fd.pos;
      var r, more := fd.Read(n - |b|);
      if r.Signal? {
        continue;
      }
      if r.Failure? {
        return Error, b;
      }
      if r.n == 0 {
        return if |b| == 0 then Eof else Error, b;
      }
      assert fd.stream[old(fd.pos)..at] + fd.stream[at..fd.pos] == fd.stream[old(fd.pos)..fd.pos];
      b := b + more;
    }
    status := Ok;
  }

  const CHUNK: nat := 1024

  // How discarding `n` bytes in chunks ends when no call fails.
  function DrainOutcome(stream: Bytes, p: nat, n: nat): Status
    requires p <= |stream|
  {
    if p + n <= |stream| then Ok else if (|stream| - p) % CHUNK == 0 then Eof else Error
  }

  // vx_transport_drain
  method Drain(fd: Source, n: nat) returns (status: Status)
    requires fd.Valid()
    modifies fd`pos, fd`events
    ensures fd.Valid() && old(fd.pos) <= fd.pos <= old(fd.pos) + n
    ensures status == DrainOutcome(fd.stream, old(fd.pos), n) || status == Error
    ensures status.Ok? ==> fd.pos == old(fd.pos) + n
    ensures Benign(old(fd.events)) ==> status == DrainOutcome(fd.stream, old(fd.pos), n) && Benign(fd.events)
  {
    hide Benign;
    var left := n;
    while left > 0
      invariant 0 <= left <= n && fd.Valid() && fd.pos == old(fd.pos) + n - left
      invariant DrainOutcome(fd.stream, fd.pos, left) == DrainOutcome(fd.stream, old(fd.pos), n)
      invariant Benign(old(fd.events)) ==> Benign(fd.events)
    {
      var chunk := if left > CHUNK then CHUNK else left;
      ghost var at := fd.pos;
      var rc, b := ReadAll(fd, chunk);
      DrainStep(fd.stream, at, left);
      if rc != Ok {
        return rc;
      }
      left := left - chunk;
    }
    status := Ok;
  }

  lemma DrainStep(stream: Bytes, p: nat, left: nat)
    requires p <= |stream| && left > 0
    ensures var chunk := if left > CHUNK then CHUNK else left;
            if p + chunk <= |stream| then DrainOutcome(stream, p, left) == DrainOutcome(stream, p + chunk, left - chunk)
            else DrainOutcome(stream, p, left) == ReadOutcome(stream, p, chunk)
  {
    if left > CHUNK && p + CHUNK <= |stream| {
      assert (|stream| - p - CHUNK) % CHUNK == (|stream| - p) % CHUNK;
    }
  }

  // ---- Frames ----

  datatype Frame = Frame(kind: int, body: Bytes)

  predicate Framable(f: Frame) {
    IsU32(f.kind) && IsU64(|f.body|)
  }

  function FrameBytes(f: Frame): Bytes
    requires Framable(f)
  {
    HeaderBytes(f.kind, |f.body|) + f.body
  }

  // vx_transport_send
  method Send(fd: Sink, f: Frame) returns (ok: bool)
    requires Framable(f)
    modifies fd
    ensures ok ==> fd.out == old(fd.out) + FrameBytes(f)
    ensures !ok ==> CutShort(fd.out, old(fd.out), FrameBytes(f))
    ensures Benign(old(fd.events)) ==> ok && Benign(fd.events)
  {
    hide Benign, HeaderBytes;
    var header := new Byte[HEADER_BYTES](i => 0);
    var w := new Writer(header);
    w.PutHeader(f.kind, |f.body|);
    var h := header[..w.len];
    assert h == HeaderBytes(f.kind, |f.body|);
    ok := WriteAll(fd, h);
    if !ok {
      CutInFront(fd.out, old(fd.out), h, f.body);
      return;
    }
    if |f.body| == 0 {
      assert FrameBytes(f) == h;
      return;
    }
    ghost var mid := fd.out;
    ok := WriteAll(fd, f.body);
    if !ok {
      CutBehind(fd.out, old(fd.out), h, f.body);
    } else {
      assert fd.out == old(fd.out) + (h + f.body);
    }
  }

  lemma CutInFront(out: Bytes, was: Bytes, h: Bytes, body: Bytes)
    requires CutShort(out, was, h)
    ensures CutShort(out, was, h + body)
  {
    var k :| 0 <= k < |h| && out == was + h[..k];
    assert (h + body)[..k] == h[..k];
  }

  lemma CutBehind(out: Bytes, was: Bytes, h: Bytes, body: Bytes)
    requires CutShort(out, was + h, body)
    ensures CutShort(out, was, h + body)
  {
    var k :| 0 <= k < |body| && out == was + h + body[..k];
    assert (h + body)[..|h| + k] == h + body[..k];
  }

  datatype Received =
    | Message(kind: int, body: Bytes)
    | TooLarge(kind: int, length: int)
    | Malformed
    | Closed
    | Broken

  function Failed(status: Status): Received {
    if status.Eof? then Closed else Broken
  }

  // What a receive gives when no call fails, and where it leaves the stream.
  function RecvOutcome(stream: Bytes, p: nat, capacity: nat): Received
    requires p <= |stream|
  {
    var rc := ReadOutcome(stream, p, HEADER_BYTES);
    if rc != Ok then Failed(rc)
    else
      var g := GetHeader(stream, p);
      if g.Refused? then Broken
      else RecvBody(stream, p + HEADER_BYTES, capacity, g.value)
  }

  function RecvBody(stream: Bytes, q: nat, capacity: nat, h: Header): Received
    requires q <= |stream|
  {
    if h.magic != MAGIC || h.version != VERSION then Malformed
    else if h.length < 0 then Broken
    else if h.length > capacity then
      var rc := DrainOutcome(stream, q, h.length);
      if rc.Ok? then TooLarge(h.kind, h.length) else Failed(rc)
    else
      var rc := if h.length == 0 then Ok else ReadOutcome(stream, q, h.length);
      if !rc.Ok? then Failed(rc)
      else if q + h.length <= |stream| then Message(h.kind, stream[q..q + h.length]) else Broken
  }

  lemma HeaderFits(s: Bytes, p: nat)
    requires p + HEADER_BYTES <= |s|
    ensures var h := s[p..p + HEADER_BYTES];
            && GetHeader(s, p).Got? && GetHeader(h, 0).Got? && GetHeader(h, 0).value == GetHeader(s, p).value
            && IsU64(GetHeader(s, p).value.length)
  {
    var h := s[p..p + HEADER_BYTES];
    hide Joined;
    assert forall i :: 0 <= i < HEADER_BYTES ==> h[i] == s[p + i];
  }

  // vx_transport_recv
  method Recv(fd: Source, capacity: nat) returns (r: Received)
    requires fd.Valid()
    modifies fd`pos, fd`events
    ensures fd.Valid()
    ensures r == RecvOutcome(fd.stream, old(fd.pos), capacity) || r == Broken
    ensures r.Message? ==> fd.pos == old(fd.pos) + HEADER_BYTES + |r.body|
    ensures r.TooLarge? ==> fd.pos == old(fd.pos) + HEADER_BYTES + r.length
    ensures Benign(old(fd.events)) ==> r == RecvOutcome(fd.stream, old(fd.pos), capacity) && Benign(fd.events)
  {
    hide Benign, GetHeader, GetU32, GetU64, DrainOutcome;
    var rc, header := ReadAll(fd, HEADER_BYTES);
    if rc != Ok {
      return Failed(rc);
    }
    HeaderFits(fd.stream, old(fd.pos));
    var rd := new Reader(header);
    var ok, h := rd.HeaderGet();
    var kind, len := h.kind, h.length;
    if h.magic != MAGIC || h.version != VERSION {
      return Malformed;
    }
    if len > capacity {
      rc := Drain(fd, len);
      return if rc.Ok? then TooLarge(kind, len) else Failed(rc);
    }
    if len == 0 {
      return Message(kind, []);
    }
    var body;
    rc, body := ReadAll(fd, len);
    r := if rc.Ok? then Message(kind, body) else Failed(rc);
  }

  // ---- Sequences of frames ----

  predicate AllFramable(fs: seq<Frame>) {
    forall i :: 0 <= i < |fs| ==> Framable(fs[i])
  }

  function StreamOf(fs: seq<Frame>): Bytes
    requires AllFramable(fs)
  {
    if |fs| == 0 then [] else StreamOf(fs[..|fs| - 1]) + FrameBytes(fs[|fs| - 1])
  }

  // What a receiver with room for `capacity` bytes gets for a frame.
  function Delivery(f: Frame, capacity: nat): Received {
    if |f.body| <= capacity then Message(f.kind, f.body) else TooLarge(f.kind, |f.body|)
  }

  // A frame that stands at `p` is delivered, or reported and skipped exactly.
  lemma FrameArrives(s: Bytes, p: nat, f: Frame, capacity: nat)
    requires Framable(f) && Holds(s, p, FrameBytes(f))
    ensures p <= |s| && RecvOutcome(s, p, capacity) == Delivery(f, capacity)
  {
    hide Holds, GetHeader, HeaderBytes;
    HoldsInside(s, p, FrameBytes(f));
    HoldsBoth(s, p, HeaderBytes(f.kind, |f.body|), f.body);
    HeaderBack(s, p, f.kind, |f.body|);
    BodyHeld(s, p + HEADER_BYTES, f.body);
  }

  lemma BodyHeld(s: Bytes, q: nat, b: Bytes)
    requires Holds(s, q, b)
    ensures q + |b| <= |s| && s[q..q + |b|] == b
  {}

  lemma {:induction false} StreamSplit(fs: seq<Frame>, n: nat)
    requires AllFramable(fs) && n < |fs|
    ensures Holds(StreamOf(fs), |StreamOf(fs[..n])|, FrameBytes(fs[n]))
    ensures |StreamOf(fs[..n + 1])| == |StreamOf(fs[..n])| + |FrameBytes(fs[n])|
    decreases |fs|
  {
    hide FrameBytes;
    var last := |fs| - 1;
    assert fs[..n + 1][..n] == fs[..n];
    if n == last {
      assert fs[..n + 1] == fs;
    } else {
      StreamSplit(fs[..last], n);
      assert fs[..last][..n] == fs[..n] && fs[..last][..n + 1] == fs[..n + 1];
      HoldsLonger(StreamOf(fs[..last]), |StreamOf(fs[..n])|, FrameBytes(fs[n]), FrameBytes(fs[last]));
    }
  }

  lemma HoldsLonger(s: Bytes, p: nat, b: Bytes, more: Bytes)
    requires Holds(s, p, b)
    ensures Holds(s + more, p, b)
  {}

  // Frame `n` arrives where frame `n - 1` ended, and after the last the stream is closed.
  lemma FramesInOrder(fs: seq<Frame>, n: nat, capacity: nat)
    requires AllFramable(fs) && n <= |fs|
    ensures |StreamOf(fs[..n])| <= |StreamOf(fs)|
    ensures RecvOutcome(StreamOf(fs), |StreamOf(fs[..n])|, capacity) ==
            if n < |fs| then Delivery(fs[n], capacity) else Closed
    ensures n < |fs| ==> |StreamOf(fs[..n + 1])| == |StreamOf(fs[..n])| + HEADER_BYTES + |fs[n].body|
  {
    hide StreamOf, FrameBytes, RecvBody, GetHeader;
    if n < |fs| {
      StreamSplit(fs, n);
      FrameArrives(StreamOf(fs), |StreamOf(fs[..n])|, fs[n], capacity);
      FrameLength(fs[n]);
    } else {
      assert fs[..n] == fs;
    }
  }

  lemma FrameLength(f: Frame)
    requires Framable(f)
    ensures |FrameBytes(f)| == HEADER_BYTES + |f.body|
  {}

  // Send a sequence of frames.
  method SendAll(fd: Sink, fs: seq<Frame>) returns (ok: bool)
    requires AllFramable(fs)
    modifies fd
    ensures ok ==> fd.out == old(fd.out) + StreamOf(fs)
    ensures Benign(old(fd.events)) ==> ok
  {
    hide FrameBytes, Benign, Framable;
    var i := 0;
    while i < |fs|
      invariant 0 <= i <= |fs| && fd.out == old(fd.out) + StreamOf(fs[..i])
      invariant Benign(old(fd.events)) ==> Benign(fd.events)
    {
      ok := Send(fd, fs[i]);
      if !ok {
        return;
      }
      assert fs[..i + 1][..i] == fs[..i];
      i := i + 1;
    }
    assert fs[..i] == fs;
    ok := true;
  }

  // Receive until the peer has closed or something is wrong.
  method ReceiveAll(fd: Source, ghost fs: seq<Frame>, capacity: nat) returns (rs: seq<Received>)
    requires AllFramable(fs) && fd.stream == StreamOf(fs) && fd.pos == 0
    modifies fd`pos, fd`events
    ensures |rs| <= |fs| + 1
    ensures forall i :: 0 <= i < |rs| ==>
               rs[i] == (if i < |fs| then Delivery(fs[i], capacity) else Closed) || rs[i] == Broken
    ensures forall i :: 0 <= i < |rs| - 1 ==> i < |fs| && rs[i] == Delivery(fs[i], capacity)
    ensures Benign(old(fd.events)) ==> |rs| == |fs| + 1 && rs[|fs|] == Closed
  {
    hide StreamOf, RecvOutcome, Benign, Framable;
    rs := [];
    EmptyStream(fs);
    while true
      invariant |rs| <= |fs| && fd.Valid() && fd.pos == |StreamOf(fs[..|rs|])|
      invariant forall i :: 0 <= i < |rs| ==> rs[i] == Delivery(fs[i], capacity)
      invariant Benign(old(fd.events)) ==> Benign(fd.events)
      decreases |fs| - |rs|
    {
      ghost var n := |rs|;
      FramesInOrder(fs, n, capacity);
      var r := Recv(fd, capacity);
      rs := rs + [r];
      if !r.Message? && !r.TooLarge? {
        return;
      }
    }
  }

  lemma EmptyStream(fs: seq<Frame>)
    requires AllFramable(fs)
    ensures StreamOf(fs[..0]) == []
  {}

  // Whatever the two schedules, what is received is what was sent, in order.
  method Exchange(fs: seq<Frame>, sending: seq<Event>, receiving: seq<Event>, capacity: nat) returns (rs: seq<Received>)
    requires AllFramable(fs) && Benign(sending) && Benign(receiving)
    ensures |rs| == |fs| + 1 && rs[|fs|] == Closed
    ensures forall i :: 0 <= i < |fs| ==> rs[i] == Delivery(fs[i], capacity)
  {
    hide Benign, StreamOf;
    var sink := new Sink(sending);
    var ok := SendAll(sink, fs);
    assert sink.out == StreamOf(fs);
    var source := new Source(sink.out, receiving);
    rs := ReceiveAll(source, fs, capacity);
  }
}
