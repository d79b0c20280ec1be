// The writer and reader cursors of runtime/vx_wire.h, with their sticky flags.
module Cursor {
  import opened Abi
  import opened Wire

  // ---- Writing ----

  // What a writer holds: the bytes so far, the room there is, and the flag.
  datatype Out = Out(bytes: Bytes, capacity: nat, overflow: bool)

  // The outcome of writing `b`, in one piece or in several: all of it, or the flag
  // with what went before the piece that did not fit.
  predicate Wrote(before: Out, b: Bytes, after: Out) {
    && after.capacity == before.capacity && |after.bytes| <= after.capacity
    && (after.overflow <==> before.overflow || |before.bytes| + |b| > before.capacity)
    && (if before.overflow then after.bytes == before.bytes
        else if after.overflow then before.bytes <= after.bytes <= before.bytes + b
        else after.bytes == before.bytes + b)
  }

  predicate Fits(o: Out) {
    |o.bytes| <= o.capacity
  }

  lemma WroteNothing(a: Out)
    requires Fits(a)
    ensures Wrote(a, [], a)
  {}

  lemma WroteBoth(a: Out, x: Bytes, b: Out, y: Bytes, c: Out)
    requires Fits(a) && Wrote(a, x, b) && Wrote(b, y, c)
    ensures Wrote(a, x + y, c)
  {
    assert a.bytes + (x + y) == a.bytes + x + y;
    if !b.overflow && c.overflow {
      assert c.bytes <= a.bytes + x + y;
    } else if b.overflow && !a.overflow {
      Longer(b.bytes, a.bytes + x, y);
    }
  }

  lemma Longer(a: Bytes, b: Bytes, c: Bytes)
    requires a <= b
    ensures a <= b + c
  {}

  class Writer {
    const data: array<Byte>
    var len: nat
    var overflow: bool

    ghost predicate Valid()
      reads this
    {
      len <= data.Length
    }

    ghost function State(): (o: Out)
      requires Valid()
      reads this, data
      ensures Fits(o)
    {
      Out(data[..len], data.Length, overflow)
    }

    constructor (buf: array<Byte>)
      ensures Valid() && data == buf && State() == Out([], buf.Length, false)
    {
      data, len, overflow := buf, 0, false;
    }

    // vx_wire_put
    method Put(b: Bytes)
      requires Valid()
      modifies this, data
      ensures Valid() && Wrote(old(State()), b, State())
      ensures forall i :: len <= i < data.Length ==> data[i] == old(data[i])
    {
      if overflow || len + |b| > data.Length {
        overflow := true;
        return;
      }
      forall i | 0 <= i < |b| {
        data[len + i] := b[i];
      }
      len := len + |b|;
      assert data[..len] == old(data[..len]) + b;
    }

    // vx_wire_put_u32
    method PutU32(v: int)
      requires Valid() && IsU32(v)
      modifies this, data
      ensures Valid() && Wrote(old(State()), U32(v), State())
      ensures forall i :: len <= i < data.Length ==> data[i] == old(data[i])
    {
      Put(U32(v));
    }

    // vx_wire_put_u64
    method PutU64(v: int)
      requires Valid() && IsU64(v)
      modifies this, data
      ensures Valid() && Wrote(old(State()), U64(v), State())
      ensures forall i :: len <= i < data.Length ==> data[i] == old(data[i])
    {
      hide Wrote, U32;
      ghost var a := State();
      PutU32(v % TWO_32);
      ghost var b := State();
      WroteGrows(a, U32(v % TWO_32), b);
      PutU32(v / TWO_32);
      WroteGrows(b, U32(v / TWO_32), State());
      WroteBoth(a, U32(v % TWO_32), b, U32(v / TWO_32), State());
    }

    // vx_wire_put_i32
    method PutI32(v: int)
      requires Valid() && IsI32(v)
      modifies this, data
      ensures Valid() && Wrote(old(State()), I32(v), State())
      ensures forall i :: len <= i < data.Length ==> data[i] == old(data[i])
    {
      PutU32(if v < 0 then v + TWO_32 else v);
    }

    // vx_wire_put_i64
    method PutI64(v: int)
      requires Valid() && IsI64(v)
      modifies this, data
      ensures Valid() && Wrote(old(State()), I64(v), State())
      ensures forall i :: len <= i < data.Length ==> data[i] == old(data[i])
    {
      PutU64(if v < 0 then v + TWO_64 else v);
    }

    // The loops over extents.
    method PutI64s(xs: seq<int>)
      requires Valid() && AllI64(xs)
      modifies this, data
      ensures Valid() && Wrote(old(State()), I64s(xs), State())
      ensures forall i :: len <= i < data.Length ==> data[i] == old(data[i])
    {
      hide Wrote, I64;
      ghost var a := State();
      WroteNothing(a);
      var k := 0;
      while k < |xs|
        invariant 0 <= k <= |xs| && Valid() && |a.bytes| <= len && Wrote(a, I64s(xs[..k]), State())
        invariant forall i :: len <= i < data.Length ==> data[i] == old(data[i])
      {
        ghost var b := State();
        PutI64(xs[k]);
        WroteGrows(b, I64(xs[k]), State());
        WroteBoth(a, I64s(xs[..k]), b, I64(xs[k]), State());
        I64sAppend(xs[..k], xs[k]);
        assert xs[..k + 1] == xs[..k] + [xs[k]];
        k := k + 1;
      }
      assert xs[..k] == xs;
    }

    // The rank and the extents of a memref or of a slot that holds a buffer.
    method PutExtents(sizes: seq<int>, strides: seq<int>)
      requires Valid() && |sizes| == |strides| <= MAX_RANK && AllI64(sizes) && AllI64(strides)
      modifies this, data
      ensures Valid() && Wrote(old(State()), Extents(sizes, strides), State())
      ensures forall i :: len <= i < data.Length ==> data[i] == old(data[i])
    {
      hide Wrote, I32, I64s;
      ghost var a := State();
      PutI32(|sizes|);
      ghost var b := State();
      WroteGrows(a, I32(|sizes|), b);
      PutI64s(sizes);
      ghost var c := State();
      WroteGrows(b, I64s(sizes), c);
      WroteBoth(a, I32(|sizes|), b, I64s(sizes), c);
      PutI64s(strides);
      WroteGrows(c, I64s(strides), State());
      WroteBoth(a, I32(|sizes|) + I64s(sizes), c, I64s(strides), State());
    }

    // vx_wire_put_arg
    method PutArg(arg: Arg)
      requires Valid() && Sized(arg)
      modifies this, data
      ensures Valid() && Wrote(old(State()), ArgBytes(arg), State())
      ensures forall i :: len <= i < data.Length ==> data[i] == old(data[i])
    {
      hide Wrote, U32, U64, Extents, IsSlot, Kind, DtypeBytes, ArgBytes;
      ghost var a := State();
      PutU32(arg.tag);
      ghost var b := State();
      WroteGrows(a, U32(arg.tag), b);
      if IsSlot(arg.tag) {
        PutHandle(arg, arg.handle != 0);
      } else if Kind(arg.tag) != 0 {
        var n := ScalarWidth(arg.tag);
        Put(arg.scalar[..if n != 0 then n else 8]);
      } else {
        PutHandle(arg, true);
      }
      ArgParts(arg);
      WroteGrows(b, BodyBytes(arg), State());
      WroteBoth(a, U32(arg.tag), b, BodyBytes(arg), State());
    }

    // A handle, with extents after it or not.
    method PutHandle(arg: Arg, extents: bool)
      requires Valid() && Sized(arg)
      modifies this, data
      ensures Valid()
      ensures Wrote(old(State()), U64(arg.handle) + (if extents then Extents(arg.sizes, arg.strides) else []), State())
      ensures forall i :: len <= i < data.Length ==> data[i] == old(data[i])
    {
      hide Wrote, U64, Extents;
      ghost var a := State();
      PutU64(arg.handle);
      ghost var b := State();
      WroteGrows(a, U64(arg.handle), b);
      if extents {
        PutExtents(arg.sizes, arg.strides);
        WroteGrows(b, Extents(arg.sizes, arg.strides), State());
        WroteBoth(a, U64(arg.handle), b, Extents(arg.sizes, arg.strides), State());
      } else {
        assert U64(arg.handle) + [] == U64(arg.handle);
      }
    }

    method PutArgs(args: seq<Arg>)
      requires Valid() && AllWellFormed(args)
      modifies this, data
      ensures Valid() && Wrote(old(State()), ArgsBytes(args), State())
      ensures forall i :: len <= i < data.Length ==> data[i] == old(data[i])
    {
      hide Wrote, ArgBytes, WellFormed, Sized;
      ghost var a := State();
      WroteNothing(a);
      var k := 0;
      while k < |args|
        invariant 0 <= k <= |args| && Valid() && |a.bytes| <= len && Wrote(a, ArgsBytes(args[..k]), State())
        invariant forall i :: len <= i < data.Length ==> data[i] == old(data[i])
      {
        ghost var b := State();
        PutArg(args[k]);
        WroteGrows(b, ArgBytes(args[k]), State());
        WroteBoth(a, ArgsBytes(args[..k]), b, ArgBytes(args[k]), State());
        ArgsAppend(args[..k], args[k]);
        assert args[..k + 1] == args[..k] + [args[k]];
        k := k + 1;
      }
      assert args[..k] == args;
    }

    // vx_wire_put_dispatch
    method PutDispatch(m: Dispatch)
      requires Valid() && Sendable(m)
      modifies this, data
      ensures Valid() && Wrote(old(State()), DispatchBytes(m), State())
      ensures forall i :: len <= i < data.Length ==> data[i] == old(data[i])
    {
      hide Wrote, U64, I64, ArgsBytes, AllWellFormed, AllSized;
      SendableCounts(m);
      SendableArgs(m);
      ghost var a := State();
      PutU64(|m.payload|);
      ghost var b := State();
      WroteGrows(a, U64(|m.payload|), b);
      Put(m.payload);
      ghost var c := State();
      WroteGrows(b, m.payload, c);
      WroteBoth(a, U64(|m.payload|), b, m.payload, c);
      PutI64(|m.args|);
      ghost var d := State();
      WroteGrows(c, I64(|m.args|), d);
      WroteBoth(a, U64(|m.payload|) + m.payload, c, I64(|m.args|), d);
      PutArgs(m.args);
      WroteGrows(d, ArgsBytes(m.args), State());
      WroteBoth(a, U64(|m.payload|) + m.payload + I64(|m.args|), d, ArgsBytes(m.args), State());
    }

    // vx_wire_put_transfer
    method PutTransfer(m: Transfer)
      requires Valid() && Carriable(m)
      modifies this, data
      ensures Valid() && Wrote(old(State()), TransferBytes(m), State())
      ensures forall i :: len <= i < data.Length ==> data[i] == old(data[i])
    {
      hide Wrote, U64, I32, I64s, AllI64;
      ghost var a := State();
      PutI32(m.dtype);
      ghost var b := State();
      WroteGrows(a, I32(m.dtype), b);
      PutI32(|m.sizes|);
      ghost var c := State();
      WroteGrows(b, I32(|m.sizes|), c);
      WroteBoth(a, I32(m.dtype), b, I32(|m.sizes|), c);
      PutI64s(m.sizes);
      ghost var d := State();
      WroteGrows(c, I64s(m.sizes), d);
      WroteBoth(a, I32(m.dtype) + I32(|m.sizes|), c, I64s(m.sizes), d);
      PutU64(|m.bytes|);
      ghost var e := State();
      WroteGrows(d, U64(|m.bytes|), e);
      WroteBoth(a, I32(m.dtype) + I32(|m.sizes|) + I64s(m.sizes), d, U64(|m.bytes|), e);
      Put(m.bytes);
      WroteGrows(e, m.bytes, State());
      WroteBoth(a, I32(m.dtype) + I32(|m.sizes|) + I64s(m.sizes) + U64(|m.bytes|), e, m.bytes, State());
    }

    // vx_wire_put_fetch
    method PutFetch(handle: int, n: int)
      requires Valid() && IsU64(handle) && IsU64(n)
      modifies this, data
      ensures Valid() && Wrote(old(State()), FetchBytes(handle, n), State())
      ensures forall i :: len <= i < data.Length ==> data[i] == old(data[i])
    {
      hide Wrote, U64;
      ghost var a := State();
      PutU64(handle);
      ghost var b := State();
      WroteGrows(a, U64(handle), b);
      PutU64(n);
      WroteGrows(b, U64(n), State());
      WroteBoth(a, U64(handle), b, U64(n), State());
    }

    // One result of vx_wire_put_results.
    method PutResult(r: Result)
      requires Valid() && ResultFits(r)
      modifies this, data
      ensures Valid() && Wrote(old(State()), ResultBytes(r), State())
      ensures forall i :: len <= i < data.Length ==> data[i] == old(data[i])
    {
      hide Wrote, U64, I32, I64s, AllI64;
      ghost var a := State();
      PutU64(r.handle);
      ghost var b := State();
      WroteGrows(a, U64(r.handle), b);
      PutI32(|r.sizes|);
      ghost var c := State();
      WroteGrows(b, I32(|r.sizes|), c);
      WroteBoth(a, U64(r.handle), b, I32(|r.sizes|), c);
      PutI64s(r.sizes);
      WroteGrows(c, I64s(r.sizes), State());
      WroteBoth(a, U64(r.handle) + I32(|r.sizes|), c, I64s(r.sizes), State());
    }

    // vx_wire_put_results
    method PutReply(m: Reply)
      requires Valid() && ReplyFits(m)
      modifies this, data
      ensures Valid() && Wrote(old(State()), ReplyBytes(m), State())
      ensures forall i :: len <= i < data.Length ==> data[i] == old(data[i])
    {
      hide Wrote, I32, I64, ResultBytes, ResultFits, ResultsBytes;
      ghost var a := State();
      PutI32(m.status);
      ghost var b := State();
      WroteGrows(a, I32(m.status), b);
      PutI64(|m.results|);
      ghost var c := State();
      WroteGrows(b, I64(|m.results|), c);
      WroteBoth(a, I32(m.status), b, I64(|m.results|), c);
      WroteNothing(c);
      NoResults([], 0, m.results[..0]);
      var k := 0;
      while k < |m.results|
        invariant 0 <= k <= |m.results| && Valid() && |c.bytes| <= len && AllResultsFit(m.results[..k])
        invariant Wrote(c, ResultsBytes(m.results[..k]), State())
        invariant forall i :: len <= i < data.Length ==> data[i] == old(data[i])
      {
        ghost var d := State();
        PutResult(m.results[k]);
        WroteGrows(d, ResultBytes(m.results[k]), State());
        WroteBoth(c, ResultsBytes(m.results[..k]), d, ResultBytes(m.results[k]), State());
        ResultsAppend([], 0, m.results[..k], 0, m.results[k]);
        assert m.results[..k + 1] == m.results[..k] + [m.results[k]];
        k := k + 1;
      }
      assert m.results[..k] == m.results;
      WroteBoth(a, I32(m.status) + I64(|m.results|), c, ResultsBytes(m.results), State());
    }

    // vx_wire_put_header
    method PutHeader(kind: int, length: int)
      requires Valid() && IsU32(kind) && IsU64(length)
      modifies this, data
      ensures Valid() && Wrote(old(State()), HeaderBytes(kind, length), State())
      ensures forall i :: len <= i < data.Length ==> data[i] == old(data[i])
    {
      hide Wrote, U32, U64;
      ghost var a := State();
      PutU32(MAGIC);
      ghost var b := State();
      WroteGrows(a, U32(MAGIC), b);
      PutU32(VERSION);
      ghost var c := State();
      WroteGrows(b, U32(VERSION), c);
      WroteBoth(a, U32(MAGIC), b, U32(VERSION), c);
      PutU32(kind);
      ghost var d := State();
      WroteGrows(c, U32(kind), d);
      WroteBoth(a, U32(MAGIC) + U32(VERSION), c, U32(kind), d);
      PutU64(length);
      WroteGrows(d, U64(length), State());
      WroteBoth(a, U32(MAGIC) + U32(VERSION) + U32(kind), d, U64(length), State());
    }
  }

  lemma WroteGrows(a: Out, b: Bytes, c: Out)
    requires Wrote(a, b, c)
    ensures |a.bytes| <= |c.bytes| && (a.overflow ==> c.overflow)
  {}

  // ---- Reading ----

  class Reader {
    const data: Bytes
    var pos: nat
    var underflow: bool

    ghost predicate Valid()
      reads this
    {
      pos <= |data|
    }

    constructor (buf: Bytes)
      ensures Valid() && data == buf && pos == 0 && !underflow
    {
      data, pos, underflow := buf, 0, false;
    }

    // What reading with decoder result `g` must leave: the value and the cursor after
    // it, or a refusal. The flag stays set once set.
    twostate predicate Read<T>(g: Got<T>, ok: bool, v: T)
      reads this
    {
      && Valid() && (old(underflow) ==> underflow)
      && (ok <==> !old(underflow) && g.Got?)
      && (ok ==> v == g.value && pos == g.next && !underflow)
    }

    // vx_wire_get
    method Get(n: nat) returns (ok: bool, b: Bytes)
      requires Valid()
      modifies this
      ensures Read(GetBytes(data, old(pos), n), ok, b)
      ensures !ok ==> underflow && pos == old(pos)
    {
      if underflow || pos + n > |data| {
        underflow := true;
        return false, [];
      }
      b := data[pos..pos + n];
      pos := pos + n;
      ok := true;
    }

    // vx_wire_get_u32
    method U32Get() returns (ok: bool, v: int)
      requires Valid()
      modifies this
      ensures Read(GetU32(data, old(pos)), ok, v)
    {
      var b;
      ok, b := Get(4);
      v := if ok then Joined(b[0], b[1], b[2], b[3]) else 0;
    }

    // vx_wire_get_u64
    method U64Get() returns (ok: bool, v: int)
      requires Valid()
      modifies this
      ensures Read(GetU64(data, old(pos)), ok, v)
    {
      hide GetU32;
      v := 0;
      var lo, hi;
      ok, lo := U32Get();
      if ok {
        ok, hi := U32Get();
        if ok {
          v := lo + TWO_32 * hi;
        }
      }
    }

    // vx_wire_get_i32
    method I32Get() returns (ok: bool, v: int)
      requires Valid()
      modifies this
      ensures Read(GetI32(data, old(pos)), ok, v)
    {
      hide GetU32;
      ok, v := U32Get();
      if ok && v >= TWO_31 {
        v := v - TWO_32;
      }
    }

    // vx_wire_get_i64
    method I64Get() returns (ok: bool, v: int)
      requires Valid()
      modifies this
      ensures Read(GetI64(data, old(pos)), ok, v)
    {
      hide GetU64;
      ok, v := U64Get();
      if ok && v >= TWO_63 {
        v := v - TWO_64;
      }
    }

    // The four fields of a header.
    method HeaderGet() returns (ok: bool, h: Header)
      requires Valid()
      modifies this
      ensures Read(GetHeader(data, old(pos)), ok, h)
    {
      hide GetU32, GetU64;
      h := Header(0, 0, 0, 0);
      var magic, version, kind, length;
      ok, magic := U32Get();
      if !ok {
        return;
      }
      ok, version := U32Get();
      if !ok {
        return;
      }
      ok, kind := U32Get();
      if !ok {
        return;
      }
      ok, length := U64Get();
      h := Header(magic, version, kind, length);
    }

    // The loops over extents.
    method I64sGet(n: nat) returns (ok: bool, xs: seq<int>)
      requires Valid() && !underflow
      modifies this
      ensures Read(GetI64s(data, old(pos), n), ok, xs)
    {
      hide GetI64, GetI64s;
      xs := [];
      GetI64sStart(data, pos);
      var i := 0;
      while i < n
        invariant 0 <= i <= n && Valid() && !underflow && GetI64s(data, old(pos), i) == Got(xs, pos)
      {
        var x;
        GetI64sMore(data, old(pos), i);
        ok, x := I64Get();
        if !ok {
          GetI64sShort(data, old(pos), i + 1, n);
          return;
        }
        xs := xs + [x];
        i := i + 1;
      }
      ok := true;
    }

    // The rank, checked, and the extents.
    method ExtentsGet(checkRank: bool, tagRank: nat) returns (ok: bool, sizes: seq<int>, strides: seq<int>)
      requires Valid() && !underflow
      modifies this
      ensures Valid() && (ok <==> ExtentsOk(GetExtents(data, old(pos)), checkRank, tagRank))
      ensures ok ==> GetExtents(data, old(pos)) == Got((sizes, strides), pos) && !underflow
    {
      hide GetI32, GetI64s;
      sizes, strides := [], [];
      var rank;
      ok, rank := I32Get();
      if !ok || rank < 0 || rank > MAX_RANK || (checkRank && rank != tagRank) {
        return false, [], [];
      }
      ok, sizes := I64sGet(rank);
      if !ok {
        return;
      }
      ok, strides := I64sGet(rank);
    }

    // vx_wire_get_arg
    method ArgGet() returns (ok: bool, a: Arg)
      requires Valid() && !underflow
      modifies this
      ensures Valid() && (ok <==> GetArg(data, old(pos)).Got?)
      ensures ok ==> GetArg(data, old(pos)) == Got(a, pos) && !underflow
    {
      hide GetU32, GetU64, GetExtents, DtypeBytes, IsSlot, Kind, Rank;
      a := Arg(0, ZEROS, 0, [], []);
      var tag, handle, sizes, strides, b;
      ok, tag := U32Get();
      if !ok {
        return;
      }
      if IsSlot(tag) {
        ok, handle := U64Get();
        if !ok {
          return;
        }
        if handle == 0 {
          a := Arg(tag, ZEROS, 0, [], []);
          return;
        }
        ok, sizes, strides := ExtentsGet(false, 0);
        a := Arg(tag, ZEROS, handle, sizes, strides);
      } else if Kind(tag) != 0 {
        var n := ScalarWidth(tag);
        if n == 0 {
          return false, a;
        }
        ok, b := Get(n);
        a := Arg(tag, b + ZEROS[n..], 0, [], []);
      } else {
        ok, handle := U64Get();
        if !ok {
          return;
        }
        ok, sizes, strides := ExtentsGet(true, Rank(tag));
        a := Arg(tag, ZEROS, handle, sizes, strides);
      }
    }

    // vx_wire_get_transfer
    method TransferGet() returns (ok: bool, m: Transfer)
      requires Valid() && !underflow
      modifies this
      ensures Valid() && (ok <==> GetTransfer(data, old(pos)).Got?)
      ensures ok ==> GetTransfer(data, old(pos)) == Got(m, pos) && !underflow
    {
      hide GetU64, GetI32, GetI64s;
      m := Transfer(0, [], []);
      var dtype, rank, sizes, n;
      ok, dtype := I32Get();
      if !ok {
        return;
      }
      ok, rank := I32Get();
      if !ok {
        return;
      }
      if rank < 0 || rank > MAX_RANK {
        return false, m;
      }
      ok, sizes := I64sGet(rank);
      if !ok {
        return;
      }
      ok, n := U64Get();
      if !ok {
        return;
      }
      if n > |data| - pos {
        return false, m;
      }
      m := Transfer(dtype, sizes, data[pos..pos + n]);
      pos := pos + n;
    }

    // vx_wire_get_fetch
    method FetchGet() returns (ok: bool, handle: int, n: int)
      requires Valid() && !underflow
      modifies this
      ensures Valid() && (ok <==> GetFetch(data, old(pos)).Got?)
      ensures ok ==> GetFetch(data, old(pos)) == Got((handle, n), pos) && !underflow
    {
      hide GetU64;
      n := 0;
      ok, handle := U64Get();
      if ok {
        ok, n := U64Get();
      }
    }

    // vx_wire_get_result
    method ResultGet() returns (ok: bool, r: Result)
      requires Valid() && !underflow
      modifies this
      ensures Valid() && (ok <==> GetResult(data, old(pos)).Got?)
      ensures ok ==> GetResult(data, old(pos)) == Got(r, pos) && !underflow
    {
      hide GetU64, GetI32, GetI64s;
      r := Result(0, []);
      var handle, rank, sizes;
      ok, handle := U64Get();
      if !ok {
        return;
      }
      ok, rank := I32Get();
      if !ok {
        return;
      }
      if rank < 0 || rank > MAX_RANK {
        return false, r;
      }
      ok, sizes := I64sGet(rank);
      if !ok {
        return;
      }
      HandleIsNatural(data, old(pos));
      r := Result(handle, sizes);
    }

    // vx_wire_get_results_header
    method ReplyHeadGet() returns (ok: bool, status: int, count: int)
      requires Valid() && !underflow
      modifies this
      ensures Valid() && (ok <==> GetReplyHead(data, old(pos)).Got?)
      ensures ok ==> GetReplyHead(data, old(pos)) == Got((status, count), pos) && !underflow
    {
      hide GetI32, GetI64;
      count := 0;
      ok, status := I32Get();
      if ok {
        ok, count := I64Get();
        if ok {
          ok := count >= 0 && count * 12 % TWO_64 <= |data| - pos;
        }
      }
    }

    // vx_wire_get_dispatch and the loop of its caller over the arguments
    method DispatchGet() returns (ok: bool, m: Dispatch)
      requires Valid() && !underflow
      modifies this
      ensures Valid() && (ok <==> GetDispatch(data, old(pos)).Got?)
      ensures ok ==> GetDispatch(data, old(pos)) == Got(m, pos) && !underflow
    {
      hide GetU64, GetI64, GetArgs, GetArg;
      m := Dispatch([], []);
      var len, num, args, payload, a;
      ok, len := U64Get();
      if !ok {
        return;
      }
      GetU64Next(data, old(pos));
      if len > |data| - pos {
        return false, m;
      }
      payload := data[pos..pos + len];
      pos := pos + len;
      ok, num := I64Get();
      if !ok {
        return;
      }
      if num < 0 || num * 4 % TWO_64 > |data| - pos {
        return false, m;
      }
      args := [];
      ghost var start := pos;
      GetArgsStart(data, pos);
      var i := 0;
      while i < num
        invariant 0 <= i <= num && Valid() && !underflow && GetArgs(data, start, i) == Got(args, pos)
      {
        GetArgsMore(data, start, i);
        ok, a := ArgGet();
        if !ok {
          GetArgsShort(data, start, i + 1, num);
          return;
        }
        args := args + [a];
        i := i + 1;
      }
      ok, m := true, Dispatch(payload, args);
    }
  }

  lemma HandleIsNatural(s: Bytes, p: nat)
    requires GetU64(s, p).Got?
    ensures GetU64(s, p).value >= 0
  {}

  predicate ExtentsOk(g: Got<(seq<int>, seq<int>)>, checkRank: bool, tagRank: nat) {
    g.Got? && (checkRank ==> |g.value.0| == tagRank)
  }

  lemma GetI64sStart(s: Bytes, p: nat)
    ensures GetI64s(s, p, 0) == Got([], p)
  {}

  lemma GetI64sMore(s: Bytes, p: nat, i: nat)
    requires GetI64s(s, p, i).Got?
    ensures var front := GetI64s(s, p, i); var x := GetI64(s, front.next);
            GetI64s(s, p, i + 1) == if x.Got? then Got(front.value + [x.value], x.next) else Refused
  {
    hide GetI64;
  }

  // Once a read is refused, so is every longer one.
  lemma {:induction false} GetI64sShort(s: Bytes, p: nat, i: nat, n: nat)
    requires GetI64s(s, p, i).Refused? && i <= n
    ensures GetI64s(s, p, n).Refused?
    decreases n
  {
    hide GetI64;
    if i < n {
      GetI64sShort(s, p, i, n - 1);
    }
  }

  lemma GetArgsStart(s: Bytes, p: nat)
    ensures GetArgs(s, p, 0) == Got([], p)
  {}

  lemma GetArgsMore(s: Bytes, p: nat, i: nat)
    requires GetArgs(s, p, i).Got?
    ensures var front := GetArgs(s, p, i); var a := GetArg(s, front.next);
            GetArgs(s, p, i + 1) == if a.Got? then Got(front.value + [a.value], a.next) else Refused
  {
    hide GetArg;
  }

  lemma {:induction false} GetArgsShort(s: Bytes, p: nat, i: nat, n: nat)
    requires GetArgs(s, p, i).Refused? && i <= n
    ensures GetArgs(s, p, n).Refused?
    decreases n
  {
    hide GetArg;
    if i < n {
      GetArgsShort(s, p, i, n - 1);
    }
  }
}
