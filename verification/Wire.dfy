// The byte encoding of runtime/vx_wire.h: numbers, arguments and messages.
module Wire {
  import opened Abi

  const TWO_31: int := 0x8000_0000
  const TWO_32: int := 0x1_0000_0000
  const MAGIC: int := 0x4D52_5856
  const VERSION: int := 1

  type Bytes = seq<Byte>

  // ---- Tags ----

  function Kind(tag: nat): nat { tag % 256 }
  function Elem(tag: nat): nat { tag / 256 % 256 }
  function Rank(tag: nat): nat { tag / 65536 % 256 }
  predicate IsSlot(tag: nat) { tag / 16777216 % 2 == 1 }

  // The tags of a tensor and of a slot. The tag of a scalar is its kind.
  function MemrefTag(elem: nat, rank: nat): nat { rank * 0x1_0000 + elem * 0x100 }
  function SlotTag(elem: nat, rank: nat): nat { 0x100_0000 + MemrefTag(elem, rank) }

  // What a tag is made of is read back.
  lemma TagParts(elem: nat, rank: nat)
    requires elem < 256 && rank < 256
    ensures var t := MemrefTag(elem, rank); Kind(t) == 0 && Elem(t) == elem && Rank(t) == rank && !IsSlot(t)
    ensures var t := SlotTag(elem, rank); Kind(t) == 0 && Elem(t) == elem && Rank(t) == rank && IsSlot(t)
    ensures Kind(elem) == elem && !IsSlot(elem)
  {
    ScalarKind(elem);
    hide Kind, Elem, Rank, IsSlot;
    Fields(0, rank, elem);
    Fields(1, rank, elem);
  }

  lemma ScalarKind(kind: nat)
    requires kind < 256
    ensures Kind(kind) == kind && !IsSlot(kind)
  {}

  lemma Fields(slot: nat, rank: nat, elem: nat)
    requires slot < 2 && elem < 256 && rank < 256
    ensures var t: nat := slot * 0x100_0000 + rank * 0x1_0000 + elem * 0x100;
            Kind(t) == 0 && Elem(t) == elem && Rank(t) == rank && (IsSlot(t) <==> slot == 1)
  {
    var t: nat := slot * 0x100_0000 + rank * 0x1_0000 + elem * 0x100;
    assert t == (slot * 0x1_0000 + rank * 0x100 + elem) * 256;
    assert t / 256 == (slot * 0x100 + rank) * 256 + elem;
    assert t / 0x1_0000 == slot * 256 + rank;
    assert t / 0x100_0000 == slot;
  }

  // ---- Numbers ----

  predicate IsU32(v: int) { 0 <= v < TWO_32 }
  predicate IsU64(v: int) { 0 <= v < TWO_64 }
  predicate IsI32(v: int) { -TWO_31 <= v < TWO_31 }
  predicate IsI64(v: int) { -TWO_63 <= v < TWO_63 }

  function U32(v: int): (b: Bytes)
    requires IsU32(v)
    ensures |b| == 4
  {
    [v % 256, v / 256 % 256, v / 256 / 256 % 256, v / 256 / 256 / 256]
  }

  function U64(v: int): (b: Bytes)
    requires IsU64(v)
    ensures |b| == 8
  {
    U32(v % TWO_32) + U32(v / TWO_32)
  }

  function I32(v: int): (b: Bytes)
    requires IsI32(v)
    ensures |b| == 4
  {
    U32(if v < 0 then v + TWO_32 else v)
  }

  function I64(v: int): (b: Bytes)
    requires IsI64(v)
    ensures |b| == 8
  {
    U64(if v < 0 then v + TWO_64 else v)
  }

  predicate AllI64(xs: seq<int>) {
    forall i :: 0 <= i < |xs| ==> IsI64(xs[i])
  }

  function I64s(xs: seq<int>): (b: Bytes)
    requires AllI64(xs)
    ensures |b| == 8 * |xs|
  {
    if |xs| == 0 then [] else I64s(xs[..|xs| - 1]) + I64(xs[|xs| - 1])
  }

  // What a read gives: a value and where the next read starts.
  datatype Got<+T> = Refused | Got(value: T, next: nat)

  function GetBytes(s: Bytes, p: nat, n: nat): Got<Bytes> {
    if p + n > |s| then Refused else Got(s[p..p + n], p + n)
  }

  function Joined(a: int, b: int, c: int, d: int): int {
    a + 256 * (b + 256 * (c + 256 * d))
  }

  function GetU32(s: Bytes, p: nat): (g: Got<int>)
    ensures g.Got? ==> IsU32(g.value)
  {
    if p + 4 > |s| then Refused
    else Got(Joined(s[p], s[p + 1], s[p + 2], s[p + 3]), p + 4)
  }

  function GetU64(s: Bytes, p: nat): (g: Got<int>)
    ensures g.Got? ==> IsU64(g.value)
  {
    var lo := GetU32(s, p);
    if lo.Refused? then Refused
    else
      var hi := GetU32(s, lo.next);
      if hi.Refused? then Refused else Got(lo.value + TWO_32 * hi.value, hi.next)
  }

  function GetI32(s: Bytes, p: nat): (g: Got<int>)
    ensures g.Got? ==> IsI32(g.value)
  {
    var u := GetU32(s, p);
    if u.Refused? then Refused else Got(if u.value >= TWO_31 then u.value - TWO_32 else u.value, u.next)
  }

  function GetI64(s: Bytes, p: nat): (g: Got<int>)
    ensures g.Got? ==> IsI64(g.value)
  {
    var u := GetU64(s, p);
    if u.Refused? then Refused else Got(if u.value >= TWO_63 then u.value - TWO_64 else u.value, u.next)
  }

  function GetI64s(s: Bytes, p: nat, n: nat): (g: Got<seq<int>>)
    ensures g.Got? ==> |g.value| == n && AllI64(g.value)
  {
    if n == 0 then Got([], p)
    else
      var front := GetI64s(s, p, n - 1);
      if front.Refused? then Refused
      else
        var x := GetI64(s, front.next);
        if x.Refused? then Refused else Got(front.value + [x.value], x.next)
  }

  // The bytes `b` stand at `p`.
  predicate Holds(s: Bytes, p: nat, b: Bytes) {
    p + |b| <= |s| && s[p..p + |b|] == b
  }

  lemma HoldsBoth(s: Bytes, p: nat, a: Bytes, b: Bytes)
    ensures Holds(s, p, a + b) <==> Holds(s, p, a) && Holds(s, p + |a|, b)
  {
    if Holds(s, p, a + b) {
      assert s[p..p + |a|] == (a + b)[..|a|];
      assert s[p + |a|..p + |a| + |b|] == (a + b)[|a|..];
    }
    if Holds(s, p, a) && Holds(s, p + |a|, b) {
      assert s[p..p + |a + b|] == s[p..p + |a|] + s[p + |a|..p + |a| + |b|];
    }
  }

  lemma JoinedBack(v: int)
    requires IsU32(v)
    ensures Joined(v % 256, v / 256 % 256, v / 256 / 256 % 256, v / 256 / 256 / 256) == v
  {}

  lemma LowDigit(r: Byte, q: nat)
    ensures (r + 256 * q) % 256 == r && (r + 256 * q) / 256 == q
  {}

  lemma SplitBack(a: Byte, b: Byte, c: Byte, d: Byte)
    ensures IsU32(Joined(a, b, c, d)) && U32(Joined(a, b, c, d)) == [a, b, c, d]
  {
    LowDigit(a, b + 256 * (c + 256 * d));
    LowDigit(b, c + 256 * d);
    LowDigit(c, d);
  }

  lemma U32Back(s: Bytes, p: nat, v: int)
    requires IsU32(v)
    ensures Holds(s, p, U32(v)) <==> GetU32(s, p) == Got(v, p + 4)
  {
    hide Joined;
    if p + 4 <= |s| {
      assert s[p..p + 4] == [s[p], s[p + 1], s[p + 2], s[p + 3]];
      SplitBack(s[p], s[p + 1], s[p + 2], s[p + 3]);
      JoinedBack(v);
    }
  }

  lemma U64Back(s: Bytes, p: nat, v: int)
    requires IsU64(v)
    ensures Holds(s, p, U64(v)) <==> GetU64(s, p) == Got(v, p + 8)
  {
    hide U32, GetU32, Holds;
    HoldsBoth(s, p, U32(v % TWO_32), U32(v / TWO_32));
    U32Back(s, p, v % TWO_32);
    U32Back(s, p + 4, v / TWO_32);
    GetU32Next(s, p);
    GetU32Next(s, p + 4);
  }

  lemma GetU32Next(s: Bytes, p: nat)
    ensures GetU32(s, p).Got? ==> GetU32(s, p).next == p + 4
  {}

  lemma I32Back(s: Bytes, p: nat, v: int)
    requires IsI32(v)
    ensures Holds(s, p, I32(v)) <==> GetI32(s, p) == Got(v, p + 4)
  {
    hide U32, GetU32, Holds;
    U32Back(s, p, if v < 0 then v + TWO_32 else v);
  }

  lemma I64Back(s: Bytes, p: nat, v: int)
    requires IsI64(v)
    ensures Holds(s, p, I64(v)) <==> GetI64(s, p) == Got(v, p + 8)
  {
    hide U64, GetU64, Holds;
    U64Back(s, p, if v < 0 then v + TWO_64 else v);
  }

  lemma GetI64Next(s: Bytes, p: nat)
    ensures GetI64(s, p).Got? ==> GetI64(s, p).next == p + 8
  {
    hide U32;
    GetU32Next(s, p);
  }

  lemma {:induction false} I64sBack(s: Bytes, p: nat, xs: seq<int>)
    requires AllI64(xs) && p <= |s|
    ensures Holds(s, p, I64s(xs)) <==> GetI64s(s, p, |xs|) == Got(xs, p + 8 * |xs|)
  {
    if |xs| == 0 {
      assert s[p..p] == [];
    } else {
      var front, x := xs[..|xs| - 1], xs[|xs| - 1];
      I64sBack(s, p, front);
      I64sStep(s, p, front, x);
      assert xs == front + [x];
    }
  }

  lemma I64sAppend(front: seq<int>, x: int)
    requires AllI64(front) && IsI64(x)
    ensures AllI64(front + [x]) && I64s(front + [x]) == I64s(front) + I64(x)
  {
    hide I64;
    assert (front + [x])[..|front|] == front;
  }

  lemma GetI64sSplit(s: Bytes, p: nat, n: nat, front: seq<int>, x: int, q: nat)
    requires |front| == n
    ensures GetI64s(s, p, n + 1) == Got(front + [x], q) <==>
              GetI64s(s, p, n).Got? && GetI64s(s, p, n).value == front && GetI64(s, GetI64s(s, p, n).next) == Got(x, q)
  {
    hide GetI64;
    var g := GetI64s(s, p, n);
    if g.Got? && GetI64(s, g.next).Got? {
      assert (g.value + [GetI64(s, g.next).value])[..n] == g.value && (front + [x])[..n] == front;
    }
  }

  lemma I64sStep(s: Bytes, p: nat, front: seq<int>, x: int)
    requires AllI64(front) && IsI64(x)
    requires Holds(s, p, I64s(front)) <==> GetI64s(s, p, |front|) == Got(front, p + 8 * |front|)
    ensures AllI64(front + [x])
    ensures Holds(s, p, I64s(front + [x])) <==> GetI64s(s, p, |front| + 1) == Got(front + [x], p + 8 * |front| + 8)
  {
    hide Holds, GetI64, I64, I64s, GetI64s, AllI64;
    I64sAppend(front, x);
    GetI64sSplit(s, p, |front|, front, x, p + 8 * |front| + 8);
    HoldsBoth(s, p, I64s(front), I64(x));
    I64Back(s, p + 8 * |front|, x);
    I64sNext(s, p, |front|);
  }

  lemma {:induction false} I64sNext(s: Bytes, p: nat, n: nat)
    ensures GetI64s(s, p, n).Got? ==> GetI64s(s, p, n).next == p + 8 * n
  {
    if n > 0 {
      I64sNext(s, p, n - 1);
      hide GetI64;
      GetI64Next(s, p + 8 * (n - 1));
    }
  }

  lemma BytesBack(s: Bytes, p: nat, b: Bytes)
    ensures Holds(s, p, b) <==> GetBytes(s, p, |b|) == Got(b, p + |b|)
  {}

  // ---- The bytes of a number ----

  // The number that bytes stand for, the least significant first.
  function NumberOf(b: Bytes): int {
    if |b| == 0 then 0 else b[0] + 256 * NumberOf(b[1..])
  }

  lemma FourBytes(b: Bytes)
    requires |b| == 4
    ensures NumberOf(b) == Joined(b[0], b[1], b[2], b[3])
  {
    assert b[1..][1..] == b[2..] && b[2..][1..] == b[3..] && b[3..][1..] == [];
    assert NumberOf(b[3..]) == b[3] && NumberOf(b[2..]) == b[2] + 256 * NumberOf(b[3..]);
    assert NumberOf(b[1..]) == b[1] + 256 * NumberOf(b[2..]);
  }

  lemma {:induction false} NumberOfBoth(a: Bytes, b: Bytes)
    ensures NumberOf(a + b) == NumberOf(a) + Scale(|a|) * NumberOf(b)
  {
    if |a| == 0 {
      assert a + b == b;
    } else {
      assert (a + b)[1..] == a[1..] + b;
      NumberOfBoth(a[1..], b);
      ScaleStep(a[0], NumberOf(a[1..]), Scale(|a| - 1), NumberOf(b));
    }
  }

  lemma ScaleStep(x: int, y: int, k: int, n: int)
    ensures x + 256 * (y + k * n) == x + 256 * y + 256 * k * n
  {}

  function Scale(n: nat): int {
    if n == 0 then 1 else 256 * Scale(n - 1)
  }

  // Numbers travel with the least significant byte first, and negative ones modulo 2^64.
  lemma LittleEndian32(v: int)
    requires IsU32(v)
    ensures NumberOf(U32(v)) == v
  {
    FourBytes(U32(v));
    Digits(v);
  }

  lemma Digits(v: int)
    requires IsU32(v)
    ensures Joined(v % 256, v / 256 % 256, v / 256 / 256 % 256, v / 256 / 256 / 256) == v
  {}

  lemma LittleEndian(v: int)
    ensures IsU64(v) ==> NumberOf(U64(v)) == v
    ensures IsI64(v) ==> NumberOf(I64(v)) == if v < 0 then v + TWO_64 else v
  {
    if IsU64(v) {
      Halves(v);
    }
    if IsI64(v) && v < 0 {
      Halves(v + TWO_64);
    }
  }

  lemma Halves(v: int)
    requires IsU64(v)
    ensures NumberOf(U64(v)) == v
  {
    hide U32, NumberOf;
    LittleEndian32(v % TWO_32);
    LittleEndian32(v / TWO_32);
    NumberOfBoth(U32(v % TWO_32), U32(v / TWO_32));
    assert Scale(4) == TWO_32;
  }

  // ---- Arguments ----

  // An argument as it travels. Its rank is the number of its extents.
  datatype Arg = Arg(tag: nat, scalar: Bytes, handle: nat, sizes: seq<int>, strides: seq<int>)

  const ZEROS: Bytes := [0, 0, 0, 0, 0, 0, 0, 0]

  function ScalarWidth(tag: nat): nat {
    DtypeBytes(Kind(tag))
  }

  // Fields of the right width.
  predicate Sized(a: Arg) {
    && IsU32(a.tag) && |a.scalar| == 8 && IsU64(a.handle)
    && |a.sizes| == |a.strides| <= MAX_RANK && AllI64(a.sizes) && AllI64(a.strides)
  }

  // What a decoder can give back: the parts that do not travel are zero.
  predicate WellFormed(a: Arg) {
    && Sized(a)
    && (if IsSlot(a.tag) then a.scalar == ZEROS && (a.handle == 0 ==> a.sizes == [])
        else if Kind(a.tag) != 0 then
          ScalarWidth(a.tag) != 0 && a.scalar == a.scalar[..ScalarWidth(a.tag)] + ZEROS[ScalarWidth(a.tag)..]
          && a.handle == 0 && a.sizes == []
        else a.scalar == ZEROS && |a.sizes| == Rank(a.tag))
  }

  function Extents(sizes: seq<int>, strides: seq<int>): (b: Bytes)
    requires |sizes| == |strides| <= MAX_RANK && AllI64(sizes) && AllI64(strides)
    ensures |b| == 4 + 16 * |sizes|
  {
    I32(|sizes|) + I64s(sizes) + I64s(strides)
  }

  function ArgBytes(a: Arg): (b: Bytes)
    requires Sized(a)
    ensures |b| >= 4
  {
    U32(a.tag) +
    if IsSlot(a.tag) then U64(a.handle) + (if a.handle != 0 then Extents(a.sizes, a.strides) else [])
    else if Kind(a.tag) != 0 then a.scalar[..if ScalarWidth(a.tag) != 0 then ScalarWidth(a.tag) else 8]
    else U64(a.handle) + Extents(a.sizes, a.strides)
  }

  function GetExtents(s: Bytes, p: nat): (g: Got<(seq<int>, seq<int>)>)
    ensures g.Got? ==> |g.value.0| == |g.value.1| <= MAX_RANK && AllI64(g.value.0) && AllI64(g.value.1)
  {
    var rank := GetI32(s, p);
    if rank.Refused? || rank.value < 0 || rank.value > MAX_RANK then Refused
    else
      var sizes := GetI64s(s, rank.next, rank.value);
      if sizes.Refused? then Refused
      else
        var strides := GetI64s(s, sizes.next, rank.value);
        if strides.Refused? then Refused else Got((sizes.value, strides.value), strides.next)
  }

  function GetArg(s: Bytes, p: nat): (g: Got<Arg>) {
    var tag := GetU32(s, p);
    if tag.Refused? then Refused
    else if IsSlot(tag.value) then GetSlot(s, tag.next, tag.value)
    else if Kind(tag.value) != 0 then GetScalar(s, tag.next, tag.value)
    else GetMemref(s, tag.next, tag.value)
  }

  function GetSlot(s: Bytes, p: nat, tag: nat): Got<Arg> {
    var handle := GetU64(s, p);
    if handle.Refused? then Refused
    else if handle.value == 0 then Got(Arg(tag, ZEROS, 0, [], []), handle.next)
    else
      var e := GetExtents(s, handle.next);
      if e.Refused? then Refused else Got(Arg(tag, ZEROS, handle.value, e.value.0, e.value.1), e.next)
  }

  function GetScalar(s: Bytes, p: nat, tag: nat): Got<Arg> {
    var n := ScalarWidth(tag);
    if n == 0 then Refused
    else
      var b := GetBytes(s, p, n);
      if b.Refused? then Refused else Got(Arg(tag, b.value + ZEROS[n..], 0, [], []), b.next)
  }

  function GetMemref(s: Bytes, p: nat, tag: nat): Got<Arg> {
    var handle := GetU64(s, p);
    if handle.Refused? then Refused
    else
      var e := GetExtents(s, handle.next);
      if e.Refused? || |e.value.0| != Rank(tag) then Refused
      else Got(Arg(tag, ZEROS, handle.value, e.value.0, e.value.1), e.next)
  }

  lemma ExtentsBack(s: Bytes, p: nat, sizes: seq<int>, strides: seq<int>)
    requires |sizes| == |strides| <= MAX_RANK && AllI64(sizes) && AllI64(strides)
    ensures Holds(s, p, Extents(sizes, strides)) <==> GetExtents(s, p) == Got((sizes, strides), p + 4 + 16 * |sizes|)
  {
    hide Holds, GetI32, I32, GetI64s, I64s;
    var n := |sizes|;
    HoldsBoth(s, p, I32(n) + I64s(sizes), I64s(strides));
    HoldsBoth(s, p, I32(n), I64s(sizes));
    I32Back(s, p, n);
    GetI32Next(s, p);
    if p + 4 <= |s| {
      I64sBack(s, p + 4, sizes);
      I64sNext(s, p + 4, n);
      if p + 4 + 8 * n <= |s| {
        I64sBack(s, p + 4 + 8 * n, strides);
        I64sNext(s, p + 4 + 8 * n, n);
      }
    }
    HoldsInside(s, p, I32(n));
    HoldsInside(s, p + 4, I64s(sizes));
    GotExtents(s, p);
  }

  lemma HoldsInside(s: Bytes, p: nat, b: Bytes)
    ensures Holds(s, p, b) ==> p + |b| <= |s|
  {}

  lemma GetI32Next(s: Bytes, p: nat)
    ensures GetI32(s, p).Got? ==> GetI32(s, p).next == p + 4 <= |s|
  {}

  lemma {:induction false} I64sInside(s: Bytes, p: nat, n: nat)
    requires p <= |s|
    ensures GetI64s(s, p, n).Got? ==> GetI64s(s, p, n).next == p + 8 * n <= |s|
  {
    if n > 0 {
      I64sInside(s, p, n - 1);
    }
  }

  lemma GotExtents(s: Bytes, p: nat)
    ensures var g := GetExtents(s, p); g.Got? ==> g.next == p + 4 + 16 * |g.value.0| <= |s| && p + 4 <= |s|
  {
    hide GetI32, GetI64s;
    GetI32Next(s, p);
    var rank := GetI32(s, p);
    if rank.Got? && 0 <= rank.value <= MAX_RANK {
      I64sInside(s, rank.next, rank.value);
      var sizes := GetI64s(s, rank.next, rank.value);
      if sizes.Got? {
        I64sInside(s, sizes.next, rank.value);
      }
    }
  }

  function SlotBytes(a: Arg): Bytes
    requires Sized(a)
  {
    U64(a.handle) + if a.handle != 0 then Extents(a.sizes, a.strides) else []
  }

  function MemrefBytes(a: Arg): Bytes
    requires Sized(a)
  {
    U64(a.handle) + Extents(a.sizes, a.strides)
  }

  function BodyBytes(a: Arg): Bytes
    requires Sized(a)
  {
    if IsSlot(a.tag) then SlotBytes(a)
    else if Kind(a.tag) != 0 then a.scalar[..if ScalarWidth(a.tag) != 0 then ScalarWidth(a.tag) else 8]
    else MemrefBytes(a)
  }

  lemma GetU64Next(s: Bytes, p: nat)
    ensures GetU64(s, p).Got? ==> GetU64(s, p).next == p + 8 <= |s|
  {}

  lemma SlotBack(s: Bytes, p: nat, a: Arg)
    requires WellFormed(a) && IsSlot(a.tag)
    ensures Holds(s, p, SlotBytes(a)) <==> GetSlot(s, p, a.tag) == Got(a, p + |SlotBytes(a)|)
  {
    hide Holds, GetU64, U64, GetExtents, Extents, AllI64;
    U64Back(s, p, a.handle);
    GetU64Next(s, p);
    if a.handle == 0 {
      assert U64(a.handle) + [] == U64(a.handle);
    } else {
      HoldsBoth(s, p, U64(a.handle), Extents(a.sizes, a.strides));
      ExtentsBack(s, p + 8, a.sizes, a.strides);
      GotExtents(s, p + 8);
    }
  }

  lemma MemrefBack(s: Bytes, p: nat, a: Arg)
    requires WellFormed(a) && !IsSlot(a.tag) && Kind(a.tag) == 0
    ensures Holds(s, p, MemrefBytes(a)) <==> GetMemref(s, p, a.tag) == Got(a, p + |MemrefBytes(a)|)
  {
    hide Holds, GetU64, U64, GetExtents, Extents, AllI64;
    U64Back(s, p, a.handle);
    GetU64Next(s, p);
    HoldsBoth(s, p, U64(a.handle), Extents(a.sizes, a.strides));
    ExtentsBack(s, p + 8, a.sizes, a.strides);
    GotExtents(s, p + 8);
  }

  lemma ScalarBack(s: Bytes, p: nat, a: Arg)
    requires WellFormed(a) && !IsSlot(a.tag) && Kind(a.tag) != 0
    ensures Holds(s, p, BodyBytes(a)) <==> GetScalar(s, p, a.tag) == Got(a, p + |BodyBytes(a)|)
  {
    hide Kind, AllI64, DtypeBytes;
    var n := ScalarWidth(a.tag);
    BytesBack(s, p, a.scalar[..n]);
    if GetScalar(s, p, a.tag) == Got(a, p + n) {
      assert GetBytes(s, p, n).value == a.scalar[..n];
    }
  }

  // Reading gives an argument back exactly where its encoding stands.
  lemma ArgBack(s: Bytes, p: nat, a: Arg)
    requires WellFormed(a)
    ensures Holds(s, p, ArgBytes(a)) <==> GetArg(s, p) == Got(a, p + |ArgBytes(a)|)
  {
    hide Holds, GetU32, U32, GetSlot, GetScalar, GetMemref, SlotBytes, MemrefBytes, WellFormed, IsSlot, Kind;
    SizedIfWellFormed(a);
    ArgParts(a);
    HoldsBoth(s, p, U32(a.tag), BodyBytes(a));
    U32Back(s, p, a.tag);
    GetU32Next(s, p);
    GotTag(s, p);
    if IsSlot(a.tag) {
      SlotBack(s, p + 4, a);
    } else if Kind(a.tag) != 0 {
      ScalarBack(s, p + 4, a);
    } else {
      MemrefBack(s, p + 4, a);
    }
  }

  lemma SizedIfWellFormed(a: Arg)
    requires WellFormed(a)
    ensures Sized(a)
  {}

  lemma ArgParts(a: Arg)
    requires Sized(a)
    ensures ArgBytes(a) == U32(a.tag) + BodyBytes(a)
  {}

  lemma GotTag(s: Bytes, p: nat)
    ensures GetArg(s, p).Got? ==> GetU32(s, p).Got? && GetArg(s, p).value.tag == GetU32(s, p).value
  {}

  // What is read is well formed, and is what the bytes read encode.
  lemma ArgRead(s: Bytes, p: nat)
    requires GetArg(s, p).Got?
    ensures var a := GetArg(s, p).value;
            WellFormed(a) && GetArg(s, p).next == p + |ArgBytes(a)| && Holds(s, p, ArgBytes(a))
  {
    hide Holds, GetU32, GetSlot, GetScalar, GetMemref, WellFormed, ArgBytes, IsSlot, Kind;
    var tag := GetU32(s, p);
    if IsSlot(tag.value) {
      SlotRead(s, tag.next, tag.value);
    } else if Kind(tag.value) != 0 {
      ScalarRead(s, tag.next, tag.value);
    } else {
      MemrefRead(s, tag.next, tag.value);
    }
    var a := GetArg(s, p).value;
    SizedIfWellFormed(a);
    GetU32Next(s, p);
    ArgParts(a);
    ArgBack(s, p, a);
  }

  lemma SlotRead(s: Bytes, p: nat, tag: nat)
    requires GetSlot(s, p, tag).Got? && IsU32(tag) && IsSlot(tag)
    ensures var a := GetSlot(s, p, tag).value;
            WellFormed(a) && a.tag == tag && GetSlot(s, p, tag).next == p + |BodyBytes(a)|
  {
    hide GetU64, GetExtents, U64, Extents, IsSlot;
    GetU64Next(s, p);
    GotExtents(s, p + 8);
  }

  lemma MemrefRead(s: Bytes, p: nat, tag: nat)
    requires GetMemref(s, p, tag).Got? && IsU32(tag) && !IsSlot(tag) && Kind(tag) == 0
    ensures var a := GetMemref(s, p, tag).value;
            WellFormed(a) && a.tag == tag && GetMemref(s, p, tag).next == p + |BodyBytes(a)|
  {
    hide GetU64, GetExtents, U64, Extents, IsSlot, Kind;
    GetU64Next(s, p);
    GotExtents(s, p + 8);
  }

  lemma ScalarRead(s: Bytes, p: nat, tag: nat)
    requires GetScalar(s, p, tag).Got? && IsU32(tag) && !IsSlot(tag) && Kind(tag) != 0
    ensures var a := GetScalar(s, p, tag).value;
            WellFormed(a) && a.tag == tag && GetScalar(s, p, tag).next == p + |BodyBytes(a)|
  {
    hide IsSlot, Kind, DtypeBytes;
    var a, n := GetScalar(s, p, tag).value, ScalarWidth(tag);
    assert a.scalar[..n] == s[p..p + n] && a.scalar[n..] == ZEROS[n..];
  }

  function ArgsBytes(args: seq<Arg>): Bytes
    requires AllSized(args)
  {
    if |args| == 0 then [] else ArgsBytes(args[..|args| - 1]) + ArgBytes(args[|args| - 1])
  }

  predicate AllSized(args: seq<Arg>) {
    forall i :: 0 <= i < |args| ==> Sized(args[i])
  }

  function GetArgs(s: Bytes, p: nat, n: nat): (g: Got<seq<Arg>>)
    ensures g.Got? ==> |g.value| == n
  {
    if n == 0 then Got([], p)
    else
      var front := GetArgs(s, p, n - 1);
      if front.Refused? then Refused
      else
        var a := GetArg(s, front.next);
        if a.Refused? then Refused else Got(front.value + [a.value], a.next)
  }

  predicate AllWellFormed(args: seq<Arg>) {
    AllSized(args) && forall i :: 0 <= i < |args| ==> WellFormed(args[i])
  }

  lemma GetArgsSplit(s: Bytes, p: nat, n: nat)
    requires n > 0 && GetArgs(s, p, n).Got?
    ensures var front := GetArgs(s, p, n - 1);
            && front.Got? && GetArg(s, front.next).Got?
            && GetArgs(s, p, n) == Got(front.value + [GetArg(s, front.next).value], GetArg(s, front.next).next)
  {
    hide GetArg;
  }

  // `args` are well formed, and their encoding stands from `p` up to `q`.
  predicate Encoded(s: Bytes, p: nat, args: seq<Arg>, q: nat) {
    AllWellFormed(args) && q == p + |ArgsBytes(args)| && q <= |s| && Holds(s, p, ArgsBytes(args))
  }

  lemma NoneEncoded(s: Bytes, p: nat)
    requires p <= |s|
    ensures Encoded(s, p, [], p)
  {
    assert s[p..p] == [];
  }

  lemma {:induction false} ArgsRead(s: Bytes, p: nat, n: nat)
    requires p <= |s| && GetArgs(s, p, n).Got?
    ensures var g := GetArgs(s, p, n); Encoded(s, p, g.value, g.next)
  {
    if n == 0 {
      NoneEncoded(s, p);
    } else {
      hide GetArg, GetArgs, ArgBytes, Encoded, Holds, Sized, WellFormed;
      GetArgsSplit(s, p, n);
      var front := GetArgs(s, p, n - 1);
      ArgsRead(s, p, n - 1);
      ArgRead(s, front.next);
      EncodedStep(s, p, front.value, front.next, GetArg(s, front.next).value);
    }
  }

  lemma EncodedStep(s: Bytes, p: nat, front: seq<Arg>, q: nat, a: Arg)
    requires Encoded(s, p, front, q) && WellFormed(a) && Holds(s, q, ArgBytes(a))
    ensures Encoded(s, p, front + [a], q + |ArgBytes(a)|)
  {
    SizedIfWellFormed(a);
    hide ArgBytes, ArgsBytes, WellFormed, Sized, Holds;
    ArgsAppend(front, a);
    HoldsBoth(s, p, ArgsBytes(front), ArgBytes(a));
    HoldsInside(s, q, ArgBytes(a));
  }

  lemma ArgsAppend(front: seq<Arg>, a: Arg)
    requires AllWellFormed(front) && WellFormed(a)
    ensures AllWellFormed(front + [a]) && ArgsBytes(front + [a]) == ArgsBytes(front) + ArgBytes(a)
  {
    SizedIfWellFormed(a);
    hide ArgBytes, WellFormed, Sized;
    assert (front + [a])[..|front|] == front;
  }

  lemma GetArgsStep(s: Bytes, p: nat, front: seq<Arg>, q: nat, a: Arg, r: nat)
    requires GetArgs(s, p, |front|) == Got(front, q) && GetArg(s, q) == Got(a, r)
    ensures GetArgs(s, p, |front| + 1) == Got(front + [a], r)
  {
    hide GetArg;
  }

  lemma NoArgs(s: Bytes, p: nat, args: seq<Arg>)
    requires |args| == 0
    ensures AllSized(args) && ArgsBytes(args) == [] && GetArgs(s, p, 0) == Got(args, p)
  {}

  lemma {:induction false} ArgsBack(s: Bytes, p: nat, args: seq<Arg>)
    requires AllWellFormed(args) && Holds(s, p, ArgsBytes(args))
    ensures GetArgs(s, p, |args|) == Got(args, p + |ArgsBytes(args)|)
  {
    hide GetArg, GetArgs, ArgBytes, ArgsBytes, Holds, WellFormed, Sized;
    if |args| == 0 {
      NoArgs(s, p, args);
    } else {
      var front, a := args[..|args| - 1], args[|args| - 1];
      ArgsAppend(front, a);
      assert args == front + [a];
      HoldsBoth(s, p, ArgsBytes(front), ArgBytes(a));
      ArgsBack(s, p, front);
      var q := p + |ArgsBytes(front)|;
      ArgBack(s, q, a);
      GetArgsStep(s, p, front, q, a, q + |ArgBytes(a)|);
    }
  }

  lemma {:induction false} ArgsLength(args: seq<Arg>)
    requires AllWellFormed(args)
    ensures |ArgsBytes(args)| >= 4 * |args|
  {
    if |args| > 0 {
      hide ArgBytes, WellFormed;
      ArgsLength(args[..|args| - 1]);
    }
  }

  // ---- Messages ----

  // DISPATCH: a payload and its arguments.
  datatype Dispatch = Dispatch(payload: Bytes, args: seq<Arg>)

  predicate Sendable(m: Dispatch) {
    AllWellFormed(m.args) && |m.payload| + 16 + |ArgsBytes(m.args)| < TWO_63
  }

  lemma SendableCounts(m: Dispatch)
    requires Sendable(m)
    ensures IsU64(|m.payload|) && IsI64(|m.args|) && 4 * |m.args| <= |ArgsBytes(m.args)|
  {
    ArgsLength(m.args);
  }

  function DispatchBytes(m: Dispatch): Bytes
    requires Sendable(m)
  {
    SendableCounts(m);
    U64(|m.payload|) + m.payload + I64(|m.args|) + ArgsBytes(m.args)
  }

  // The fixed part and then as many arguments as it says. The test of the count
  // against what is left wraps at 64 bits.
  function GetDispatch(s: Bytes, p: nat): Got<Dispatch>
    requires p <= |s|
  {
    var len := GetU64(s, p);
    if len.Refused? || len.value > |s| - (p + 8) then Refused
    else
      var payload := GetBytes(s, p + 8, len.value);
      if payload.Refused? then Refused
      else
        var num := GetI64(s, payload.next);
        if num.Refused? || num.value < 0 || num.value * 4 % TWO_64 > |s| - num.next then Refused
        else
          var args := GetArgs(s, num.next, num.value);
          if args.Refused? then Refused else Got(Dispatch(payload.value, args.value), args.next)
  }

  // The parts of an encoded message, where they stand.
  lemma DispatchParts(s: Bytes, p: nat, m: Dispatch)
    requires Sendable(m)
    ensures IsU64(|m.payload|) && IsI64(|m.args|) && |DispatchBytes(m)| == 16 + |m.payload| + |ArgsBytes(m.args)|
    ensures Holds(s, p, DispatchBytes(m)) <==>
              && Holds(s, p, U64(|m.payload|)) && Holds(s, p + 8, m.payload)
              && Holds(s, p + 8 + |m.payload|, I64(|m.args|)) && Holds(s, p + 16 + |m.payload|, ArgsBytes(m.args))
  {
    hide Holds, U64, I64, ArgsBytes, AllWellFormed, AllSized, Sendable;
    SendableCounts(m);
    SendableArgs(m);
    var a, b, c := U64(|m.payload|), m.payload, I64(|m.args|);
    HoldsBoth(s, p, a + b + c, ArgsBytes(m.args));
    HoldsBoth(s, p, a + b, c);
    HoldsBoth(s, p, a, b);
  }

  // An encoded message is read back, and exactly its bytes are read.
  lemma DispatchBack(s: Bytes, p: nat, m: Dispatch)
    requires Sendable(m) && Holds(s, p, DispatchBytes(m))
    ensures p <= |s| && GetDispatch(s, p) == Got(m, p + |DispatchBytes(m)|)
  {
    hide Holds, U64, I64, GetU64, GetI64, GetBytes, GetArgs, ArgsBytes, DispatchBytes, Sendable, AllWellFormed;
    hide AllSized;
    SendableCounts(m);
    SendableArgs(m);
    HoldsInside(s, p, DispatchBytes(m));
    DispatchParts(s, p, m);
    var b := m.payload;
    U64Back(s, p, |b|);
    BytesBack(s, p + 8, b);
    I64Back(s, p + 8 + |b|, |m.args|);
    ArgsBack(s, p + 16 + |b|, m.args);
    SmallCount(|m.args|);
  }

  lemma SendableArgs(m: Dispatch)
    requires Sendable(m)
    ensures AllWellFormed(m.args) && AllSized(m.args) && |m.args| < TWO_63 / 4
  {
    ArgsLength(m.args);
  }

  lemma SmallCount(n: nat)
    requires n < TWO_63 / 4
    ensures n * 4 % TWO_64 == n * 4
  {}

  // Only encodings are accepted.
  lemma DispatchRead(s: Bytes, p: nat)
    requires p <= |s| < TWO_63 && GetDispatch(s, p).Got?
    ensures var g := GetDispatch(s, p);
            Sendable(g.value) && Holds(s, p, DispatchBytes(g.value)) && g.next == p + |DispatchBytes(g.value)| <= |s|
  {
    hide Holds, U64, I64, GetU64, GetI64, GetBytes, GetArgs, ArgsBytes, AllWellFormed, DispatchBytes;
    var g := GetDispatch(s, p);
    var m := g.value;
    GetU64Next(s, p);
    GetBytesNext(s, p + 8, GetU64(s, p).value);
    var q := GetBytes(s, p + 8, GetU64(s, p).value).next;
    GetI64Next(s, q);
    GetI64Inside(s, q);
    ArgsRead(s, q + 8, GetI64(s, q).value);
    EncodedParts(s, q + 8, m.args, g.next);
    U64Back(s, p, |m.payload|);
    BytesBack(s, p + 8, m.payload);
    I64Back(s, q, |m.args|);
    DispatchParts(s, p, m);
  }

  lemma EncodedParts(s: Bytes, p: nat, args: seq<Arg>, q: nat)
    requires Encoded(s, p, args, q)
    ensures AllWellFormed(args) && AllSized(args) && q == p + |ArgsBytes(args)| && q <= |s|
    ensures Holds(s, p, ArgsBytes(args))
  {}

  lemma GetBytesNext(s: Bytes, p: nat, n: nat)
    ensures var g := GetBytes(s, p, n); g.Got? ==> g.next == p + n <= |s| && |g.value| == n
  {}

  lemma GetI64Inside(s: Bytes, p: nat)
    ensures GetI64(s, p).Got? ==> p + 8 <= |s|
  {}

  // What reads from the front of a message reads the whole message.
  lemma ReadsWhole(m: Dispatch, cut: Bytes)
    requires Sendable(m) && cut <= DispatchBytes(m) && GetDispatch(cut, 0).Got?
    ensures cut == DispatchBytes(m)
  {
    var s := DispatchBytes(m);
    DispatchParts(s, 0, m);
    SmallMessage(m);
    hide GetDispatch, DispatchBytes, Sendable;
    DispatchRead(cut, 0);
    var g := GetDispatch(cut, 0);
    SmallMessage(g.value);
    var b := DispatchBytes(g.value);
    assert s[0..|b|] == cut[0..|b|];
    assert s[0..|s|] == s;
    DispatchBack(s, 0, g.value);
    DispatchBack(s, 0, m);
  }

  lemma SmallMessage(m: Dispatch)
    requires Sendable(m)
    ensures |DispatchBytes(m)| < TWO_63
  {
    DispatchParts([], 0, m);
  }

  // A message cut short anywhere is refused.
  lemma CutIsRefused(m: Dispatch, k: nat)
    requires Sendable(m) && k < |DispatchBytes(m)|
    ensures GetDispatch(DispatchBytes(m)[..k], 0).Refused?
  {
    hide GetDispatch, DispatchBytes, Sendable;
    var cut := DispatchBytes(m)[..k];
    if GetDispatch(cut, 0).Got? {
      ReadsWhole(m, cut);
    }
  }

  // TRANSFER: the bytes of a buffer and their shape.
  datatype Transfer = Transfer(dtype: int, sizes: seq<int>, bytes: Bytes)

  predicate Carriable(m: Transfer) {
    IsI32(m.dtype) && |m.sizes| <= MAX_RANK && AllI64(m.sizes) && |m.bytes| < TWO_63
  }

  function TransferBytes(m: Transfer): (b: Bytes)
    requires Carriable(m)
    ensures |b| == 16 + 8 * |m.sizes| + |m.bytes|
  {
    I32(m.dtype) + I32(|m.sizes|) + I64s(m.sizes) + U64(|m.bytes|) + m.bytes
  }

  function GetTransfer(s: Bytes, p: nat): Got<Transfer> {
    var dtype := GetI32(s, p);
    if dtype.Refused? then Refused
    else
      var rank := GetI32(s, dtype.next);
      if rank.Refused? || rank.value < 0 || rank.value > MAX_RANK then Refused
      else
        var sizes := GetI64s(s, rank.next, rank.value);
        if sizes.Refused? then Refused
        else
          var n := GetU64(s, sizes.next);
          if n.Refused? then Refused
          else
            var bytes := GetBytes(s, n.next, n.value);
            if bytes.Refused? then Refused else Got(Transfer(dtype.value, sizes.value, bytes.value), bytes.next)
  }

  // Reading gives a transfer back exactly where its encoding stands.
  lemma TransferBack(s: Bytes, p: nat, m: Transfer)
    requires Carriable(m)
    ensures Holds(s, p, TransferBytes(m)) <==> GetTransfer(s, p) == Got(m, p + |TransferBytes(m)|)
  {
    hide Holds, U64, I32, I64s, GetU64, GetI32, GetI64s, GetBytes, AllI64;
    var a, b, c, d := I32(m.dtype), I32(|m.sizes|), I64s(m.sizes), U64(|m.bytes|);
    var q := p + 8 + 8 * |m.sizes|;
    HoldsBoth(s, p, a + b + c + d, m.bytes);
    HoldsBoth(s, p, a + b + c, d);
    HoldsBoth(s, p, a + b, c);
    HoldsBoth(s, p, a, b);
    I32Back(s, p, m.dtype);
    I32Back(s, p + 4, |m.sizes|);
    GetI32Next(s, p);
    GetI32Next(s, p + 4);
    if p + 8 <= |s| {
      I64sBack(s, p + 8, m.sizes);
      I64sInside(s, p + 8, |m.sizes|);
    }
    HoldsInside(s, p + 4, b);
    U64Back(s, q, |m.bytes|);
    GetU64Next(s, q);
    BytesBack(s, q + 8, m.bytes);
    if GetTransfer(s, p) == Got(m, p + |TransferBytes(m)|) {
      GetBytesNext(s, q + 8, GetU64(s, q).value);
    }
  }

  // The reply to a dispatch: a status and, for each slot in order, a handle and sizes.
  datatype Result = Result(handle: nat, sizes: seq<int>)

  predicate ResultFits(r: Result) {
    IsU64(r.handle) && |r.sizes| <= MAX_RANK && AllI64(r.sizes)
  }

  function ResultBytes(r: Result): (b: Bytes)
    requires ResultFits(r)
    ensures |b| >= 12
  {
    U64(r.handle) + I32(|r.sizes|) + I64s(r.sizes)
  }

  function GetResult(s: Bytes, p: nat): Got<Result> {
    var handle := GetU64(s, p);
    if handle.Refused? then Refused
    else
      var rank := GetI32(s, handle.next);
      if rank.Refused? || rank.value < 0 || rank.value > MAX_RANK then Refused
      else
        var sizes := GetI64s(s, rank.next, rank.value);
        if sizes.Refused? then Refused else Got(Result(handle.value, sizes.value), sizes.next)
  }

  lemma ResultBack(s: Bytes, p: nat, r: Result)
    requires ResultFits(r)
    ensures Holds(s, p, ResultBytes(r)) ==> GetResult(s, p) == Got(r, p + |ResultBytes(r)|)
  {
    hide Holds, U64, I32, I64s, GetU64, GetI32, GetI64s, AllI64;
    var a, b, c := U64(r.handle), I32(|r.sizes|), I64s(r.sizes);
    HoldsBoth(s, p, a + b, c);
    HoldsBoth(s, p, a, b);
    U64Back(s, p, r.handle);
    I32Back(s, p + 8, |r.sizes|);
    HoldsInside(s, p + 8, b);
    if p + 12 <= |s| {
      I64sBack(s, p + 12, r.sizes);
    }
  }

  predicate AllResultsFit(rs: seq<Result>) {
    forall i :: 0 <= i < |rs| ==> ResultFits(rs[i])
  }

  function ResultsBytes(rs: seq<Result>): (b: Bytes)
    requires AllResultsFit(rs)
    ensures |b| >= 12 * |rs|
  {
    if |rs| == 0 then [] else ResultsBytes(rs[..|rs| - 1]) + ResultBytes(rs[|rs| - 1])
  }

  function GetResults(s: Bytes, p: nat, n: nat): Got<seq<Result>> {
    if n == 0 then Got([], p)
    else
      var front := GetResults(s, p, n - 1);
      if front.Refused? then Refused
      else
        var r := GetResult(s, front.next);
        if r.Refused? then Refused else Got(front.value + [r.value], r.next)
  }

  lemma NoResults(s: Bytes, p: nat, rs: seq<Result>)
    requires |rs| == 0
    ensures AllResultsFit(rs) && ResultsBytes(rs) == [] && GetResults(s, p, 0) == Got(rs, p)
  {}

  lemma ResultsAppend(s: Bytes, p: nat, front: seq<Result>, q: nat, r: Result)
    requires AllResultsFit(front) && ResultFits(r)
    ensures AllResultsFit(front + [r]) && ResultsBytes(front + [r]) == ResultsBytes(front) + ResultBytes(r)
    ensures GetResults(s, p, |front|) == Got(front, q) && GetResult(s, q).Got? && GetResult(s, q).value == r ==>
              GetResults(s, p, |front| + 1) == Got(front + [r], GetResult(s, q).next)
  {
    hide ResultBytes, ResultFits, GetResult;
    assert (front + [r])[..|front|] == front;
  }

  lemma {:induction false} ResultsBack(s: Bytes, p: nat, rs: seq<Result>)
    requires AllResultsFit(rs) && Holds(s, p, ResultsBytes(rs))
    ensures GetResults(s, p, |rs|) == Got(rs, p + |ResultsBytes(rs)|)
  {
    hide GetResult, GetResults, ResultBytes, ResultsBytes, Holds, ResultFits;
    if |rs| == 0 {
      NoResults(s, p, rs);
    } else {
      var front, r := rs[..|rs| - 1], rs[|rs| - 1];
      var q := p + |ResultsBytes(front)|;
      ResultsAppend(s, p, front, q, r);
      assert rs == front + [r];
      HoldsBoth(s, p, ResultsBytes(front), ResultBytes(r));
      ResultsBack(s, p, front);
      ResultBack(s, q, r);
    }
  }

  datatype Reply = Reply(status: int, results: seq<Result>)

  predicate ReplyFits(m: Reply) {
    IsI32(m.status) && AllResultsFit(m.results) && |m.results| < TWO_63 / 12
  }

  function ReplyBytes(m: Reply): (b: Bytes)
    requires ReplyFits(m)
  {
    I32(m.status) + I64(|m.results|) + ResultsBytes(m.results)
  }

  // The status of a reply and how many results it has.
  function GetReplyHead(s: Bytes, p: nat): Got<(int, int)> {
    var status := GetI32(s, p);
    if status.Refused? then Refused
    else
      var n := GetI64(s, status.next);
      if n.Refused? || n.value < 0 || n.value * 12 % TWO_64 > |s| - n.next then Refused
      else Got((status.value, n.value), n.next)
  }

  function GetReply(s: Bytes, p: nat): Got<Reply> {
    var head := GetReplyHead(s, p);
    if head.Refused? then Refused
    else
      var rs := GetResults(s, head.next, head.value.1);
      if rs.Refused? then Refused else Got(Reply(head.value.0, rs.value), rs.next)
  }

  lemma ReplyBack(s: Bytes, p: nat, m: Reply)
    requires ReplyFits(m) && Holds(s, p, ReplyBytes(m))
    ensures GetReply(s, p) == Got(m, p + |ReplyBytes(m)|)
  {
    hide Holds, I32, I64, GetI32, GetI64, GetResults, ResultsBytes, AllResultsFit;
    var a, b, c := I32(m.status), I64(|m.results|), ResultsBytes(m.results);
    HoldsBoth(s, p, a + b, c);
    HoldsBoth(s, p, a, b);
    HoldsInside(s, p + 12, c);
    I32Back(s, p, m.status);
    I64Back(s, p + 4, |m.results|);
    ResultsBack(s, p + 12, m.results);
    assert |m.results| * 12 % TWO_64 == |m.results| * 12;
  }

  // FETCH: a handle and how many bytes of its buffer. FREE: a handle.
  function FetchBytes(handle: int, n: int): (b: Bytes)
    requires IsU64(handle) && IsU64(n)
    ensures |b| == 16
  {
    U64(handle) + U64(n)
  }

  function GetFetch(s: Bytes, p: nat): Got<(int, int)> {
    var handle := GetU64(s, p);
    if handle.Refused? then Refused
    else
      var n := GetU64(s, handle.next);
      if n.Refused? then Refused else Got((handle.value, n.value), n.next)
  }

  lemma FetchBack(s: Bytes, p: nat, handle: int, n: int)
    requires IsU64(handle) && IsU64(n) && Holds(s, p, FetchBytes(handle, n))
    ensures GetFetch(s, p) == Got((handle, n), p + 16)
  {
    hide Holds, U64, GetU64;
    HoldsBoth(s, p, U64(handle), U64(n));
    U64Back(s, p, handle);
    U64Back(s, p + 8, n);
  }

  // ---- Frames ----

  const HEADER_BYTES: int := 20

  datatype Header = Header(magic: int, version: int, kind: int, length: int)

  function HeaderBytes(kind: int, length: int): (b: Bytes)
    requires IsU32(kind) && IsU64(length)
    ensures |b| == HEADER_BYTES
  {
    U32(MAGIC) + U32(VERSION) + U32(kind) + U64(length)
  }

  function GetHeader(s: Bytes, p: nat): Got<Header> {
    var magic := GetU32(s, p);
    if magic.Refused? then Refused
    else
      var version := GetU32(s, magic.next);
      if version.Refused? then Refused
      else
        var kind := GetU32(s, version.next);
        if kind.Refused? then Refused
        else
          var length := GetU64(s, kind.next);
          if length.Refused? then Refused
          else Got(Header(magic.value, version.value, kind.value, length.value), length.next)
  }

  lemma HeaderBack(s: Bytes, p: nat, kind: int, length: int)
    requires IsU32(kind) && IsU64(length) && Holds(s, p, HeaderBytes(kind, length))
    ensures GetHeader(s, p) == Got(Header(MAGIC, VERSION, kind, length), p + HEADER_BYTES)
  {
    hide Holds, U32, U64, GetU32, GetU64;
    var a, b, c, d := U32(MAGIC), U32(VERSION), U32(kind), U64(length);
    HoldsBoth(s, p, a + b + c, d);
    HoldsBoth(s, p, a + b, c);
    HoldsBoth(s, p, a, b);
    U32Back(s, p, MAGIC);
    U32Back(s, p + 4, VERSION);
    U32Back(s, p + 8, kind);
    U64Back(s, p + 12, length);
  }

  // ---- Where the fields are ----

  // A header is the magic number, the version, the type and the length of the body.
  lemma HeaderLayout(kind: int, length: int)
    requires IsU32(kind) && IsU64(length)
    ensures var b := HeaderBytes(kind, length);
            && NumberOf(b[..4]) == MAGIC && NumberOf(b[4..8]) == VERSION
            && NumberOf(b[8..12]) == kind && NumberOf(b[12..]) == length
  {
    hide U32, U64, NumberOf;
    var b := HeaderBytes(kind, length);
    assert b[..4] == U32(MAGIC) && b[4..8] == U32(VERSION) && b[8..12] == U32(kind) && b[12..] == U64(length);
    LittleEndian32(MAGIC);
    LittleEndian32(VERSION);
    LittleEndian32(kind);
    LittleEndian(length);
  }

  // A DISPATCH is the payload with its length before it, and the arguments with their number.
  lemma DispatchLayout(m: Dispatch)
    requires Sendable(m)
    ensures var b, n := DispatchBytes(m), |m.payload|;
            && |b| >= 16 + n && NumberOf(b[..8]) == n && b[8..8 + n] == m.payload
            && NumberOf(b[8 + n..16 + n]) == |m.args| && b[16 + n..] == ArgsBytes(m.args)
  {
    SendableCounts(m);
    hide U64, I64, NumberOf, ArgsBytes, Sendable;
    var b, n := DispatchBytes(m), |m.payload|;
    assert b[..8] == U64(n) && b[8 + n..16 + n] == I64(|m.args|);
    LittleEndian(n);
    LittleEndian(|m.args|);
  }

  // A TRANSFER is the element type, the rank, the sizes, and the bytes with their number.
  lemma TransferLayout(m: Transfer)
    requires Carriable(m)
    ensures var b, n := TransferBytes(m), |m.sizes|;
            && b[..4] == I32(m.dtype) && NumberOf(b[4..8]) == n && b[8..8 + 8 * n] == I64s(m.sizes)
            && NumberOf(b[8 + 8 * n..16 + 8 * n]) == |m.bytes| && b[16 + 8 * n..] == m.bytes
  {
    hide U32, U64, NumberOf, I64s;
    var b, n := TransferBytes(m), |m.sizes|;
    assert b[4..8] == I32(n) == U32(n) && b[8 + 8 * n..16 + 8 * n] == U64(|m.bytes|);
    LittleEndian32(n);
    LittleEndian(|m.bytes|);
  }

  // A FETCH is a handle and a number of bytes.
  lemma FetchLayout(handle: int, n: int)
    requires IsU64(handle) && IsU64(n)
    ensures var b := FetchBytes(handle, n); NumberOf(b[..8]) == handle && NumberOf(b[8..]) == n
  {
    hide U64, NumberOf;
    var b := FetchBytes(handle, n);
    assert b[..8] == U64(handle) && b[8..] == U64(n);
    LittleEndian(handle);
    LittleEndian(n);
  }

  // A reply is the status, and the results with their number. A result is its handle, its rank and its
  // sizes.
  lemma ReplyLayout(m: Reply)
    requires ReplyFits(m)
    ensures var b := ReplyBytes(m);
            |b| >= 12 && b[..4] == I32(m.status) && NumberOf(b[4..12]) == |m.results|
            && b[12..] == ResultsBytes(m.results)
  {
    hide U32, I64, NumberOf, ResultsBytes;
    var b := ReplyBytes(m);
    assert b[4..12] == I64(|m.results|);
    LittleEndian(|m.results|);
  }

  lemma ResultLayout(r: Result)
    requires ResultFits(r)
    ensures var b := ResultBytes(r);
            NumberOf(b[..8]) == r.handle && NumberOf(b[8..12]) == |r.sizes| && b[12..] == I64s(r.sizes)
  {
    hide U32, U64, NumberOf, I64s;
    var b := ResultBytes(r);
    assert b[..8] == U64(r.handle) && b[8..12] == I32(|r.sizes|) == U32(|r.sizes|);
    LittleEndian(r.handle);
    LittleEndian32(|r.sizes|);
  }

  // A tensor is its tag, its handle, its rank, its sizes and then its strides.
  lemma TensorLayout(a: Arg)
    requires Sized(a) && !IsSlot(a.tag) && Kind(a.tag) == 0
    ensures var b, n := ArgBytes(a), |a.sizes|;
            && |b| == 16 + 16 * n && NumberOf(b[..4]) == a.tag && NumberOf(b[4..12]) == a.handle
            && NumberOf(b[12..16]) == n && b[16..16 + 8 * n] == I64s(a.sizes) && b[16 + 8 * n..] == I64s(a.strides)
  {
    hide U32, U64, NumberOf, I64s, IsSlot, Kind;
    var b, n := ArgBytes(a), |a.sizes|;
    assert b[..4] == U32(a.tag) && b[4..12] == U64(a.handle) && b[12..16] == I32(n) == U32(n);
    LittleEndian32(a.tag);
    LittleEndian(a.handle);
    LittleEndian32(n);
  }

  // Number `i` of a list is its `i`-th eight bytes.
  lemma {:induction false} ListLayout(xs: seq<int>, i: nat)
    requires AllI64(xs) && i < |xs|
    ensures NumberOf(I64s(xs)[8 * i..8 * i + 8]) == if xs[i] < 0 then xs[i] + TWO_64 else xs[i]
  {
    hide I64, NumberOf;
    var n := |xs| - 1;
    var front := I64s(xs[..n]);
    if i == n {
      assert I64s(xs)[8 * i..8 * i + 8] == I64(xs[i]);
      LittleEndian(xs[i]);
    } else {
      ListLayout(xs[..n], i);
      assert I64s(xs)[8 * i..8 * i + 8] == front[8 * i..8 * i + 8];
    }
  }
}
