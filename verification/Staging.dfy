// Running a kernel on copies of its views, against running it in place.
//
// A kernel is any program that reaches memory only through elements of its
// views: what it does next depends on the bytes it has loaded and stored so far.
module Staging {
  import opened Strided
  import opened Abi
  import opened Plan

  datatype Op =
    | Load(view: nat, index: seq<int>, byte: nat)
    | Store(view: nat, index: seq<int>, byte: nat, value: Byte)
    | Halt

  type Kernel = seq<Byte> -> Op

  // Byte `k` of the element at tuple `i` of descriptor `d`.
  function ElementByte(d: Desc, b: int, i: seq<int>, k: int): int
    requires |i| == |d.strides|
  {
    d.aligned + (d.offset + Linear(i, d.strides)) * b + k
  }

  predicate Shaped(ds: seq<Desc>, bs: seq<int>) {
    |ds| == |bs| && forall i :: 0 <= i < |ds| ==> |ds[i].sizes| == |ds[i].strides|
  }

  predicate Reaches(ds: seq<Desc>, bs: seq<int>, v: nat, i: seq<int>, k: nat)
    requires Shaped(ds, bs)
  {
    v < |ds| && InRange(i, ds[v].sizes) && k < bs[v]
  }

  datatype Result = Result(memory: seq<Byte>, seen: seq<Byte>)

  // `n` steps of the kernel. It stops at Halt, and when it leaves its views.
  function Run(kernel: Kernel, ds: seq<Desc>, bs: seq<int>, m: seq<Byte>, seen: seq<Byte>, n: nat): Result
    requires Shaped(ds, bs)
    decreases n
  {
    if n == 0 then Result(m, seen)
    else
      match kernel(seen)
      case Halt => Result(m, seen)
      case Load(v, i, k) =>
        if !Reaches(ds, bs, v, i, k) then Result(m, seen)
        else
          var x := ElementByte(ds[v], bs[v], i, k);
          if 0 <= x < |m| then Run(kernel, ds, bs, m, seen + [m[x]], n - 1) else Result(m, seen)
      case Store(v, i, k, value) =>
        if !Reaches(ds, bs, v, i, k) then Result(m, seen)
        else
          var x := ElementByte(ds[v], bs[v], i, k);
          if 0 <= x < |m| then Run(kernel, ds, bs, m[x := value], seen + [value], n - 1) else Result(m, seen)
  }

  // ---- Copies ----

  // Byte `c` of the copy of span `s` is at `y`, and stands for the byte at `x`.
  predicate Cell(hosts: seq<seq<int>>, copies: seq<int>, s: int, c: int, x: int, y: int)
    requires |hosts| == |copies|
  {
    0 <= s < |hosts| && 0 <= c < |hosts[s]| && x == hosts[s][c] && y == copies[s] + c
  }

  predicate InBlock(hosts: seq<seq<int>>, copies: seq<int>, s: int, x: int)
    requires |hosts| == |copies|
  {
    0 <= s < |hosts| && copies[s] <= x < copies[s] + |hosts[s]|
  }

  ghost predicate InAnyBlock(hosts: seq<seq<int>>, copies: seq<int>, x: int)
    requires |hosts| == |copies|
  {
    exists s :: InBlock(hosts, copies, s, x)
  }

  ghost predicate IsHost(hosts: seq<seq<int>>, x: int) {
    exists s, c :: 0 <= s < |hosts| && 0 <= c < |hosts[s]| && hosts[s][c] == x
  }

  // The copies are blocks of their own, and no two bytes of them stand for one byte.
  ghost predicate Faithful(hosts: seq<seq<int>>, copies: seq<int>, size: nat) {
    && |hosts| == |copies|
    && (forall s :: 0 <= s < |hosts| ==> 0 <= copies[s] && copies[s] + |hosts[s]| <= size)
    && (forall s, c :: 0 <= s < |hosts| && 0 <= c < |hosts[s]| ==> 0 <= hosts[s][c] < size)
    && (forall s, c, t, e :: 0 <= s < |hosts| && 0 <= c < |hosts[s]| && 0 <= t < |hosts| && 0 <= e < |hosts[t]| ==>
          (hosts[s][c] == hosts[t][e] ==> s == t && c == e))
    && (forall s, t, x :: InBlock(hosts, copies, s, x) && InBlock(hosts, copies, t, x) ==> s == t)
    && (forall s, c :: 0 <= s < |hosts| && 0 <= c < |hosts[s]| ==> !InAnyBlock(hosts, copies, hosts[s][c]))
  }

  // Memory `m'` holds in the copies what `m` holds in place, and agrees with
  // `m` on every byte that has no copy.
  ghost predicate Mirror(hosts: seq<seq<int>>, copies: seq<int>, m: seq<Byte>, m': seq<Byte>)
    requires |hosts| == |copies|
  {
    && |m| == |m'|
    && (forall s, c, x, y :: Cell(hosts, copies, s, c, x, y) && 0 <= x < |m| && 0 <= y < |m| ==> m'[y] == m[x])
    && (forall x :: 0 <= x < |m| && !IsHost(hosts, x) && !InAnyBlock(hosts, copies, x) ==> m'[x] == m[x])
  }

  // Each descriptor of `ds'` reaches, in the copies, the element that the same
  // descriptor of `ds` reaches in place.
  ghost predicate Redirects(hosts: seq<seq<int>>, copies: seq<int>, ds: seq<Desc>, ds': seq<Desc>, bs: seq<int>)
    requires |hosts| == |copies|
  {
    && Shaped(ds, bs) && Shaped(ds', bs)
    && (forall v :: 0 <= v < |ds| ==> ds'[v].sizes == ds[v].sizes)
    && (forall v: nat, i, k: nat :: Reaches(ds, bs, v, i, k) ==>
          exists s, c :: Cell(hosts, copies, s, c, ElementByte(ds[v], bs[v], i, k), ElementByte(ds'[v], bs[v], i, k)))
  }

  lemma CellInMemory(hosts: seq<seq<int>>, copies: seq<int>, size: nat, s: int, c: int, x: int, y: int)
    requires Faithful(hosts, copies, size) && Cell(hosts, copies, s, c, x, y)
    ensures 0 <= x < size && 0 <= y < size
    ensures InBlock(hosts, copies, s, y) && !InAnyBlock(hosts, copies, x) && IsHost(hosts, x)
  {
    assert !InAnyBlock(hosts, copies, hosts[s][c]);
  }

  // Writing a byte in place and its byte in the copy keeps the mirror.
  lemma StoreMirror(hosts: seq<seq<int>>, copies: seq<int>, m: seq<Byte>, m': seq<Byte>, s: int, c: int, x: int, y: int,
                    b: Byte)
    requires Faithful(hosts, copies, |m|) && Mirror(hosts, copies, m, m') && Cell(hosts, copies, s, c, x, y)
    requires 0 <= x < |m| && 0 <= y < |m|
    ensures Mirror(hosts, copies, m[x := b], m'[y := b])
  {
    CellInMemory(hosts, copies, |m|, s, c, x, y);
    forall t, e, u, w | Cell(hosts, copies, t, e, u, w) && 0 <= u < |m| && 0 <= w < |m|
      ensures m'[y := b][w] == m[x := b][u]
    {
      CellsDiffer(hosts, copies, |m|, s, c, x, y, t, e, u, w);
    }
    forall u | 0 <= u < |m| && !IsHost(hosts, u) && !InAnyBlock(hosts, copies, u)
      ensures m'[y := b][u] == m[x := b][u]
    {
      assert u != x;
      assert InAnyBlock(hosts, copies, y);
    }
  }

  lemma CellsDiffer(hosts: seq<seq<int>>, copies: seq<int>, size: nat, s: int, c: int, x: int, y: int, t: int, e: int,
                    u: int, w: int)
    requires Faithful(hosts, copies, size) && Cell(hosts, copies, s, c, x, y) && Cell(hosts, copies, t, e, u, w)
    ensures x == u <==> y == w
  {
    assert InBlock(hosts, copies, s, y) && InBlock(hosts, copies, t, w);
    if y == w {
      assert s == t;
    }
    if x == u {
      assert hosts[s][c] == hosts[t][e];
    }
  }

  // The redirected descriptors reach the same elements, each in memory in both places, with
  // the same byte.
  lemma ReachedCell(ds: seq<Desc>, ds': seq<Desc>, bs: seq<int>, hosts: seq<seq<int>>, copies: seq<int>, m: seq<Byte>,
                    m': seq<Byte>, v: nat, i: seq<int>, k: nat)
    returns (s: int, c: int)
    requires Faithful(hosts, copies, |m|) && Mirror(hosts, copies, m, m') && Redirects(hosts, copies, ds, ds', bs)
    requires Reaches(ds, bs, v, i, k)
    ensures Reaches(ds', bs, v, i, k) && v < |ds| && v < |ds'| && |i| == |ds[v].strides| == |ds'[v].strides|
    ensures var x, y := ElementByte(ds[v], bs[v], i, k), ElementByte(ds'[v], bs[v], i, k);
            Cell(hosts, copies, s, c, x, y) && 0 <= x < |m| && 0 <= y < |m'| && |m'| == |m| && m'[y] == m[x]
  {
    var x, y := ElementByte(ds[v], bs[v], i, k), ElementByte(ds'[v], bs[v], i, k);
    s, c :| Cell(hosts, copies, s, c, x, y);
    CellInMemory(hosts, copies, |m|, s, c, x, y);
  }

  lemma SameCell(ds: seq<Desc>, ds': seq<Desc>, bs: seq<int>, hosts: seq<seq<int>>, copies: seq<int>, v: nat,
                 i: seq<int>, k: nat)
    requires |hosts| == |copies| && Redirects(hosts, copies, ds, ds', bs)
    ensures Shaped(ds, bs) && Shaped(ds', bs) && (Reaches(ds', bs, v, i, k) <==> Reaches(ds, bs, v, i, k))
  {}

  lemma FaithfulSizes(hosts: seq<seq<int>>, copies: seq<int>, m: seq<Byte>)
    requires Faithful(hosts, copies, |m|)
    ensures |hosts| == |copies|
  {}

  // Running on the copies does what running in place does, step by step: the
  // same bytes are seen, and memory stays mirrored.
  lemma {:induction false} RunMirrors(kernel: Kernel, ds: seq<Desc>, ds': seq<Desc>, bs: seq<int>, hosts: seq<seq<int>>,
                                      copies: seq<int>, m: seq<Byte>, m': seq<Byte>, seen: seq<Byte>, n: nat)
    requires Faithful(hosts, copies, |m|) && Mirror(hosts, copies, m, m') && Redirects(hosts, copies, ds, ds', bs)
    ensures var r, r' := Run(kernel, ds, bs, m, seen, n), Run(kernel, ds', bs, m', seen, n);
            r'.seen == r.seen && |r.memory| == |m| && Mirror(hosts, copies, r.memory, r'.memory)
    decreases n
  {
    hide Faithful, Mirror, Redirects, Reaches, ElementByte, Cell;
    FaithfulSizes(hosts, copies, m);
    if n > 0 {
      match kernel(seen)
      case Halt =>
      case Load(v, i, k) =>
        SameCell(ds, ds', bs, hosts, copies, v, i, k);
        if Reaches(ds, bs, v, i, k) {
          var s, c := ReachedCell(ds, ds', bs, hosts, copies, m, m', v, i, k);
          var x := ElementByte(ds[v], bs[v], i, k);
          RunMirrors(kernel, ds, ds', bs, hosts, copies, m, m', seen + [m[x]], n - 1);
        }
      case Store(v, i, k, value) =>
        SameCell(ds, ds', bs, hosts, copies, v, i, k);
        if Reaches(ds, bs, v, i, k) {
          var s, c := ReachedCell(ds, ds', bs, hosts, copies, m, m', v, i, k);
          var x, y := ElementByte(ds[v], bs[v], i, k), ElementByte(ds'[v], bs[v], i, k);
          StoreMirror(hosts, copies, m, m', s, c, x, y, value);
          RunMirrors(kernel, ds, ds', bs, hosts, copies, m[x := value], m'[y := value], seen + [value], n - 1);
        }
    }
  }
}
