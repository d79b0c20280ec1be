// vx_view_copy_plan: measure the views of a call, join those that share memory
// into spans, and give a span with one strided view a dense copy.
module Plan {
  import opened Strided
  import opened Abi
  import opened Packing
  import opened Overlap

  // A memref descriptor. Pointers are addresses.
  datatype Desc = Desc(alloc: int, aligned: int, offset: int, sizes: seq<int>, strides: seq<int>)

  // One view of a call. `desc` is the index of its descriptor in the descriptor store.
  datatype View = View(
    desc: nat, elem: int,
    start: int, bytes: int, span: int, at: int, packed: bool, sizes: seq<int>, strides: seq<int>,
    alloc: int, aligned: int, offset: int)

  datatype CopySpan = CopySpan(start: int, bytes: int, copy: int, view: int)

  datatype Outcome =
    | Ready(spans: nat)
    | Refused(bad: nat)                  // a negative offset, or past the address space
    | Stopped(broken: nat, why: Span)    // vx_memref_view_bytes aborts

  predicate GoodDescs(descs: seq<Desc>) {
    forall d :: 0 <= d < |descs| ==> |descs[d].sizes| == |descs[d].strides| && descs[d].aligned >= 0
  }

  predicate NamesDescs(vs: seq<View>, descs: seq<Desc>) {
    forall i :: 0 <= i < |vs| ==> vs[i].desc < |descs|
  }

  // The address and the bytes of the view `v` of descriptor `d`.
  ghost predicate Measured(v: View, d: Desc)
    requires |d.sizes| == |d.strides|
  {
    && IsSpanOf(d.sizes, d.strides, v.elem, SpanBytes(v.bytes))
    && (v.bytes == 0 ==> v.start == 0)
    && (v.bytes != 0 ==> d.offset >= 0 && v.start == d.aligned + d.offset * DtypeBytes(v.elem)
                         && v.start + v.bytes < TWO_64)
  }

  // The plan refuses the view: not empty, and not inside the address space.
  ghost predicate OutsideAddresses(d: Desc, elem: int)
    requires |d.sizes| == |d.strides|
  {
    exists bytes :: bytes != 0 && IsSpanOf(d.sizes, d.strides, elem, SpanBytes(bytes))
                    && (d.offset < 0 || d.aligned + d.offset * DtypeBytes(elem) + bytes >= TWO_64)
  }

  // The body of the first loop.
  method MeasureView(v: View, i: nat, d: Desc) returns (v': View, r: Outcome)
    requires |d.sizes| == |d.strides|
    ensures v'.desc == v.desc && v'.elem == v.elem
    ensures r.Ready? ==> Measured(v', d) && v'.at == 0 && v'.span == if v'.bytes == 0 then -1 else i
    ensures r.Refused? ==> r.bad == i && OutsideAddresses(d, v.elem)
    ensures r.Stopped? ==> r.broken == i && !r.why.SpanBytes? && IsSpanOf(d.sizes, d.strides, v.elem, r.why)
  {
    var span := ViewSpan(d.sizes, d.strides, v.elem);
    if !span.SpanBytes? {
      return v, Stopped(i, span);
    }
    v' := v.(bytes := span.bytes, span := -1, start := 0, at := 0);
    if span.bytes == 0 {
      return v', Ready(0);
    }
    // Each sum and product of the source overflows exactly when this does.
    var first := d.aligned + d.offset * DtypeBytes(v.elem);
    if d.offset < 0 || first + span.bytes >= TWO_64 {
      return v', Refused(i);
    }
    return v'.(start := first, span := i), Ready(0);
  }

  ghost predicate MeasuredUpTo(vs: seq<View>, descs: seq<Desc>, n: nat)
    requires GoodDescs(descs) && NamesDescs(vs, descs) && n <= |vs|
  {
    forall i :: 0 <= i < n ==>
      Measured(vs[i], descs[vs[i].desc]) && vs[i].at == 0 && vs[i].span == if vs[i].bytes == 0 then -1 else i
  }

  // The caller's fields stay.
  ghost predicate SameInputs(vs: seq<View>, vs': seq<View>) {
    |vs| == |vs'| && forall i :: 0 <= i < |vs| ==> vs'[i].desc == vs[i].desc && vs'[i].elem == vs[i].elem
  }

  // Why the plan stops at view `i` when it does not come to an end.
  ghost predicate StopsAt(r: Outcome, vs: seq<View>, descs: seq<Desc>, i: nat)
    requires GoodDescs(descs) && NamesDescs(vs, descs) && i < |vs|
  {
    var d := descs[vs[i].desc];
    match r
    case Ready(_) => false
    case Refused(bad) => bad == i && OutsideAddresses(d, vs[i].elem)
    case Stopped(broken, why) => broken == i && !why.SpanBytes? && IsSpanOf(d.sizes, d.strides, vs[i].elem, why)
  }

  // The first loop: it stops at the first view that cannot be measured.
  method MeasureAll(views: array<View>, descs: seq<Desc>) returns (r: Outcome)
    requires GoodDescs(descs) && NamesDescs(views[..], descs)
    modifies views
    ensures SameInputs(old(views[..]), views[..]) && NamesDescs(views[..], descs)
    ensures r.Ready? ==> MeasuredUpTo(views[..], descs, views.Length)
    ensures !r.Ready? ==>
              exists i :: 0 <= i < views.Length && MeasuredUpTo(views[..], descs, i) && StopsAt(r, views[..], descs, i)
  {
    var i := 0;
    while i < views.Length
      invariant 0 <= i <= views.Length
      invariant SameInputs(old(views[..]), views[..]) && NamesDescs(views[..], descs)
      invariant MeasuredUpTo(views[..], descs, i)
    {
      var v, out := MeasureView(views[i], i, descs[views[i].desc]);
      views[i] := v;
      if !out.Ready? {
        assert MeasuredUpTo(views[..], descs, i) && StopsAt(out, views[..], descs, i);
        return out;
      }
      i := i + 1;
    }
    r := Ready(0);
  }

  // ---- Joining ----

  function Links(vs: seq<View>): (r: seq<int>)
    ensures |r| == |vs|
  {
    seq(|vs|, i requires 0 <= i < |vs| => vs[i].span)
  }

  function Extents(vs: seq<View>): (r: seq<Extent>)
    ensures |r| == |vs|
  {
    seq(|vs|, i requires 0 <= i < |vs| => Extent(vs[i].start, vs[i].bytes))
  }

  // vx_view_copy_root.
  method RootOf(views: array<View>, i: nat) returns (r: nat)
    requires i < views.Length && WellLinked(Links(views[..])) && views[i].span >= 0
    ensures r == Root(Links(views[..]), i)
  {
    r := i;
    ghost var links := Links(views[..]);
    while views[r].span != r
      invariant r < views.Length && links[r] >= 0 && Root(links, r) == Root(links, i)
      decreases r
    {
      r := views[r].span;
    }
  }

  method SetSpan(views: array<View>, b: nat, a: int)
    requires b < views.Length
    modifies views
    ensures views[..] == old(views[..])[b := old(views[b]).(span := a)]
    ensures Links(views[..]) == Links(old(views[..]))[b := a]
    ensures Extents(views[..]) == Extents(old(views[..]))
    ensures SpansMoved(old(views[..]), views[..])
  {
    views[b] := views[b].(span := a);
  }

  // Only the `span` fields differ.
  ghost predicate SpansMoved(vs: seq<View>, vs': seq<View>) {
    |vs'| == |vs| && forall i :: 0 <= i < |vs| ==> vs'[i] == vs[i].(span := vs'[i].span)
  }

  // Link the root of the larger index below the other.
  method Unite(views: array<View>, ghost i: nat, ghost j: nat, a: nat, b: nat)
    requires b < views.Length
    requires LinksFor(Links(views[..]), Extents(views[..]))
    requires Progress(Links(views[..]), Extents(views[..]), i, j)
    requires Joins(Links(views[..]), Extents(views[..]), i, j, a, b)
    modifies views
    ensures SpansMoved(old(views[..]), views[..]) && Extents(views[..]) == Extents(old(views[..]))
    ensures Progress(Links(views[..]), Extents(views[..]), i, j + 1)
  {
    hide *;
    UnionStep(Links(views[..]), Extents(views[..]), i, j, a, b);
    SetSpan(views, b, a);
  }

  // The body of the join loops for two views that overlap.
  method JoinOverlap(views: array<View>, i: nat, j: nat)
    requires j < i < views.Length && Progress(Links(views[..]), Extents(views[..]), i, j)
    requires views[i].span >= 0 && views[j].span >= 0 && Overlaps(Extents(views[..])[i], Extents(views[..])[j])
    modifies views
    ensures SpansMoved(old(views[..]), views[..]) && Extents(views[..]) == Extents(old(views[..]))
    ensures Progress(Links(views[..]), Extents(views[..]), i, j + 1)
  {
    var a := RootOf(views, i);
    var b := RootOf(views, j);
    if a < b {
      Unite(views, i, j, a, b);
    } else if b < a {
      Unite(views, i, j, b, a);
    } else {
      SkipStep(Links(views[..]), Extents(views[..]), i, j);
    }
  }

  // The body of the join loops: compare views i and j.
  method JoinPair(views: array<View>, i: nat, j: nat)
    requires j < i < views.Length && Progress(Links(views[..]), Extents(views[..]), i, j)
    modifies views
    ensures SpansMoved(old(views[..]), views[..]) && Extents(views[..]) == Extents(old(views[..]))
    ensures Progress(Links(views[..]), Extents(views[..]), i, j + 1)
  {
    if views[i].span < 0 || views[j].span < 0 ||
       views[i].start >= views[j].start + views[j].bytes ||
       views[j].start >= views[i].start + views[i].bytes
    {
      SkipStep(Links(views[..]), Extents(views[..]), i, j);
    } else {
      JoinOverlap(views, i, j);
    }
  }

  // The join loops.
  method JoinAll(views: array<View>)
    requires Progress(Links(views[..]), Extents(views[..]), 0, 0)
    modifies views
    ensures SpansMoved(old(views[..]), views[..]) && Extents(views[..]) == Extents(old(views[..]))
    ensures Progress(Links(views[..]), Extents(views[..]), views.Length, 0)
  {
    hide Progress, SpansMoved, Links, Extents;
    ghost var vs0 := views[..];
    NoneMoved(vs0);
    var i := 0;
    while i < views.Length
      invariant 0 <= i <= views.Length
      invariant SpansMoved(vs0, views[..]) && Extents(views[..]) == Extents(vs0)
      invariant Progress(Links(views[..]), Extents(views[..]), i, 0)
    {
      var j := 0;
      while j < i
        invariant 0 <= j <= i
        invariant SpansMoved(vs0, views[..]) && Extents(views[..]) == Extents(vs0)
        invariant Progress(Links(views[..]), Extents(views[..]), i, j)
      {
        ghost var vs := views[..];
        JoinPair(views, i, j);
        MovedTwice(vs0, vs, views[..]);
        j := j + 1;
      }
      RowEnd(Links(views[..]), Extents(views[..]), i, j);
      i := i + 1;
    }
  }

  lemma NoneMoved(vs: seq<View>)
    ensures SpansMoved(vs, vs)
  {}

  lemma FreshLinks(vs: seq<View>)
    requires forall i :: 0 <= i < |vs| ==> vs[i].bytes >= 0 && vs[i].span == if vs[i].bytes == 0 then -1 else i
    ensures Progress(Links(vs), Extents(vs), 0, 0)
  {
    var links, ex := Links(vs), Extents(vs);
    forall i | 0 <= i < |links| && links[i] >= 0
      ensures Connected(ex, i, Root(links, i))
    {
      ConnectedSelf(ex, i);
    }
  }

  // ---- Spans ----

  // The root of each view, -1 for an empty view.
  ghost predicate IsRoots(rt: seq<int>, links: seq<int>)
    requires WellLinked(links)
  {
    |rt| == |links| && forall i :: 0 <= i < |links| ==> rt[i] == if links[i] < 0 then -1 else Root(links, i)
  }

  // A root is its own root, and comes no later than the views of its group.
  ghost predicate RootsFirst(rt: seq<int>) {
    forall i :: 0 <= i < |rt| && rt[i] >= 0 ==> rt[i] <= i && rt[rt[i]] == rt[i]
  }

  lemma RootsAreFirst(rt: seq<int>, links: seq<int>)
    requires WellLinked(links) && IsRoots(rt, links)
    ensures RootsFirst(rt)
  {
    forall i | 0 <= i < |rt| && rt[i] >= 0
      ensures rt[i] <= i && rt[rt[i]] == rt[i]
    {
      RootOfRoot(links, i);
    }
  }

  function AtFields(vs: seq<View>): (r: seq<int>)
    ensures |r| == |vs|
  {
    seq(|vs|, i requires 0 <= i < |vs| => if vs[i].bytes == 0 then -1 else vs[i].at)
  }

  // `at` holds the root of each view until the last loop.
  method KeepRoots(views: array<View>)
    requires LinksFor(Links(views[..]), Extents(views[..]))
    requires forall i :: 0 <= i < views.Length ==> views[i].bytes >= 0
    modifies views
    ensures forall i :: 0 <= i < views.Length ==> views[i] == old(views[i]).(at := views[i].at)
    ensures WellLinked(old(Links(views[..]))) && IsRoots(AtFields(views[..]), old(Links(views[..])))
  {
    ghost var links := Links(views[..]);
    var i := 0;
    while i < views.Length
      invariant 0 <= i <= views.Length
      invariant Links(views[..]) == links
      invariant forall k :: 0 <= k < views.Length ==> views[k] == old(views[k]).(at := views[k].at)
      invariant forall k :: 0 <= k < i && links[k] >= 0 ==> views[k].at == Root(links, k)
    {
      if views[i].span >= 0 {
        var r := RootOf(views, i);
        views[i] := views[i].(at := r);
        assert Links(views[..]) == links;
      }
      i := i + 1;
    }
    assert forall k :: 0 <= k < |links| ==> (links[k] >= 0 <==> Extents(old(views[..]))[k].bytes > 0);
  }

  // The number of roots before view `i`, which is the span of the root `i`.
  function RootsBefore(rt: seq<int>, i: nat): nat
    requires i <= |rt|
  {
    if i == 0 then 0 else RootsBefore(rt, i - 1) + if rt[i - 1] == i - 1 then 1 else 0
  }

  lemma {:induction false} RootsBeforeMonotone(rt: seq<int>, i: nat, j: nat)
    requires i <= j <= |rt|
    ensures RootsBefore(rt, i) <= RootsBefore(rt, j)
    ensures i < j && rt[i] == i ==> RootsBefore(rt, i) < RootsBefore(rt, j)
    decreases j
  {
    if i < j {
      RootsBeforeMonotone(rt, i, j - 1);
    }
  }

  lemma RootSpansDiffer(rt: seq<int>, i: nat, j: nat)
    requires i < |rt| && j < |rt| && rt[i] == i && rt[j] == j
    ensures RootsBefore(rt, i) == RootsBefore(rt, j) <==> i == j
  {
    if i < j {
      RootsBeforeMonotone(rt, i, j);
    } else {
      RootsBeforeMonotone(rt, j, i);
    }
  }

  function SpanEnd(s: CopySpan): int {
    s.start + s.bytes
  }

  function ViewEnd(v: View): int {
    v.start + v.bytes
  }

  // The first `n` views have their spans: the span of a view is that of its root.
  ghost predicate Numbered(vs: seq<View>, rt: seq<int>, n: nat)
    requires |rt| == |vs| && n <= |vs| && RootsFirst(rt)
  {
    forall i :: 0 <= i < n ==> vs[i].span == if rt[i] < 0 then -1 else RootsBefore(rt, rt[i])
  }

  // Every one of the first `n` views lies inside its span.
  ghost predicate Inside(vs: seq<View>, sp: seq<CopySpan>, n: nat)
    requires n <= |vs|
  {
    forall i :: 0 <= i < n && vs[i].span >= 0 ==>
      vs[i].span < |sp| && sp[vs[i].span].start <= vs[i].start && ViewEnd(vs[i]) <= SpanEnd(sp[vs[i].span])
  }

  ghost predicate StartsSpan(vs: seq<View>, sp: seq<CopySpan>, n: nat, s: nat, i: nat)
    requires n <= |vs|
  {
    s < |sp| && i < n && vs[i].span == s && vs[i].start == sp[s].start
  }

  ghost predicate EndsSpan(vs: seq<View>, sp: seq<CopySpan>, n: nat, s: nat, i: nat)
    requires n <= |vs|
  {
    s < |sp| && i < n && vs[i].span == s && ViewEnd(vs[i]) == SpanEnd(sp[s])
  }

  ghost predicate HasStart(vs: seq<View>, sp: seq<CopySpan>, n: nat, s: nat)
    requires n <= |vs|
  {
    exists i: nat :: StartsSpan(vs, sp, n, s, i)
  }

  ghost predicate HasEnd(vs: seq<View>, sp: seq<CopySpan>, n: nat, s: nat)
    requires n <= |vs|
  {
    exists i: nat :: EndsSpan(vs, sp, n, s, i)
  }

  // Every span starts where one of its views starts, and ends where one ends.
  ghost predicate Tight(vs: seq<View>, sp: seq<CopySpan>, n: nat)
    requires n <= |vs|
  {
    forall s :: 0 <= s < |sp| ==> HasStart(vs, sp, n, s) && HasEnd(vs, sp, n, s)
  }

  ghost predicate Spanned(vs: seq<View>, sp: seq<CopySpan>, rt: seq<int>, n: nat) {
    && |rt| == |vs| && n <= |vs| && RootsFirst(rt)
    && |sp| == RootsBefore(rt, n)
    && Numbered(vs, rt, n) && Inside(vs, sp, n) && Tight(vs, sp, n)
  }

  // The span after view `v` joins it.
  function Grow(s: CopySpan, v: View): (r: CopySpan)
    ensures r.start <= s.start && r.start <= v.start && SpanEnd(r) >= SpanEnd(s) && SpanEnd(r) >= ViewEnd(v)
    ensures r.start == s.start || r.start == v.start
    ensures SpanEnd(r) == SpanEnd(s) || SpanEnd(r) == ViewEnd(v)
  {
    var end := if ViewEnd(v) > SpanEnd(s) then ViewEnd(v) else SpanEnd(s);
    var start := if v.start < s.start then v.start else s.start;
    s.(start := start, bytes := end - start)
  }

  lemma EmptyStep(vs: seq<View>, sp: seq<CopySpan>, rt: seq<int>, n: nat)
    requires Spanned(vs, sp, rt, n) && n < |vs| && rt[n] < 0 && vs[n].span == -1
    ensures Spanned(vs, sp, rt, n + 1)
  {
    var m := n + 1;
    forall s | 0 <= s < |sp|
      ensures HasStart(vs, sp, m, s) && HasEnd(vs, sp, m, s)
    {
      assert HasStart(vs, sp, n, s) && HasEnd(vs, sp, n, s);
      var i: nat :| StartsSpan(vs, sp, n, s, i);
      assert StartsSpan(vs, sp, n + 1, s, i);
      var j: nat :| EndsSpan(vs, sp, n, s, j);
      assert EndsSpan(vs, sp, n + 1, s, j);
    }
  }

  // A root opens a span of its own.
  lemma RootStep(vs: seq<View>, sp: seq<CopySpan>, rt: seq<int>, n: nat, vs': seq<View>, t: CopySpan)
    requires Spanned(vs, sp, rt, n) && n < |vs| && rt[n] == n
    requires vs' == vs[n := vs[n].(span := |sp|)] && t.start == vs[n].start && t.bytes == vs[n].bytes
    ensures Spanned(vs', sp + [t], rt, n + 1)
  {
    var sp' := sp + [t];
    var m := n + 1;
    forall s | 0 <= s < |sp'|
      ensures HasStart(vs', sp', m, s) && HasEnd(vs', sp', m, s)
    {
      if s == |sp| {
        assert StartsSpan(vs', sp', n + 1, s, n) && EndsSpan(vs', sp', n + 1, s, n);
      } else {
        assert HasStart(vs, sp, n, s) && HasEnd(vs, sp, n, s);
        var i: nat :| StartsSpan(vs, sp, n, s, i);
        assert StartsSpan(vs', sp', n + 1, s, i);
        var j: nat :| EndsSpan(vs, sp, n, s, j);
        assert EndsSpan(vs', sp', n + 1, s, j);
      }
    }
  }

  // Another view joins the span of its root, which may grow.
  ghost predicate Grown(vs: seq<View>, sp: seq<CopySpan>, n: nat, k: nat, vs': seq<View>, sp': seq<CopySpan>) {
    && n < |vs| && k < |sp|
    && vs' == vs[n := vs[n].(span := k)] && sp' == sp[k := Grow(sp[k], vs[n])]
  }

  lemma GrowInside(vs: seq<View>, sp: seq<CopySpan>, n: nat, k: nat, vs': seq<View>, sp': seq<CopySpan>)
    requires Grown(vs, sp, n, k, vs', sp') && Inside(vs, sp, n)
    ensures Inside(vs', sp', n + 1)
  {}

  lemma GrowTight(vs: seq<View>, sp: seq<CopySpan>, n: nat, k: nat, vs': seq<View>, sp': seq<CopySpan>, s: nat)
    requires Grown(vs, sp, n, k, vs', sp') && Tight(vs, sp, n) && s < |sp|
    ensures HasStart(vs', sp', n + 1, s) && HasEnd(vs', sp', n + 1, s)
  {
    assert HasStart(vs, sp, n, s) && HasEnd(vs, sp, n, s);
    var i: nat :| StartsSpan(vs, sp, n, s, i);
    var j: nat :| EndsSpan(vs, sp, n, s, j);
    assert StartsSpan(vs', sp', n + 1, s, if s == k && sp'[k].start != sp[k].start then n else i);
    assert EndsSpan(vs', sp', n + 1, s, if s == k && SpanEnd(sp'[k]) != SpanEnd(sp[k]) then n else j);
  }

  lemma MemberStep(vs: seq<View>, sp: seq<CopySpan>, rt: seq<int>, n: nat, k: nat, vs': seq<View>, sp': seq<CopySpan>)
    requires Spanned(vs, sp, rt, n) && n < |vs| && 0 <= rt[n] < n && k == vs[rt[n]].span
    requires Grown(vs, sp, n, k, vs', sp')
    ensures Spanned(vs', sp', rt, n + 1)
  {
    hide HasStart, HasEnd, Grow;
    GrowInside(vs, sp, n, k, vs', sp');
    hide Inside;
    MemberNumbered(vs, sp, rt, n, k, vs');
    hide Numbered;
    var m := n + 1;
    forall s | 0 <= s < |sp'|
      ensures HasStart(vs', sp', m, s) && HasEnd(vs', sp', m, s)
    {
      GrowTight(vs, sp, n, k, vs', sp', s);
    }
  }

  lemma MemberNumbered(vs: seq<View>, sp: seq<CopySpan>, rt: seq<int>, n: nat, k: nat, vs': seq<View>)
    requires Spanned(vs, sp, rt, n) && n < |vs| && 0 <= rt[n] < n && k == vs[rt[n]].span
    requires vs' == vs[n := vs[n].(span := k)]
    ensures Numbered(vs', rt, n + 1) && RootsBefore(rt, n + 1) == |sp|
  {
    hide Inside, Tight;
  }

  // The body of the span loop, for view `n`.
  method SpanStep(views: array<View>, spans: array<CopySpan>, ns: nat, n: nat, ghost rt: seq<int>) returns (ns': nat)
    requires ns <= n < views.Length <= spans.Length
    requires Spanned(views[..], spans[..ns], rt, n) && rt[n] == AtFields(views[..])[n]
    requires views[n].bytes >= 0 && (rt[n] < 0 <==> views[n].bytes == 0) && (views[n].span < 0 <==> views[n].bytes == 0)
    requires (views[n].span < 0 ==> views[n].span == -1)
    modifies views, spans
    ensures ns' <= n + 1 && Spanned(views[..], spans[..ns'], rt, n + 1)
    ensures SpansMoved(old(views[..]), views[..])
    ensures views[n + 1..] == old(views[n + 1..])
  {
    ghost var vs, sp := views[..], spans[..ns];
    ns' := ns;
    if views[n].span < 0 {
      EmptyStep(vs, sp, rt, n);
    } else if views[n].at == n {
      spans[ns] := spans[ns].(start := views[n].start, bytes := views[n].bytes, copy := 0);
      views[n] := views[n].(span := ns);
      ns' := ns + 1;
      RootStep(vs, sp, rt, n, views[..], spans[ns]);
      assert spans[..ns'] == sp + [spans[ns]];
    } else {
      var k := views[views[n].at].span;
      assert Inside(vs, sp, n) && 0 <= k < ns;
      spans[k] := Grow(spans[k], views[n]);
      views[n] := views[n].(span := k);
      assert spans[..ns] == sp[k := Grow(sp[k], vs[n])];
      MemberStep(vs, sp, rt, n, k, views[..], spans[..ns]);
    }
  }

  // The state the span loop starts from.
  ghost predicate Rooted(vs: seq<View>, rt: seq<int>) {
    && |rt| == |vs| && RootsFirst(rt) && rt == AtFields(vs)
    && forall i :: 0 <= i < |vs| ==>
         && vs[i].bytes >= 0 && (rt[i] < 0 <==> vs[i].bytes == 0)
         && (vs[i].span < 0 <==> vs[i].bytes == 0) && (vs[i].span < 0 ==> vs[i].span == -1)
  }

  // The span loop.
  method SpanAll(views: array<View>, spans: array<CopySpan>, ghost rt: seq<int>) returns (ns: nat)
    requires views.Length <= spans.Length && Rooted(views[..], rt)
    modifies views, spans
    ensures ns <= views.Length && Spanned(views[..], spans[..ns], rt, views.Length)
    ensures SpansMoved(old(views[..]), views[..])
  {
    hide Spanned, SpansMoved, Rooted;
    ghost var vs0 := views[..];
    NoneSpanned(vs0, spans[..0], rt);
    ns := 0;
    var i := 0;
    while i < views.Length
      invariant 0 <= ns <= i <= views.Length
      invariant SpansMoved(vs0, views[..])
      invariant views[i..] == vs0[i..]
      invariant Spanned(views[..], spans[..ns], rt, i)
    {
      assert views[i] == vs0[i] by { assert views[i..][0] == vs0[i..][0]; }
      assert views[i + 1..] == views[i..][1..] && vs0[i + 1..] == vs0[i..][1..];
      RootedView(vs0, rt, i);
      ghost var vs1 := views[..];
      ns := SpanStep(views, spans, ns, i, rt);
      MovedTwice(vs0, vs1, views[..]);
      i := i + 1;
    }
  }

  lemma NoneSpanned(vs: seq<View>, sp: seq<CopySpan>, rt: seq<int>)
    requires Rooted(vs, rt) && sp == []
    ensures Spanned(vs, sp, rt, 0) && SpansMoved(vs, vs)
  {}

  lemma RootedView(vs: seq<View>, rt: seq<int>, i: nat)
    requires Rooted(vs, rt) && i < |vs|
    ensures |rt| == |vs| && rt[i] == AtFields(vs)[i] && vs[i].bytes >= 0 && (rt[i] < 0 <==> vs[i].bytes == 0)
    ensures (vs[i].span < 0 <==> vs[i].bytes == 0) && (vs[i].span < 0 ==> vs[i].span == -1)
  {}

  lemma MovedTwice(a: seq<View>, b: seq<View>, c: seq<View>)
    requires SpansMoved(a, b) && SpansMoved(b, c)
    ensures SpansMoved(a, c)
  {}

  // ---- Groups and hulls ----

  // Views share a span exactly when they share a root.
  lemma SameSpanIffRoot(vs: seq<View>, sp: seq<CopySpan>, rt: seq<int>, i: nat, j: nat)
    requires Spanned(vs, sp, rt, |vs|) && i < |vs| && j < |vs| && rt[i] >= 0 && rt[j] >= 0
    ensures vs[i].span == vs[j].span <==> rt[i] == rt[j]
  {
    RootSpansDiffer(rt, rt[i], rt[j]);
  }

  // Two views share a span exactly when a chain of overlaps links them.
  ghost predicate Grouped(vs: seq<View>) {
    forall i: nat, j: nat :: i < |vs| && j < |vs| && vs[i].bytes > 0 && vs[j].bytes > 0 ==>
      (vs[i].span == vs[j].span <==> Connected(Extents(vs), i, j))
  }

  // The bytes between the first and the last byte that views of span `s` reach.
  predicate InHull(h: CopySpan, x: int) {
    h.start <= x < SpanEnd(h)
  }

  // A byte of a hull is a byte of some view of the span.
  lemma HullCovered(vs: seq<View>, sp: seq<CopySpan>, s: nat, x: int) returns (k: nat)
    requires Grouped(vs) && Tight(vs, sp, |vs|) && s < |sp| && InHull(sp[s], x)
    requires forall i :: 0 <= i < |vs| ==> (vs[i].span >= 0 <==> vs[i].bytes > 0)
    ensures k < |vs| && vs[k].bytes > 0 && vs[k].span == s && vs[k].start <= x < ViewEnd(vs[k])
  {
    var n := |vs|;
    assert HasStart(vs, sp, n, s) && HasEnd(vs, sp, n, s);
    var i: nat :| StartsSpan(vs, sp, n, s, i);
    var j: nat :| EndsSpan(vs, sp, n, s, j);
    k := GroupCovers(Extents(vs), i, j, x);
  }

  // Different spans have no byte in common.
  lemma HullsDisjoint(vs: seq<View>, sp: seq<CopySpan>, s: nat, t: nat, x: int)
    requires Grouped(vs) && Tight(vs, sp, |vs|) && s < |sp| && t < |sp| && InHull(sp[s], x) && InHull(sp[t], x)
    requires forall i :: 0 <= i < |vs| ==> (vs[i].span >= 0 <==> vs[i].bytes > 0)
    ensures s == t
  {
    var k := HullCovered(vs, sp, s, x);
    var l := HullCovered(vs, sp, t, x);
    ConnectedStep(Extents(vs), k, l);
  }

  // ---- The last loops ----

  // The place of a view in its span, and no dense copy yet.
  function Finish(v: View, sp: seq<CopySpan>): View
    requires v.span < |sp|
  {
    v.(at := if v.span < 0 then 0 else v.start - sp[v.span].start, packed := false)
  }

  method FinishAll(views: array<View>, spans: array<CopySpan>, ns: nat)
    requires ns <= spans.Length && forall i :: 0 <= i < views.Length ==> views[i].span < ns
    modifies views
    ensures forall i :: 0 <= i < views.Length ==> views[i] == Finish(old(views[i]), spans[..ns])
  {
    var i := 0;
    while i < views.Length
      invariant 0 <= i <= views.Length
      invariant forall k :: 0 <= k < i ==> views[k] == Finish(old(views[k]), spans[..ns])
      invariant forall k :: i <= k < views.Length ==> views[k] == old(views[k])
    {
      var at := if views[i].span < 0 then 0 else views[i].start - spans[views[i].span].start;
      views[i] := views[i].(at := at, packed := false);
      i := i + 1;
    }
  }

  // View `w` has span `s` to itself.
  predicate Sole(vs: seq<View>, s: int, w: int) {
    0 <= w < |vs| && vs[w].span == s && forall i :: 0 <= i < |vs| && vs[i].span == s ==> i == w
  }

  method CountViews(views: array<View>, s: int) returns (one: bool, only: int)
    ensures one ==> Sole(views[..], s, only)
    ensures !one ==> forall w :: !Sole(views[..], s, w)
  {
    only := -1;
    var count, i := 0, 0;
    ghost var other := -1;
    while i < views.Length
      invariant 0 <= i <= views.Length
      invariant count == 0 ==> forall k :: 0 <= k < i ==> views[k].span != s
      invariant count >= 1 ==> 0 <= only < i && views[only].span == s
      invariant count == 1 ==> forall k :: 0 <= k < i && views[k].span == s ==> k == only
      invariant count >= 2 ==> 0 <= other < only && views[other].span == s
      invariant count >= 0
    {
      if views[i].span == s {
        other := only;
        only := i;
        count := count + 1;
      }
      i := i + 1;
    }
    one := count == 1;
    assert count == 0 ==> forall w :: !Sole(views[..], s, w);
    assert count >= 2 ==> views[..][other].span == s && views[..][only].span == s;
  }

  // The view that is alone in its span and that the source takes for a dense copy.
  ghost predicate TakesDense(vs: seq<View>, descs: seq<Desc>, s: int, w: int)
    requires GoodDescs(descs) && NamesDescs(vs, descs)
  {
    Sole(vs, s, w) &&
    var d := descs[vs[w].desc];
    TestPackable(d.sizes, d.strides, DtypeBytes(vs[w].elem), vs[w].bytes)
  }

  // The bytes of a dense copy, as the source counts them.
  function CountedBytes(d: Desc, elem: int): int {
    MulU64(WrappedProduct(d.sizes), DtypeBytes(elem))
  }

  // What is known of span `s` once the last loop has passed it. `hs` holds the
  // spans before that loop.
  ghost predicate SpanDone(vs: seq<View>, sp: seq<CopySpan>, hs: seq<CopySpan>, descs: seq<Desc>, s: nat)
    requires GoodDescs(descs) && NamesDescs(vs, descs) && s < |sp| && |hs| == |sp|
  {
    && sp[s].start == hs[s].start
    && (sp[s].view == -1 ==> sp[s].bytes == hs[s].bytes && forall w :: !TakesDense(vs, descs, s, w))
    && (sp[s].view != -1 ==> TakesDense(vs, descs, s, sp[s].view)
                             && sp[s].bytes == CountedBytes(descs[vs[sp[s].view].desc], vs[sp[s].view].elem))
  }

  // View `i` after the last loop has passed the first `k` spans.
  ghost predicate PackedRight(vs: seq<View>, sp: seq<CopySpan>, descs: seq<Desc>, k: nat, i: nat)
    requires NamesDescs(vs, descs) && k <= |sp| && i < |vs|
  {
    && (vs[i].packed <==> 0 <= vs[i].span < k && sp[vs[i].span].view == i)
    && (vs[i].packed ==> vs[i].sizes == descs[vs[i].desc].sizes && vs[i].strides == descs[vs[i].desc].strides)
  }

  ghost predicate SameButPacked(vs: seq<View>, vs': seq<View>) {
    |vs| == |vs'| && forall i :: 0 <= i < |vs| ==>
      vs'[i] == vs[i].(packed := vs'[i].packed, sizes := vs'[i].sizes, strides := vs'[i].strides)
  }

  ghost predicate DenseUpTo(vs0: seq<View>, vs: seq<View>, sp: seq<CopySpan>, hs: seq<CopySpan>, descs: seq<Desc>,
                            k: nat) {
    && GoodDescs(descs) && NamesDescs(vs, descs) && |hs| == |sp| && k <= |sp|
    && SameButPacked(vs0, vs)
    && (forall s :: 0 <= s < k ==> SpanDone(vs, sp, hs, descs, s))
    && (forall s :: k <= s < |sp| ==> sp[s] == hs[s])
    && (forall i :: 0 <= i < |vs| ==> PackedRight(vs, sp, descs, k, i))
  }

  // A view's own bytes are those of a view of at least one element.
  lemma MeasuredNotEmpty(v: View, d: Desc)
    requires |d.sizes| == |d.strides| && Measured(v, d) && v.bytes != 0
    ensures AllPositive(d.sizes) && AllNatural(d.strides) && DtypeBytes(v.elem) >= 1
    ensures v.bytes == (Last(d.sizes, d.strides) + 1) * DtypeBytes(v.elem) && v.bytes > 0
  {
    PositiveWithoutZero(d.sizes);
    LastNatural(d.sizes, d.strides);
    MulLe(1, Last(d.sizes, d.strides) + 1, DtypeBytes(v.elem));
  }

  lemma KeepStep(vs0: seq<View>, vs: seq<View>, sp: seq<CopySpan>, hs: seq<CopySpan>, descs: seq<Desc>, k: nat)
    requires DenseUpTo(vs0, vs, sp, hs, descs, k) && k < |sp| && forall w :: !TakesDense(vs, descs, k, w)
    ensures DenseUpTo(vs0, vs, sp[k := sp[k].(view := -1)], hs, descs, k + 1)
  {
    var sp' := sp[k := sp[k].(view := -1)];
    var m := k + 1;
    forall i | 0 <= i < |vs|
      ensures PackedRight(vs, sp', descs, m, i)
    {
      assert PackedRight(vs, sp, descs, k, i);
    }
    assert forall s :: 0 <= s < k ==> SpanDone(vs, sp, hs, descs, s) ==> SpanDone(vs, sp', hs, descs, s);
  }

  // The view of `vs` with the dense layout it keeps.
  function PackView(v: View, d: Desc): View {
    v.(packed := true, sizes := d.sizes, strides := d.strides)
  }

  lemma SoleAfter(vs: seq<View>, descs: seq<Desc>, w: nat, v: View, s: int, x: int)
    requires GoodDescs(descs) && NamesDescs(vs, descs) && w < |vs|
    requires v == vs[w].(packed := v.packed, sizes := v.sizes, strides := v.strides)
    ensures NamesDescs(vs[w := v], descs)
    ensures TakesDense(vs[w := v], descs, s, x) <==> TakesDense(vs, descs, s, x)
  {
    var vs' := vs[w := v];
    assert forall i :: 0 <= i < |vs| ==> vs'[i].span == vs[i].span;
    assert Sole(vs', s, x) <==> Sole(vs, s, x);
  }

  lemma DenseDone(vs: seq<View>, sp: seq<CopySpan>, hs: seq<CopySpan>, descs: seq<Desc>, w: nat, v: View,
                  sp': seq<CopySpan>, s: nat)
    requires GoodDescs(descs) && NamesDescs(vs, descs) && w < |vs| && |hs| == |sp| == |sp'| && s < |sp|
    requires v == vs[w].(packed := v.packed, sizes := v.sizes, strides := v.strides)
    requires sp'[s] == sp[s] && SpanDone(vs, sp, hs, descs, s)
    ensures NamesDescs(vs[w := v], descs) && SpanDone(vs[w := v], sp', hs, descs, s)
  {
    var vs' := vs[w := v];
    forall x ensures TakesDense(vs', descs, s, x) <==> TakesDense(vs, descs, s, x) {
      SoleAfter(vs, descs, w, v, s, x);
    }
    if sp[s].view != -1 {
      assert TakesDense(vs', descs, s, sp'[s].view);
    }
  }

  lemma DenseStep(vs0: seq<View>, vs: seq<View>, sp: seq<CopySpan>, hs: seq<CopySpan>, descs: seq<Desc>, k: nat, w: nat,
                  vs': seq<View>, sp': seq<CopySpan>)
    requires DenseUpTo(vs0, vs, sp, hs, descs, k) && k < |sp| && TakesDense(vs, descs, k, w)
    requires vs' == vs[w := PackView(vs[w], descs[vs[w].desc])]
    requires sp' == sp[k := sp[k].(view := w, bytes := CountedBytes(descs[vs[w].desc], vs[w].elem))]
    ensures DenseUpTo(vs0, vs', sp', hs, descs, k + 1)
  {
    forall s | 0 <= s < k + 1
      ensures SpanDone(vs', sp', hs, descs, s)
    {
      if s < k {
        DenseDone(vs, sp, hs, descs, w, vs'[w], sp', s);
      } else {
        SoleAfter(vs, descs, w, vs'[w], k, w);
      }
    }
    var m := k + 1;
    forall i | 0 <= i < |vs'|
      ensures PackedRight(vs', sp', descs, m, i)
    {
      assert PackedRight(vs, sp, descs, k, i);
    }
  }

  ghost predicate AllMeasured(vs: seq<View>, descs: seq<Desc>)
    requires GoodDescs(descs) && NamesDescs(vs, descs)
  {
    forall i :: 0 <= i < |vs| ==> Measured(vs[i], descs[vs[i].desc])
  }

  // Does the view that has a span to itself get a dense copy?
  method TryDense(v: View, d: Desc) returns (ok: bool, dense: int)
    requires |d.sizes| == |d.strides| && Measured(v, d) && v.bytes != 0
    ensures ok <==> TestPackable(d.sizes, d.strides, DtypeBytes(v.elem), v.bytes)
    ensures ok ==> dense == CountedBytes(d, v.elem)
  {
    MeasuredNotEmpty(v, d);
    ok, dense := Packable(d.sizes, d.strides, DtypeBytes(v.elem), v.bytes);
  }

  // The body of the last loop, for span `k`.
  method PackStep(views: array<View>, spans: array<CopySpan>, k: nat, ghost ns: nat, descs: seq<Desc>,
                  ghost vs0: seq<View>, ghost hs: seq<CopySpan>)
    requires k < ns <= spans.Length && DenseUpTo(vs0, views[..], spans[..ns], hs, descs, k)
    requires AllMeasured(views[..], descs)
    requires forall i :: 0 <= i < views.Length && views[i].span >= 0 ==> views[i].bytes != 0
    modifies views, spans
    ensures DenseUpTo(vs0, views[..], spans[..ns], hs, descs, k + 1)
    ensures SameButPacked(old(views[..]), views[..])
  {
    hide SpanDone, PackedRight, TestPackable, CountedBytes, Measured;
    ghost var vs, sp := views[..], spans[..ns];
    spans[k] := spans[k].(view := -1);
    assert spans[..ns] == sp[k := sp[k].(view := -1)] && views[..] == vs;
    var one, only := CountViews(views, k);
    var ok, dense := false, 0;
    if one {
      assert vs[only] == views[only] && Measured(vs[only], descs[vs[only].desc]);
      ok, dense := TryDense(views[only], descs[views[only].desc]);
      assert ok <==> TakesDense(vs, descs, k, only);
    }
    if ok {
      views[only] := PackView(views[only], descs[views[only].desc]);
      spans[k] := spans[k].(bytes := dense, view := only);
      assert spans[..ns] == sp[k := sp[k].(view := only, bytes := dense)];
      DenseStep(vs0, vs, sp, hs, descs, k, only, views[..], spans[..ns]);
    } else {
      NotDense(vs, descs, k, one, only);
      KeepStep(vs0, vs, sp, hs, descs, k);
    }
  }

  lemma NotDense(vs: seq<View>, descs: seq<Desc>, s: int, one: bool, only: int)
    requires GoodDescs(descs) && NamesDescs(vs, descs)
    requires one ==> Sole(vs, s, only) && !TakesDense(vs, descs, s, only)
    requires !one ==> forall w :: !Sole(vs, s, w)
    ensures forall w :: !TakesDense(vs, descs, s, w)
  {
    forall w ensures !TakesDense(vs, descs, s, w) {
      if one && Sole(vs, s, w) {
        assert w == only;
      }
    }
  }

  lemma MeasuredAfter(vs: seq<View>, vs': seq<View>, descs: seq<Desc>)
    requires GoodDescs(descs) && NamesDescs(vs, descs) && SameButPacked(vs, vs')
    requires AllMeasured(vs, descs)
    requires forall i :: 0 <= i < |vs| && vs[i].span >= 0 ==> vs[i].bytes != 0
    ensures NamesDescs(vs', descs) && AllMeasured(vs', descs)
    ensures forall i :: 0 <= i < |vs'| && vs'[i].span >= 0 ==> vs'[i].bytes != 0
  {
    forall i | 0 <= i < |vs'|
      ensures vs'[i].desc < |descs| && Measured(vs'[i], descs[vs'[i].desc])
    {
      assert vs[i].desc < |descs| && Measured(vs[i], descs[vs[i].desc]);
    }
  }

  // The last loop.
  method PackAll(views: array<View>, spans: array<CopySpan>, ns: nat, descs: seq<Desc>)
    requires ns <= spans.Length && GoodDescs(descs) && NamesDescs(views[..], descs)
    requires AllMeasured(views[..], descs)
    requires forall i :: 0 <= i < views.Length ==> !views[i].packed
    requires forall i :: 0 <= i < views.Length && views[i].span >= 0 ==> views[i].bytes != 0
    modifies views, spans
    ensures DenseUpTo(old(views[..]), views[..], spans[..ns], old(spans[..ns]), descs, ns)
  {
    ghost var vs0, hs := views[..], spans[..ns];
    var k := 0;
    while k < ns
      invariant 0 <= k <= ns
      invariant DenseUpTo(vs0, views[..], spans[..ns], hs, descs, k)
    {
      MeasuredAfter(vs0, views[..], descs);
      PackStep(views, spans, k, ns, descs, vs0, hs);
      k := k + 1;
    }
  }

  // ---- What a plan promises ----

  // The bytes from the first byte that a view of span `s` reaches to the last.
  // A dense copy needs fewer, but its span still covers them.
  function HullBytes(vs: seq<View>, sp: seq<CopySpan>, s: nat): int
    requires s < |sp| && sp[s].view < |vs|
  {
    if sp[s].view < 0 then sp[s].bytes else vs[sp[s].view].bytes
  }

  ghost predicate SpansName(vs: seq<View>, sp: seq<CopySpan>) {
    forall s :: 0 <= s < |sp| ==> sp[s].view < |vs|
  }

  // A view lies in its span at byte `at`. An empty view has no span.
  ghost predicate Seated(vs: seq<View>, sp: seq<CopySpan>, descs: seq<Desc>, i: nat)
    requires SpansName(vs, sp) && NamesDescs(vs, descs) && i < |vs|
  {
    var v := vs[i];
    && (v.bytes == 0 ==> v.span == -1 && v.at == 0 && !v.packed)
    && (v.bytes != 0 ==> && 0 <= v.span < |sp| && 0 <= v.at == v.start - sp[v.span].start
                         && v.at + v.bytes <= HullBytes(vs, sp, v.span)
                         && (v.packed <==> sp[v.span].view == i))
    && (v.packed ==> v.at == 0 && v.sizes == descs[v.desc].sizes && v.strides == descs[v.desc].strides)
  }

  // A span goes from the first byte of one of its views to the last byte of one.
  ghost predicate SpanTight(vs: seq<View>, sp: seq<CopySpan>, s: nat)
    requires SpansName(vs, sp) && s < |sp|
  {
    && (exists i: nat :: i < |vs| && vs[i].span == s && vs[i].start == sp[s].start)
    && (exists i: nat :: i < |vs| && vs[i].span == s && ViewEnd(vs[i]) == sp[s].start + HullBytes(vs, sp, s))
  }

  // A span has a dense copy exactly when the source takes its view for one.
  ghost predicate SpanTested(vs: seq<View>, sp: seq<CopySpan>, descs: seq<Desc>, s: nat)
    requires GoodDescs(descs) && NamesDescs(vs, descs) && s < |sp|
  {
    && (sp[s].view < 0 ==> forall w :: !TakesDense(vs, descs, s, w))
    && (sp[s].view >= 0 ==> TakesDense(vs, descs, s, sp[s].view)
                            && sp[s].bytes == CountedBytes(descs[vs[sp[s].view].desc], vs[sp[s].view].elem))
  }

  // The dense copy rule: the only view of its span, a nested layout of a rank
  // the runtime holds, and fewer bytes than its span.
  ghost predicate WantsDense(vs: seq<View>, descs: seq<Desc>, s: int, w: int)
    requires GoodDescs(descs) && NamesDescs(vs, descs)
  {
    Sole(vs, s, w) &&
    var d := descs[vs[w].desc];
    ShouldPack(d.sizes, d.strides, DtypeBytes(vs[w].elem), vs[w].bytes)
  }

  // A span has a dense copy exactly when the dense copy rule holds for it.
  ghost predicate SpanRight(vs: seq<View>, sp: seq<CopySpan>, descs: seq<Desc>, s: nat)
    requires GoodDescs(descs) && NamesDescs(vs, descs) && SpansName(vs, sp) && s < |sp|
  {
    && (sp[s].view < 0 ==> forall w :: !WantsDense(vs, descs, s, w))
    && (sp[s].view >= 0 ==> WantsDense(vs, descs, s, sp[s].view)
                            && sp[s].bytes ==
                               Product(descs[vs[sp[s].view].desc].sizes) * DtypeBytes(vs[sp[s].view].elem))
    && SpanTight(vs, sp, s)
  }

  // The spans of two groups have no byte in common.
  ghost predicate HullsApart(vs: seq<View>, sp: seq<CopySpan>)
    requires SpansName(vs, sp)
  {
    forall s, t :: 0 <= s < |sp| && 0 <= t < |sp| && s != t ==>
      sp[s].start + HullBytes(vs, sp, s) <= sp[t].start || sp[t].start + HullBytes(vs, sp, t) <= sp[s].start
  }

  // The views in their spans.
  ghost predicate Laid(vs: seq<View>, sp: seq<CopySpan>, descs: seq<Desc>) {
    && GoodDescs(descs) && NamesDescs(vs, descs) && SpansName(vs, sp)
    && AllMeasured(vs, descs)
    && (forall i :: 0 <= i < |vs| ==> Seated(vs, sp, descs, i))
    && Grouped(vs)
    && HullsApart(vs, sp)
  }

  // What the source's plan is.
  ghost predicate Planned(vs: seq<View>, sp: seq<CopySpan>, descs: seq<Desc>) {
    Laid(vs, sp, descs) && forall s :: 0 <= s < |sp| ==> SpanTight(vs, sp, s) && SpanTested(vs, sp, descs, s)
  }

  // What a plan should be.
  ghost predicate PlanOk(vs: seq<View>, sp: seq<CopySpan>, descs: seq<Desc>) {
    Laid(vs, sp, descs) && forall s :: 0 <= s < |sp| ==> SpanRight(vs, sp, descs, s)
  }

  // The views, spans and hulls as the last loop leaves them.
  ghost predicate Settled(vs: seq<View>, sp: seq<CopySpan>, hs: seq<CopySpan>, descs: seq<Desc>) {
    && GoodDescs(descs) && NamesDescs(vs, descs) && |hs| == |sp|
    && AllMeasured(vs, descs) && Grouped(vs)
    && Inside(vs, hs, |vs|) && Tight(vs, hs, |vs|)
    && (forall i :: 0 <= i < |vs| ==> (vs[i].span >= 0 <==> vs[i].bytes > 0) && vs[i].span >= -1 && vs[i].bytes >= 0)
    && (forall i :: 0 <= i < |vs| ==> vs[i].at == if vs[i].span < 0 then 0 else vs[i].start - hs[vs[i].span].start)
    && (forall s :: 0 <= s < |sp| ==> SpanDone(vs, sp, hs, descs, s))
    && (forall i :: 0 <= i < |vs| ==> PackedRight(vs, sp, descs, |sp|, i))
  }

  // The hull of a span with one view is that view.
  lemma SettledHull(vs: seq<View>, sp: seq<CopySpan>, hs: seq<CopySpan>, descs: seq<Desc>, s: nat)
    requires Settled(vs, sp, hs, descs) && s < |sp|
    ensures sp[s].view < |vs| && HullBytes(vs, sp, s) == hs[s].bytes && sp[s].start == hs[s].start
    ensures exists i: nat :: i < |vs| && vs[i].span == s && vs[i].start == sp[s].start
    ensures exists i: nat :: i < |vs| && vs[i].span == s && ViewEnd(vs[i]) == sp[s].start + HullBytes(vs, sp, s)
    ensures sp[s].view == -1 || sp[s].view >= 0
  {
    var n := |vs|;
    assert SpanDone(vs, sp, hs, descs, s);
    assert HasStart(vs, hs, n, s) && HasEnd(vs, hs, n, s);
    var i: nat :| StartsSpan(vs, hs, n, s, i);
    var j: nat :| EndsSpan(vs, hs, n, s, j);
    assert vs[i].start == sp[s].start && vs[i].span == s;
    if sp[s].view != -1 {
      assert Sole(vs, s, sp[s].view);
      assert i == sp[s].view && j == sp[s].view;
    }
    assert ViewEnd(vs[j]) == sp[s].start + HullBytes(vs, sp, s) && vs[j].span == s;
  }

  lemma SettledNames(vs: seq<View>, sp: seq<CopySpan>, hs: seq<CopySpan>, descs: seq<Desc>)
    requires Settled(vs, sp, hs, descs)
    ensures SpansName(vs, sp)
  {
    forall s | 0 <= s < |sp|
      ensures sp[s].view < |vs|
    {
      SettledHull(vs, sp, hs, descs, s);
    }
  }

  lemma SettledSeat(vs: seq<View>, sp: seq<CopySpan>, hs: seq<CopySpan>, descs: seq<Desc>, i: nat)
    requires Settled(vs, sp, hs, descs) && SpansName(vs, sp) && i < |vs|
    ensures Seated(vs, sp, descs, i)
  {
    assert PackedRight(vs, sp, descs, |sp|, i);
    if vs[i].bytes > 0 {
      var s := vs[i].span;
      SettledHull(vs, sp, hs, descs, s);
      if vs[i].packed {
        var j: nat :| j < |vs| && vs[j].span == s && vs[j].start == sp[s].start;
        assert SpanDone(vs, sp, hs, descs, s) && Sole(vs, s, i);
      }
    }
  }

  lemma SettledApart(vs: seq<View>, sp: seq<CopySpan>, hs: seq<CopySpan>, descs: seq<Desc>, s: nat, t: nat)
    requires Settled(vs, sp, hs, descs) && s < |sp| && t < |sp| && s != t
    ensures SpanEnd(hs[s]) <= hs[t].start || SpanEnd(hs[t]) <= hs[s].start
  {
    SettledHull(vs, sp, hs, descs, s);
    SettledHull(vs, sp, hs, descs, t);
    var i: nat :| i < |vs| && vs[i].span == s && vs[i].start == sp[s].start;
    var j: nat :| j < |vs| && vs[j].span == t && vs[j].start == sp[t].start;
    var x := if hs[s].start >= hs[t].start then hs[s].start else hs[t].start;
    if InHull(hs[s], x) && InHull(hs[t], x) {
      HullsDisjoint(vs, hs, s, t, x);
    }
  }

  lemma SettledIsPlanned(vs: seq<View>, sp: seq<CopySpan>, hs: seq<CopySpan>, descs: seq<Desc>)
    requires Settled(vs, sp, hs, descs)
    ensures Planned(vs, sp, descs)
  {
    SettledNames(vs, sp, hs, descs);
    forall i | 0 <= i < |vs|
      ensures Seated(vs, sp, descs, i)
    {
      SettledSeat(vs, sp, hs, descs, i);
    }
    forall s | 0 <= s < |sp|
      ensures SpanTight(vs, sp, s) && SpanTested(vs, sp, descs, s)
    {
      assert SpanDone(vs, sp, hs, descs, s);
      SettledHull(vs, sp, hs, descs, s);
    }
    forall s, t | 0 <= s < |sp| && 0 <= t < |sp| && s != t
      ensures sp[s].start + HullBytes(vs, sp, s) <= sp[t].start || sp[t].start + HullBytes(vs, sp, t) <= sp[s].start
    {
      SettledApart(vs, sp, hs, descs, s, t);
      SettledHull(vs, sp, hs, descs, s);
      SettledHull(vs, sp, hs, descs, t);
    }
  }

  // ---- The phases put together ----

  // The measured fields stay after the first loop.
  ghost predicate SameMeasure(vs: seq<View>, vs': seq<View>) {
    |vs| == |vs'| && forall i :: 0 <= i < |vs| ==>
      vs'[i].desc == vs[i].desc && vs'[i].elem == vs[i].elem && vs'[i].start == vs[i].start
      && vs'[i].bytes == vs[i].bytes
  }

  lemma MeasureKept(vs: seq<View>, vs': seq<View>, descs: seq<Desc>)
    requires GoodDescs(descs) && NamesDescs(vs, descs) && AllMeasured(vs, descs) && SameMeasure(vs, vs')
    ensures NamesDescs(vs', descs) && AllMeasured(vs', descs) && Extents(vs') == Extents(vs)
  {
    forall i | 0 <= i < |vs'|
      ensures vs'[i].desc < |descs| && Measured(vs'[i], descs[vs'[i].desc])
    {
      assert vs[i].desc < |descs| && Measured(vs[i], descs[vs[i].desc]);
    }
  }

  // When the view reaches any byte, no product of the dense copy test overflows.
  ghost predicate FitDesc(d: Desc, elem: int)
    requires |d.sizes| == |d.strides|
  {
    forall bytes :: bytes != 0 && IsSpanOf(d.sizes, d.strides, elem, SpanBytes(bytes)) ==>
      ProductsFit(d.sizes, d.strides)
  }

  ghost predicate FitCall(vs: seq<View>, descs: seq<Desc>)
    requires GoodDescs(descs) && NamesDescs(vs, descs)
  {
    forall i :: 0 <= i < |vs| ==> FitDesc(descs[vs[i].desc], vs[i].elem)
  }

  // As in every view of fewer than 2^63 bytes.
  ghost predicate SmallDesc(d: Desc, elem: int)
    requires |d.sizes| == |d.strides|
  {
    forall bytes :: IsSpanOf(d.sizes, d.strides, elem, SpanBytes(bytes)) ==> bytes < TWO_63
  }

  lemma SmallIsFit(d: Desc, elem: int)
    requires |d.sizes| == |d.strides| && SmallDesc(d, elem)
    ensures FitDesc(d, elem)
  {
    forall bytes | bytes != 0 && IsSpanOf(d.sizes, d.strides, elem, SpanBytes(bytes))
      ensures ProductsFit(d.sizes, d.strides)
    {
      PositiveWithoutZero(d.sizes);
      LastNatural(d.sizes, d.strides);
      MulLe(1, DtypeBytes(elem), Last(d.sizes, d.strides) + 1);
      ShortFits(d.sizes, d.strides);
    }
  }

  lemma MeasuredBytes(vs: seq<View>, descs: seq<Desc>, i: nat)
    requires GoodDescs(descs) && NamesDescs(vs, descs) && AllMeasured(vs, descs) && i < |vs|
    ensures 0 <= vs[i].bytes
  {
    if vs[i].bytes != 0 {
      MeasuredNotEmpty(vs[i], descs[vs[i].desc]);
    }
  }

  lemma MeasuredStart(vs: seq<View>, descs: seq<Desc>)
    requires GoodDescs(descs) && NamesDescs(vs, descs) && MeasuredUpTo(vs, descs, |vs|)
    ensures AllMeasured(vs, descs) && Progress(Links(vs), Extents(vs), 0, 0)
  {
    assert AllMeasured(vs, descs);
    forall i | 0 <= i < |vs| ensures 0 <= vs[i].bytes {
      MeasuredBytes(vs, descs, i);
    }
    FreshLinks(vs);
  }

  lemma RootedStart(vs: seq<View>, vs': seq<View>)
    requires LinksFor(Links(vs), Extents(vs)) && |vs'| == |vs|
    requires forall i :: 0 <= i < |vs| ==> vs'[i] == vs[i].(at := vs'[i].at) && vs[i].bytes >= 0 && vs[i].span >= -1
    requires IsRoots(AtFields(vs'), Links(vs))
    ensures Rooted(vs', AtFields(vs'))
  {
    var links, rt := Links(vs), AtFields(vs');
    RootsAreFirst(rt, links);
    forall i | 0 <= i < |vs|
      ensures (rt[i] < 0 <==> vs'[i].bytes == 0) && (vs'[i].span < 0 <==> vs'[i].bytes == 0)
    {
      assert links[i] >= 0 <==> Extents(vs)[i].bytes > 0;
    }
  }

  // Spans numbered by root group the views by chains of overlaps.
  lemma SpannedGroups(vs: seq<View>, vs': seq<View>, sp: seq<CopySpan>, rt: seq<int>)
    requires Progress(Links(vs), Extents(vs), |vs|, 0) && IsRoots(rt, Links(vs))
    requires Extents(vs') == Extents(vs) && Spanned(vs', sp, rt, |vs'|)
    ensures Grouped(vs')
  {
    var links, ex := Links(vs), Extents(vs);
    forall i: nat, j: nat | i < |vs'| && j < |vs'| && vs'[i].bytes > 0 && vs'[j].bytes > 0
      ensures vs'[i].span == vs'[j].span <==> Connected(Extents(vs'), i, j)
    {
      assert Extents(vs')[i].bytes > 0 && Extents(vs')[j].bytes > 0;
      assert links[i] >= 0 && links[j] >= 0;
      SameSpanIffRoot(vs', sp, rt, i, j);
      SameRootIffConnected(links, ex, i, j);
    }
  }

  // The views before the last loop: numbered, seated, and none packed.
  ghost predicate Finished(vs: seq<View>, hs: seq<CopySpan>) {
    && Inside(vs, hs, |vs|) && Tight(vs, hs, |vs|) && Grouped(vs)
    && (forall i :: 0 <= i < |vs| ==> (vs[i].span >= 0 <==> vs[i].bytes > 0) && vs[i].span >= -1 && vs[i].bytes >= 0)
    && (forall i :: 0 <= i < |vs| ==> vs[i].at == if vs[i].span < 0 then 0 else vs[i].start - hs[vs[i].span].start)
    && (forall i :: 0 <= i < |vs| ==> !vs[i].packed)
  }

  // The spans and the measures of the views are as in `vs`.
  ghost predicate SameSpans(vs: seq<View>, vs': seq<View>) {
    SameMeasure(vs, vs') && forall i :: 0 <= i < |vs| ==> vs'[i].span == vs[i].span
  }

  lemma SpansKept(vs: seq<View>, vs': seq<View>, hs: seq<CopySpan>)
    requires SameSpans(vs, vs') && Inside(vs, hs, |vs|) && Tight(vs, hs, |vs|) && Grouped(vs)
    ensures Inside(vs', hs, |vs'|) && Tight(vs', hs, |vs'|) && Grouped(vs')
  {
    var n := |vs|;
    assert Extents(vs') == Extents(vs);
    forall s | 0 <= s < |hs|
      ensures HasStart(vs', hs, n, s) && HasEnd(vs', hs, n, s)
    {
      assert HasStart(vs, hs, n, s) && HasEnd(vs, hs, n, s);
      var i: nat :| StartsSpan(vs, hs, n, s, i);
      assert StartsSpan(vs', hs, n, s, i);
      var j: nat :| EndsSpan(vs, hs, n, s, j);
      assert EndsSpan(vs', hs, n, s, j);
    }
  }

  lemma FinishedStart(vs: seq<View>, vs': seq<View>, hs: seq<CopySpan>, rt: seq<int>)
    requires Spanned(vs, hs, rt, |vs|) && Grouped(vs) && |vs'| == |vs|
    requires forall i :: 0 <= i < |vs| ==> vs[i].bytes >= 0 && (rt[i] < 0 <==> vs[i].bytes == 0)
    requires forall i :: 0 <= i < |vs| ==> vs[i].span < |hs| && vs'[i] == Finish(vs[i], hs)
    ensures Finished(vs', hs)
  {
    SpansKept(vs, vs', hs);
  }

  lemma SpanInRange(vs: seq<View>, hs: seq<CopySpan>, rt: seq<int>)
    requires Spanned(vs, hs, rt, |vs|)
    ensures forall i :: 0 <= i < |vs| ==> vs[i].span < |hs|
  {}

  lemma SettledEnd(vs: seq<View>, vs': seq<View>, sp: seq<CopySpan>, hs: seq<CopySpan>, descs: seq<Desc>)
    requires GoodDescs(descs) && NamesDescs(vs, descs) && AllMeasured(vs, descs) && Finished(vs, hs)
    requires DenseUpTo(vs, vs', sp, hs, descs, |sp|)
    ensures Settled(vs', sp, hs, descs)
  {
    MeasureKept(vs, vs', descs);
    SpansKept(vs, vs', hs);
  }

  // Join the views and note the root of each.
  method RootViews(views: array<View>) returns (ghost linked: seq<View>)
    requires forall i :: 0 <= i < views.Length ==> views[i].bytes >= 0 && views[i].span >= -1
    requires Progress(Links(views[..]), Extents(views[..]), 0, 0)
    modifies views
    ensures SameMeasure(old(views[..]), views[..]) && Extents(views[..]) == Extents(linked)
    ensures Progress(Links(linked), Extents(linked), |linked|, 0) && IsRoots(AtFields(views[..]), Links(linked))
    ensures Rooted(views[..], AtFields(views[..]))
  {
    JoinAll(views);
    linked := views[..];
    assert forall i :: 0 <= i < |linked| ==> Links(linked)[i] == linked[i].span;
    KeepRoots(views);
    RootedStart(linked, views[..]);
    assert Extents(views[..]) == Extents(linked);
  }

  // Give each group a span, and seat its views.
  method SeatViews(views: array<View>, spans: array<CopySpan>, ghost linked: seq<View>) returns (ns: nat)
    requires views.Length <= spans.Length && Extents(views[..]) == Extents(linked)
    requires Progress(Links(linked), Extents(linked), |linked|, 0) && IsRoots(AtFields(views[..]), Links(linked))
    requires Rooted(views[..], AtFields(views[..]))
    modifies views, spans
    ensures ns <= views.Length
    ensures SameMeasure(old(views[..]), views[..]) && Finished(views[..], spans[..ns])
  {
    ghost var rt := AtFields(views[..]);
    ns := SpanAll(views, spans, rt);
    ghost var vs4 := views[..];
    SpanInRange(vs4, spans[..ns], rt);
    assert Extents(vs4) == Extents(linked);
    SpannedGroups(linked, vs4, spans[..ns], rt);
    FinishAll(views, spans, ns);
    FinishedStart(vs4, views[..], spans[..ns], rt);
  }

  // ---- The plan and the rule ----

  // A view that has a span to itself, where none of its products overflows.
  lemma FitTakes(vs: seq<View>, sp: seq<CopySpan>, descs: seq<Desc>, s: nat, w: nat)
    requires Laid(vs, sp, descs) && s < |sp| && Sole(vs, s, w)
    requires ProductsFit(descs[vs[w].desc].sizes, descs[vs[w].desc].strides)
    ensures TakesDense(vs, descs, s, w) <==> WantsDense(vs, descs, s, w)
    ensures WantsDense(vs, descs, s, w) ==>
              CountedBytes(descs[vs[w].desc], vs[w].elem) == Product(descs[vs[w].desc].sizes) * DtypeBytes(vs[w].elem)
  {
    hide ProductsFit, TestPackable, Nested, Product, WrappedProduct, Grouped, HullsApart;
    var d, b := descs[vs[w].desc], DtypeBytes(vs[w].elem);
    assert Seated(vs, sp, descs, w) && Measured(vs[w], d);
    MeasuredNotEmpty(vs[w], d);
    FittingAgrees(d.sizes, d.strides, b, vs[w].bytes);
    if ShouldPack(d.sizes, d.strides, b, vs[w].bytes) {
      NestedFits(d.sizes, d.strides, b, vs[w].bytes);
    }
  }

  // The view of `w` in the store.
  ghost predicate FitAt(vs: seq<View>, descs: seq<Desc>, w: int)
    requires GoodDescs(descs) && NamesDescs(vs, descs)
  {
    0 <= w < |vs| ==> ProductsFit(descs[vs[w].desc].sizes, descs[vs[w].desc].strides)
  }

  lemma FitSpan(vs: seq<View>, sp: seq<CopySpan>, descs: seq<Desc>, s: nat)
    requires Laid(vs, sp, descs) && s < |sp| && SpanTight(vs, sp, s) && SpanTested(vs, sp, descs, s)
    requires forall w :: Sole(vs, s, w) ==> FitAt(vs, descs, w)
    ensures SpanRight(vs, sp, descs, s)
  {
    hide ProductsFit, ShouldPack, TestPackable, CountedBytes, SpanTight, Product, Grouped, HullsApart, Seated;
    if sp[s].view >= 0 {
      FitTakes(vs, sp, descs, s, sp[s].view);
    } else {
      forall w | Sole(vs, s, w)
        ensures !WantsDense(vs, descs, s, w)
      {
        assert FitAt(vs, descs, w) && !TakesDense(vs, descs, s, w);
        FitTakes(vs, sp, descs, s, w);
      }
    }
  }

  // Where no product overflows, the source's plan is right.
  lemma FitPlan(vs0: seq<View>, vs: seq<View>, sp: seq<CopySpan>, descs: seq<Desc>)
    requires GoodDescs(descs) && NamesDescs(vs0, descs) && FitCall(vs0, descs) && SameInputs(vs0, vs)
    requires Planned(vs, sp, descs)
    ensures PlanOk(vs, sp, descs)
  {
    hide ProductsFit, TakesDense, WantsDense, CountedBytes, Grouped, HullsApart, IsSpanOf, SpanTight, SpanTested;
    hide SpanRight;
    forall s | 0 <= s < |sp|
      ensures SpanRight(vs, sp, descs, s)
    {
      forall w | Sole(vs, s, w)
        ensures FitAt(vs, descs, w)
      {
        assert Seated(vs, sp, descs, w) && Measured(vs[w], descs[vs[w].desc]);
        assert FitDesc(descs[vs0[w].desc], vs0[w].elem);
      }
      FitSpan(vs, sp, descs, s);
    }
  }

  // Strides as a descriptor holds them.
  ghost predicate SignedStrides(descs: seq<Desc>) {
    forall d :: 0 <= d < |descs| ==> forall k :: 0 <= k < |descs[d].strides| ==> descs[d].strides[k] < TWO_63
  }

  // The source's plan is right exactly when no product of a view it packs overflows.
  lemma PlanIff(vs: seq<View>, sp: seq<CopySpan>, descs: seq<Desc>)
    requires Planned(vs, sp, descs) && SignedStrides(descs)
    ensures PlanOk(vs, sp, descs) <==> forall i :: 0 <= i < |vs| && vs[i].packed ==> FitAt(vs, descs, i)
  {
    hide ProductsFit, TakesDense, WantsDense, CountedBytes, Grouped, HullsApart, SpanTight, SignedStrides;
    if PlanOk(vs, sp, descs) {
      forall i | 0 <= i < |vs| && vs[i].packed
        ensures FitAt(vs, descs, i)
      {
        assert Seated(vs, sp, descs, i) && SpanRight(vs, sp, descs, vs[i].span);
        assert SpanTested(vs, sp, descs, vs[i].span);
        RightFits(vs, descs, vs[i].span, i);
      }
    }
    if forall i :: 0 <= i < |vs| && vs[i].packed ==> FitAt(vs, descs, i) {
      forall s | 0 <= s < |sp|
        ensures SpanRight(vs, sp, descs, s)
      {
        RightSpan(vs, sp, descs, s);
      }
    }
  }

  // No product overflows in a view that a plan of the call packs.
  ghost predicate FitPacked(vs0: seq<View>, descs: seq<Desc>) {
    forall vs: seq<View>, sp :: SameInputs(vs0, vs) && Planned(vs, sp, descs) ==>
      forall i :: 0 <= i < |vs| && vs[i].packed ==> FitAt(vs, descs, i)
  }

  lemma PackedPlan(vs0: seq<View>, vs: seq<View>, sp: seq<CopySpan>, descs: seq<Desc>)
    requires FitPacked(vs0, descs) && SignedStrides(descs) && SameInputs(vs0, vs) && Planned(vs, sp, descs)
    ensures PlanOk(vs, sp, descs)
  {
    hide Planned, PlanOk, SameInputs, SignedStrides, FitAt;
    assert GoodDescs(descs) && NamesDescs(vs, descs) by {
      PlannedNames(vs, sp, descs);
    }
    PlanIff(vs, sp, descs);
  }

  lemma PlannedNames(vs: seq<View>, sp: seq<CopySpan>, descs: seq<Desc>)
    requires Planned(vs, sp, descs)
    ensures GoodDescs(descs) && NamesDescs(vs, descs)
  {}

  // A view that is taken and should be.
  lemma RightFits(vs: seq<View>, descs: seq<Desc>, s: int, w: nat)
    requires GoodDescs(descs) && NamesDescs(vs, descs) && SignedStrides(descs)
    requires TakesDense(vs, descs, s, w) && WantsDense(vs, descs, s, w)
    ensures FitAt(vs, descs, w)
  {
    hide ProductsFit, Nested, TestNested;
    TestIffNested(descs[vs[w].desc].sizes, descs[vs[w].desc].strides);
  }

  lemma RightSpan(vs: seq<View>, sp: seq<CopySpan>, descs: seq<Desc>, s: nat)
    requires Planned(vs, sp, descs) && SignedStrides(descs) && s < |sp|
    requires forall i :: 0 <= i < |vs| && vs[i].packed ==> FitAt(vs, descs, i)
    ensures SpanRight(vs, sp, descs, s)
  {
    hide ProductsFit, CountedBytes, Grouped, HullsApart, SpanTight, SignedStrides, TestPackable, ShouldPack, Product;
    hide Measured;
    assert SpanTight(vs, sp, s) && SpanTested(vs, sp, descs, s);
    if sp[s].view >= 0 {
      assert Seated(vs, sp, descs, sp[s].view) && FitAt(vs, descs, sp[s].view);
      FitTakes(vs, sp, descs, s, sp[s].view);
    } else {
      forall w | Sole(vs, s, w)
        ensures !WantsDense(vs, descs, s, w)
      {
        assert !TakesDense(vs, descs, s, w);
        NoneRefused(vs, sp, descs, s, w);
      }
    }
  }

  lemma NoneRefused(vs: seq<View>, sp: seq<CopySpan>, descs: seq<Desc>, s: nat, w: nat)
    requires Laid(vs, sp, descs) && SignedStrides(descs) && s < |sp| && Sole(vs, s, w)
    ensures WantsDense(vs, descs, s, w) ==> TakesDense(vs, descs, s, w)
  {
    hide TestPackable, ShouldPack, Grouped, HullsApart;
    var d := descs[vs[w].desc];
    assert Seated(vs, sp, descs, w) && Measured(vs[w], d);
    MeasuredNotEmpty(vs[w], d);
    WrongIff(d.sizes, d.strides, DtypeBytes(vs[w].elem), vs[w].bytes);
  }

  // vx_view_copy_plan. `spans` has room for a span for each view.
  method PlanViews(views: array<View>, spans: array<CopySpan>, descs: seq<Desc>) returns (r: Outcome)
    requires views.Length <= spans.Length
    requires GoodDescs(descs) && NamesDescs(views[..], descs)
    modifies views, spans
    ensures SameInputs(old(views[..]), views[..])
    ensures r.Ready? ==> r.spans <= views.Length && Planned(views[..], spans[..r.spans], descs)
    ensures r.Ready? && FitCall(old(views[..]), descs) ==> PlanOk(views[..], spans[..r.spans], descs)
    ensures !r.Ready? ==>
              && NamesDescs(views[..], descs)
              && exists i ::
                   0 <= i < views.Length && MeasuredUpTo(views[..], descs, i) && StopsAt(r, views[..], descs, i)
  {
    ghost var vs0 := views[..];
    r := MeasureAll(views, descs);
    if !r.Ready? {
      return;
    }
    ghost var vs1 := views[..];
    MeasuredStart(vs1, descs);
    forall i | 0 <= i < views.Length ensures views[i].bytes >= 0 {
      MeasuredBytes(vs1, descs, i);
    }
    var ns := GroupViews(views, spans, vs1, descs);
    PackViews(views, spans, ns, descs);
    r := Ready(ns);
    if FitCall(vs0, descs) {
      FitPlan(vs0, views[..], spans[..ns], descs);
    }
  }

  // The middle phases: from measured views to seated ones.
  method GroupViews(views: array<View>, spans: array<CopySpan>, ghost vs1: seq<View>, ghost descs: seq<Desc>)
    returns (ns: nat)
    requires views.Length <= spans.Length && vs1 == views[..]
    requires forall i :: 0 <= i < views.Length ==> views[i].bytes >= 0 && views[i].span >= -1
    requires Progress(Links(vs1), Extents(vs1), 0, 0)
    requires GoodDescs(descs) && NamesDescs(vs1, descs) && AllMeasured(vs1, descs)
    modifies views, spans
    ensures ns <= views.Length
    ensures SameMeasure(vs1, views[..]) && Finished(views[..], spans[..ns])
    ensures NamesDescs(views[..], descs) && AllMeasured(views[..], descs)
  {
    hide Progress, Finished, Rooted, IsRoots, AllMeasured;
    ghost var linked := RootViews(views);
    ns := SeatViews(views, spans, linked);
    MeasureKept(vs1, views[..], descs);
  }

  method PackViews(views: array<View>, spans: array<CopySpan>, ns: nat, descs: seq<Desc>)
    requires ns <= spans.Length && GoodDescs(descs) && NamesDescs(views[..], descs)
    requires AllMeasured(views[..], descs) && Finished(views[..], spans[..ns])
    modifies views, spans
    ensures SameMeasure(old(views[..]), views[..])
    ensures Planned(views[..], spans[..ns], descs)
  {
    ghost var vs5, hs := views[..], spans[..ns];
    PackAll(views, spans, ns, descs);
    SettledEnd(vs5, views[..], spans[..ns], hs, descs);
    SettledIsPlanned(views[..], spans[..ns], hs, descs);
  }
}
