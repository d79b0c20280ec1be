// Transfer routing (src/arch.rs): the declared edges between memory spaces, the
// walks they allow, and the least of them in the order the router uses.
module Routing {
  import opened Options

  datatype Space = CpuDram | NpuHbm | GpuHbm | LocalSram | NicRam | RemoteHbm | Custom(name: string)

  // `edges` lists the declared hops out of each space with their weights.
  // `prices` holds the attoseconds per byte of each hop that has a price.
  datatype Graph = Graph(edges: map<Space, seq<(Space, nat)>>, prices: map<(Space, Space), nat>)

  const U64_MAX: nat := 0xFFFF_FFFF_FFFF_FFFF
  const U32_MAX: nat := 0xFFFF_FFFF

  // What a route is compared by: attoseconds first, then declared weights.
  datatype Key = Key(cost: nat, weight: nat)

  predicate Less(a: Key, b: Key) {
    a.cost < b.cost || (a.cost == b.cost && a.weight < b.weight)
  }

  predicate Leq(a: Key, b: Key) {
    !Less(b, a)
  }

  function Plus(a: Key, b: Key): Key {
    Key(a.cost + b.cost, a.weight + b.weight)
  }

  function Saturate(x: nat, max: nat): nat {
    if x <= max then x else max
  }

  // The additions of the source, which saturate.
  function PlusSaturating(a: Key, b: Key): Key {
    Key(Saturate(a.cost + b.cost, U64_MAX), Saturate(a.weight + b.weight, U32_MAX))
  }

  // ---- Walks ----

  datatype Hop = Hop(from: Space, to: Space, weight: nat)

  // A hop the router may take. The priced pass takes only hops with a price.
  predicate Declared(g: Graph, priced: bool, h: Hop) {
    && h.from in g.edges && (h.to, h.weight) in g.edges[h.from]
    && (priced ==> (h.from, h.to) in g.prices)
  }

  function HopKey(g: Graph, priced: bool, h: Hop): Key {
    Key(if priced && (h.from, h.to) in g.prices then g.prices[(h.from, h.to)] else 0, h.weight)
  }

  predicate IsWalk(g: Graph, priced: bool, src: Space, dst: Space, w: seq<Hop>)
    decreases |w|
  {
    if |w| == 0 then src == dst
    else
      var h := w[|w| - 1];
      h.to == dst && Declared(g, priced, h) && IsWalk(g, priced, src, h.from, w[..|w| - 1])
  }

  function WalkKey(g: Graph, priced: bool, w: seq<Hop>): Key {
    if |w| == 0 then Key(0, 0) else Plus(WalkKey(g, priced, w[..|w| - 1]), HopKey(g, priced, w[|w| - 1]))
  }

  // The spaces a walk stops at.
  function Stops(src: Space, w: seq<Hop>): (path: seq<Space>)
    ensures |path| == |w| + 1
  {
    if |w| == 0 then [src] else Stops(src, w[..|w| - 1]) + [w[|w| - 1].to]
  }

  lemma WalkAppend(g: Graph, priced: bool, src: Space, w: seq<Hop>, h: Hop)
    requires IsWalk(g, priced, src, h.from, w) && Declared(g, priced, h)
    ensures IsWalk(g, priced, src, h.to, w + [h])
    ensures WalkKey(g, priced, w + [h]) == Plus(WalkKey(g, priced, w), HopKey(g, priced, h))
    ensures Stops(src, w + [h]) == Stops(src, w) + [h.to]
  {
    assert (w + [h])[..|w|] == w;
  }

  ghost predicate Reachable(g: Graph, priced: bool, src: Space, dst: Space) {
    exists w :: IsWalk(g, priced, src, dst, w)
  }

  // No walk is less than `w`.
  ghost predicate Least(g: Graph, priced: bool, src: Space, dst: Space, w: seq<Hop>) {
    && IsWalk(g, priced, src, dst, w)
    && forall v :: IsWalk(g, priced, src, dst, v) ==> Leq(WalkKey(g, priced, w), WalkKey(g, priced, v))
  }

  datatype Route = Route(cost: nat, path: seq<Space>)

  // A route is the stops and the weight of a least walk.
  ghost predicate BestRoute(g: Graph, priced: bool, src: Space, dst: Space, r: Route) {
    exists w :: Least(g, priced, src, dst, w) && Stops(src, w) == r.path && WalkKey(g, priced, w).weight == r.cost
  }

  // ---- The spaces of a graph ----

  const BUILT_IN: set<Space> := {CpuDram, NpuHbm, GpuHbm, LocalSram, NicRam, RemoteHbm}

  // The built-in spaces and every end of a declared edge.
  function Known(g: Graph): set<Space> {
    BUILT_IN + g.edges.Keys + (set u, j | u in g.edges && 0 <= j < |g.edges[u]| :: g.edges[u][j].0)
  }

  lemma KnownHas(g: Graph, u: Space, j: nat)
    requires u in g.edges && j < |g.edges[u]|
    ensures u in Known(g) && g.edges[u][j].0 in Known(g)
  {}

  // ---- Direct edges ----

  // The least weight among the hops of a list that go to `to`.
  function LeastTo(hops: seq<(Space, nat)>, to: Space): (r: Option<nat>)
    ensures r.None? <==> forall j :: 0 <= j < |hops| ==> hops[j].0 != to
    ensures r.Some? ==> (to, r.value) in hops
    ensures r.Some? ==> forall j :: 0 <= j < |hops| && hops[j].0 == to ==> r.value <= hops[j].1
  {
    if |hops| == 0 then None
    else
      var rest := LeastTo(hops[..|hops| - 1], to);
      var h := hops[|hops| - 1];
      if h.0 == to && (rest.None? || h.1 < rest.value) then Some(h.1) else rest
  }

  // direct_edge_weight
  function DirectEdgeWeight(g: Graph, from: Space, to: Space): (r: Option<nat>)
    ensures r.None? <==> forall weight :: !Declared(g, false, Hop(from, to, weight))
    ensures r.Some? ==> Declared(g, false, Hop(from, to, r.value))
    ensures r.Some? ==> forall weight :: Declared(g, false, Hop(from, to, weight)) ==> r.value <= weight
  {
    if from in g.edges then
      var r := LeastTo(g.edges[from], to);
      assert r.None? <==> forall weight :: !Declared(g, false, Hop(from, to, weight)) by {
        if r.None? {
          assert forall weight :: (to, weight) !in g.edges[from];
        } else {
          assert Declared(g, false, Hop(from, to, r.value));
        }
      }
      r
    else None
  }

  // The sum of the least direct weights along a path.
  function PathCost(g: Graph, path: seq<Space>): nat {
    if |path| < 2 then 0
    else
      var w := DirectEdgeWeight(g, path[|path| - 2], path[|path| - 1]);
      PathCost(g, path[..|path| - 1]) + (if w.Some? then w.value else 0)
  }

  lemma {:induction false} StopsEnds(g: Graph, priced: bool, src: Space, dst: Space, w: seq<Hop>)
    requires IsWalk(g, priced, src, dst, w)
    ensures Stops(src, w)[0] == src && Stops(src, w)[|w|] == dst
    decreases |w|
  {
    if |w| > 0 {
      StopsEnds(g, priced, src, w[|w| - 1].from, w[..|w| - 1]);
    }
  }

  // The cost of a path with one more stop.
  lemma PathAppend(g: Graph, priced: bool, src: Space, w: seq<Hop>, h: Hop)
    requires IsWalk(g, priced, src, h.from, w) && Declared(g, priced, h)
    ensures var best := DirectEdgeWeight(g, h.from, h.to);
            && best.Some? && best.value <= h.weight && Declared(g, priced, Hop(h.from, h.to, best.value))
            && PathCost(g, Stops(src, w) + [h.to]) == PathCost(g, Stops(src, w)) + best.value
  {
    StopsEnds(g, priced, src, h.from, w);
    assert Declared(g, false, h);
    var path := Stops(src, w) + [h.to];
    assert path[..|path| - 1] == Stops(src, w);
  }

  // ---- Saturation ----

  // The sums of a walk as the source takes them.
  function Capped(k: Key): Key {
    Key(Saturate(k.cost, U64_MAX), Saturate(k.weight, U32_MAX))
  }

  predicate Within(k: Key) {
    k.cost <= U64_MAX && k.weight <= U32_MAX
  }

  // No walk that costs less than U64_MAX has lesser sums than `w`.
  ghost predicate LeastCapped(g: Graph, priced: bool, src: Space, dst: Space, w: seq<Hop>) {
    forall v :: IsWalk(g, priced, src, dst, v) && WalkKey(g, priced, v).cost < U64_MAX ==>
      Leq(Capped(WalkKey(g, priced, w)), Capped(WalkKey(g, priced, v)))
  }

  // `w` is the walk of route `r`, over hops of least weight.
  ghost predicate Traces(g: Graph, priced: bool, src: Space, dst: Space, w: seq<Hop>, r: Route) {
    && IsWalk(g, priced, src, dst, w) && Stops(src, w) == r.path
    && WalkKey(g, priced, w).weight == PathCost(g, r.path) && r.cost == Saturate(PathCost(g, r.path), U32_MAX)
  }

  // What a search answers with, in every graph.
  ghost predicate Answer(g: Graph, priced: bool, src: Space, dst: Space, r: Route) {
    exists w :: Traces(g, priced, src, dst, w, r) && LeastCapped(g, priced, src, dst, w)
  }

  // A space that can be reached has a least walk.
  lemma LeastExists(g: Graph, priced: bool, src: Space, dst: Space, w: seq<Hop>) returns (l: seq<Hop>)
    requires IsWalk(g, priced, src, dst, w)
    ensures Least(g, priced, src, dst, l)
    decreases WalkKey(g, priced, w).cost, WalkKey(g, priced, w).weight
  {
    hide IsWalk, WalkKey;
    l := w;
    if !Least(g, priced, src, dst, w) {
      var v :| IsWalk(g, priced, src, dst, v) && !Leq(WalkKey(g, priced, w), WalkKey(g, priced, v));
      l := LeastExists(g, priced, src, dst, v);
    }
  }

  // Two keys of which one is least and the other least once capped.
  lemma CappedLeast(a: Key, b: Key)
    requires Leq(b, a) && Leq(Capped(a), Capped(b)) && b.cost < U64_MAX
    ensures a.cost == b.cost && Saturate(a.weight, U32_MAX) == Saturate(b.weight, U32_MAX)
    ensures b.weight < U32_MAX ==> a == b
  {}

  // Below U64_MAX an answer has the least price, and its cost is the least weight at that price, up to
  // U32_MAX.
  lemma AnswerCost(g: Graph, priced: bool, src: Space, dst: Space, r: Route, l: seq<Hop>) returns (w: seq<Hop>)
    requires Answer(g, priced, src, dst, r)
    requires Least(g, priced, src, dst, l) && WalkKey(g, priced, l).cost < U64_MAX
    ensures Traces(g, priced, src, dst, w, r) && WalkKey(g, priced, w).cost == WalkKey(g, priced, l).cost
    ensures r.cost == Saturate(WalkKey(g, priced, l).weight, U32_MAX)
    ensures WalkKey(g, priced, l).weight < U32_MAX ==> WalkKey(g, priced, w) == WalkKey(g, priced, l)
  {
    hide IsWalk, WalkKey, Stops, PathCost, Capped, Leq, Saturate;
    w :| Traces(g, priced, src, dst, w, r) && LeastCapped(g, priced, src, dst, w);
    CappedLeast(WalkKey(g, priced, w), WalkKey(g, priced, l));
  }

  // With a least weight below U32_MAX it is a best route. Above U32_MAX it is none.
  lemma AnswerIsBest(g: Graph, priced: bool, src: Space, dst: Space, r: Route, l: seq<Hop>)
    requires Answer(g, priced, src, dst, r)
    requires Least(g, priced, src, dst, l) && WalkKey(g, priced, l).cost < U64_MAX
    ensures WalkKey(g, priced, l).weight < U32_MAX ==> BestRoute(g, priced, src, dst, r)
    ensures WalkKey(g, priced, l).weight > U32_MAX ==> !BestRoute(g, priced, src, dst, r)
  {
    hide IsWalk, WalkKey, Stops, PathCost, Answer, Leq, Least, BestRoute;
    var w := AnswerCost(g, priced, src, dst, r, l);
    if WalkKey(g, priced, l).weight < U32_MAX {
      AlsoLeast(g, priced, src, dst, l, w);
      LeastIsBest(g, priced, src, dst, w, r);
    } else if BestRoute(g, priced, src, dst, r) {
      BestWeight(g, priced, src, dst, l, r);
    }
  }

  lemma LeastIsBest(g: Graph, priced: bool, src: Space, dst: Space, w: seq<Hop>, r: Route)
    requires Least(g, priced, src, dst, w) && Stops(src, w) == r.path && WalkKey(g, priced, w).weight == r.cost
    ensures BestRoute(g, priced, src, dst, r)
  {}

  lemma BestWeight(g: Graph, priced: bool, src: Space, dst: Space, l: seq<Hop>, r: Route)
    requires Least(g, priced, src, dst, l) && BestRoute(g, priced, src, dst, r)
    ensures r.cost == WalkKey(g, priced, l).weight
  {
    hide Least, WalkKey, Stops;
    var v :| Least(g, priced, src, dst, v) && Stops(src, v) == r.path && WalkKey(g, priced, v).weight == r.cost;
    LeastAlike(g, priced, src, dst, l, v);
  }

  lemma AlsoLeast(g: Graph, priced: bool, src: Space, dst: Space, l: seq<Hop>, w: seq<Hop>)
    requires Least(g, priced, src, dst, l) && IsWalk(g, priced, src, dst, w)
    requires WalkKey(g, priced, w) == WalkKey(g, priced, l)
    ensures Least(g, priced, src, dst, w)
  {}

  lemma LeastAlike(g: Graph, priced: bool, src: Space, dst: Space, v: seq<Hop>, w: seq<Hop>)
    requires Least(g, priced, src, dst, v) && Least(g, priced, src, dst, w)
    ensures WalkKey(g, priced, v) == WalkKey(g, priced, w)
  {
    hide IsWalk, WalkKey;
    assert Leq(WalkKey(g, priced, v), WalkKey(g, priced, w)) && Leq(WalkKey(g, priced, w), WalkKey(g, priced, v));
  }

  // ---- The state of a search ----

  datatype Entry = Entry(key: Key, mem: Space)

  // The tables of the search, and what they stand for: `done` are the spaces whose
  // hops were relaxed, in the order `rank`.
  datatype Tables = Tables(dists: map<Space, Key>, preds: map<Space, Space>, heap: seq<Entry>, done: set<Space>,
                           rank: map<Space, nat>)

  // Every distance is that of its predecessor plus a declared hop.
  ghost predicate HasPred(g: Graph, priced: bool, t: Tables, v: Space, weight: nat) {
    && v in t.dists && v in t.preds && t.preds[v] in t.done && t.preds[v] in t.dists
    && Declared(g, priced, Hop(t.preds[v], v, weight))
    && t.dists[v] == PlusSaturating(t.dists[t.preds[v]], HopKey(g, priced, Hop(t.preds[v], v, weight)))
  }

  ghost predicate Rooted(g: Graph, priced: bool, src: Space, t: Tables) {
    && src in t.dists && t.dists[src] == Key(0, 0) && src !in t.preds
    && t.done <= t.dists.Keys && t.preds.Keys <= t.dists.Keys
    && (forall v :: v in t.dists ==> Within(t.dists[v]))
    && (forall v :: v in t.dists && v != src ==> exists weight :: HasPred(g, priced, t, v, weight))
  }

  // Predecessors were done earlier.
  ghost predicate Ranked(t: Tables) {
    && t.rank.Keys == t.done
    && (forall v :: v in t.done ==> t.rank[v] < |t.done|)
    && (forall v :: v in t.done && v in t.preds && t.preds[v] in t.done ==> t.rank[t.preds[v]] < t.rank[v])
  }

  // Every space that is reached and not done waits in the heap.
  ghost predicate Queued(t: Tables) {
    && (forall v :: v in t.dists && v !in t.done ==> Entry(t.dists[v], v) in t.heap)
    && (forall e :: e in t.heap ==> e.mem in t.dists && Leq(t.dists[e.mem], e.key))
    && (forall i, j :: 0 <= i < j < |t.heap| ==> t.heap[i] != t.heap[j])
    && (forall e :: e in t.heap && e.mem in t.done ==> e.key != t.dists[e.mem])
  }

  // What is done is no farther than what waits.
  ghost predicate Ordered(t: Tables)
    requires t.done <= t.dists.Keys
  {
    forall u, e :: u in t.done && e in t.heap ==> Leq(t.dists[u], e.key)
  }

  // The first `n` hops of `u` are relaxed.
  ghost predicate RelaxedHops(g: Graph, priced: bool, t: Tables, u: Space, n: nat)
    requires u in t.dists
  {
    u in g.edges ==> forall j :: 0 <= j < n && j < |g.edges[u]| ==>
      var h := Hop(u, g.edges[u][j].0, g.edges[u][j].1);
      Declared(g, priced, h) ==> h.to in t.dists && Leq(t.dists[h.to], PlusSaturating(t.dists[u], HopKey(g, priced, h)))
  }

  function OutDegree(g: Graph, u: Space): nat {
    if u in g.edges then |g.edges[u]| else 0
  }

  // Every done space is relaxed, the space `u` up to hop `n`.
  ghost predicate RelaxedBut(g: Graph, priced: bool, t: Tables, u: Space, n: nat)
    requires t.done <= t.dists.Keys
  {
    forall v :: v in t.done ==> RelaxedHops(g, priced, t, v, if v == u then n else OutDegree(g, v))
  }

  ghost predicate RelaxedAll(g: Graph, priced: bool, t: Tables)
    requires t.done <= t.dists.Keys
  {
    forall v :: v in t.done ==> RelaxedHops(g, priced, t, v, OutDegree(g, v))
  }
}
