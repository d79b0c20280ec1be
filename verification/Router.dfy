// The transfer cost graph of src/arch.rs: declaring edges, choosing a route and
// the matrix of route costs.
module Router {
  import opened Options
  import opened Routing
  import Dijkstra

  // `c` takes the stops of `w` at the same price, for the least weights.
  ghost predicate CheapestOf(g: Graph, priced: bool, src: Space, dst: Space, w: seq<Hop>, c: seq<Hop>) {
    && IsWalk(g, priced, src, dst, c) && Stops(src, c) == Stops(src, w)
    && WalkKey(g, priced, c) == Key(WalkKey(g, priced, w).cost, PathCost(g, Stops(src, w)))
    && PathCost(g, Stops(src, w)) <= WalkKey(g, priced, w).weight
  }

  lemma {:induction false} Cheapest(g: Graph, priced: bool, src: Space, dst: Space, w: seq<Hop>) returns (c: seq<Hop>)
    requires IsWalk(g, priced, src, dst, w)
    ensures CheapestOf(g, priced, src, dst, w, c)
    decreases |w|
  {
    hide *;
    if |w| == 0 {
      c := w;
      CheapestEmpty(g, priced, src, dst, w);
    } else {
      var front, h := w[..|w| - 1], w[|w| - 1];
      WalkSplit(g, priced, src, dst, w);
      c := Cheapest(g, priced, src, h.from, front);
      c := CheapestStep(g, priced, src, front, h, c);
      assert w == front + [h];
    }
  }

  lemma CheapestEmpty(g: Graph, priced: bool, src: Space, dst: Space, w: seq<Hop>)
    requires IsWalk(g, priced, src, dst, w) && |w| == 0
    ensures CheapestOf(g, priced, src, dst, w, w)
  {}

  lemma WalkSplit(g: Graph, priced: bool, src: Space, dst: Space, w: seq<Hop>)
    requires IsWalk(g, priced, src, dst, w) && |w| > 0
    ensures IsWalk(g, priced, src, w[|w| - 1].from, w[..|w| - 1]) && Declared(g, priced, w[|w| - 1])
    ensures w[|w| - 1].to == dst
  {}

  lemma CheapestStep(g: Graph, priced: bool, src: Space, w: seq<Hop>, h: Hop, c: seq<Hop>) returns (r: seq<Hop>)
    requires IsWalk(g, priced, src, h.from, w) && Declared(g, priced, h) && CheapestOf(g, priced, src, h.from, w, c)
    ensures CheapestOf(g, priced, src, h.to, w + [h], r)
  {
    hide IsWalk, Declared, PathCost, DirectEdgeWeight, WalkKey, Stops;
    PathAppend(g, priced, src, w, h);
    var best := Hop(h.from, h.to, DirectEdgeWeight(g, h.from, h.to).value);
    r := c + [best];
    WalkAppend(g, priced, src, c, best);
    WalkAppend(g, priced, src, w, h);
  }

  // A route's cost is the sum of the least direct weights along its own path.
  lemma CostAlongPath(g: Graph, priced: bool, src: Space, dst: Space, r: Route)
    requires BestRoute(g, priced, src, dst, r)
    ensures r.cost == PathCost(g, r.path) && |r.path| >= 1 && r.path[0] == src && r.path[|r.path| - 1] == dst
  {
    var w :| Least(g, priced, src, dst, w) && Stops(src, w) == r.path && WalkKey(g, priced, w).weight == r.cost;
    StopsEnds(g, priced, src, dst, w);
    var c := Cheapest(g, priced, src, dst, w);
    assert Leq(WalkKey(g, priced, w), WalkKey(g, priced, c));
  }

  // All best routes cost the same.
  lemma BestCostUnique(g: Graph, priced: bool, src: Space, dst: Space, a: Route, b: Route)
    requires BestRoute(g, priced, src, dst, a) && BestRoute(g, priced, src, dst, b)
    ensures a.cost == b.cost
  {
    var v :| Least(g, priced, src, dst, v) && WalkKey(g, priced, v).weight == a.cost;
    var w :| Least(g, priced, src, dst, w) && WalkKey(g, priced, w).weight == b.cost;
    assert Leq(WalkKey(g, priced, v), WalkKey(g, priced, w));
    assert Leq(WalkKey(g, priced, w), WalkKey(g, priced, v));
  }

  lemma {:induction false} PricedIsDeclared(g: Graph, src: Space, dst: Space, w: seq<Hop>)
    requires IsWalk(g, true, src, dst, w)
    ensures IsWalk(g, false, src, dst, w)
    decreases |w|
  {
    if |w| > 0 {
      PricedIsDeclared(g, src, w[|w| - 1].from, w[..|w| - 1]);
    }
  }

  lemma PricedReaches(g: Graph, src: Space, dst: Space)
    requires Reachable(g, true, src, dst)
    ensures Reachable(g, false, src, dst)
  {
    var w :| IsWalk(g, true, src, dst, w);
    PricedIsDeclared(g, src, dst, w);
  }

  // ---- Routes ----

  // What the router answers with: the least priced route if any, else the least
  // weight of all, both as far as the sums of the source tell.
  ghost predicate Chosen(g: Graph, src: Space, dst: Space, r: Route) {
    && Answer(g, Reachable(g, true, src, dst), src, dst, r)
    && |r.path| >= 1 && r.path[0] == src && r.path[|r.path| - 1] == dst
  }

  lemma StayingIsBest(g: Graph, priced: bool, src: Space)
    ensures Reachable(g, priced, src, src) && Answer(g, priced, src, src, Route(0, [src]))
  {
    assert IsWalk(g, priced, src, src, []);
    assert Traces(g, priced, src, src, [], Route(0, [src]));
    assert LeastCapped(g, priced, src, src, []);
  }

  lemma AnswerEnds(g: Graph, priced: bool, src: Space, dst: Space, r: Route)
    requires Answer(g, priced, src, dst, r)
    ensures |r.path| >= 1 && r.path[0] == src && r.path[|r.path| - 1] == dst
  {
    hide IsWalk, LeastCapped, PathCost;
    var w :| Traces(g, priced, src, dst, w, r) && LeastCapped(g, priced, src, dst, w);
    StopsEnds(g, priced, src, dst, w);
  }

  // transfer_path
  method TransferPath(g: Graph, src: Space, dst: Space) returns (r: Option<Route>)
    ensures r.Some? <==> Reachable(g, false, src, dst)
    ensures r.Some? ==> Chosen(g, src, dst, r.value)
  {
    hide Reachable, Answer;
    if src == dst {
      StayingIsBest(g, true, src);
      StayingIsBest(g, false, src);
      return Some(Route(0, [src]));
    }
    r := Dijkstra.Search(g, src, dst, true);
    if r.Some? {
      PricedReaches(g, src, dst);
      AnswerEnds(g, true, src, dst, r.value);
    } else {
      r := Dijkstra.Search(g, src, dst, false);
      if r.Some? {
        AnswerEnds(g, false, src, dst, r.value);
      }
    }
  }

  ghost predicate RouteCost(g: Graph, src: Space, dst: Space, cost: nat) {
    exists r :: Chosen(g, src, dst, r) && r.cost == cost
  }

  // A least walk of the pass that answers.
  ghost predicate LeastOf(g: Graph, src: Space, dst: Space, l: seq<Hop>) {
    Least(g, Reachable(g, true, src, dst), src, dst, l)
  }

  // The key of a walk in that pass.
  ghost function KeyOf(g: Graph, src: Space, dst: Space, l: seq<Hop>): Key {
    WalkKey(g, Reachable(g, true, src, dst), l)
  }

  // Where the least price is below U64_MAX, the cost of a pair is its least weight up to U32_MAX.
  lemma RouteCostIff(g: Graph, src: Space, dst: Space, l: seq<Hop>, cost: nat)
    requires LeastOf(g, src, dst, l) && KeyOf(g, src, dst, l).cost < U64_MAX && RouteCost(g, src, dst, cost)
    ensures cost == Saturate(KeyOf(g, src, dst, l).weight, U32_MAX)
    ensures cost == KeyOf(g, src, dst, l).weight <==> KeyOf(g, src, dst, l).weight <= U32_MAX
  {
    hide Least, WalkKey, Answer, Traces, Reachable;
    var r :| Chosen(g, src, dst, r) && r.cost == cost;
    var w := AnswerCost(g, Reachable(g, true, src, dst), src, dst, r, l);
  }

  // ---- Declaring edges ----

  // What a descriptor declares for an edge. A link rate is per second or per cycle.
  datatype EdgeCost = Derived | Rate(bytes: nat, perSecond: bool) | Fixed(weight: nat) | Shared

  datatype TransferEdge = TransferEdge(from: Space, to: Space, cost: EdgeCost)

  const ATTOS_PER_SEC: nat := 1_000_000_000_000_000_000

  function RoutingWeight(c: EdgeCost): nat {
    if c.Fixed? then c.weight else 1
  }

  function PerByteAttos(c: EdgeCost): (r: Option<nat>)
    ensures r.Some? ==> r.value <= U64_MAX
  {
    if c.Rate? && c.perSecond && c.bytes > 0 then Some(ATTOS_PER_SEC / c.bytes)
    else if c.Shared? then Some(0)
    else None
  }

  function AddHop(g: Graph, from: Space, to: Space, weight: nat): Graph {
    var hops := if from in g.edges then g.edges[from] else [];
    g.(edges := g.edges[from := hops + [(to, weight)]])
  }

  function AddPrice(g: Graph, pair: (Space, Space), price: nat): Graph {
    var best := if pair in g.prices && g.prices[pair] < price then g.prices[pair] else price;
    g.(prices := g.prices[pair := best])
  }

  function Declare(g: Graph, e: TransferEdge): Graph {
    var g' := AddHop(g, e.from, e.to, RoutingWeight(e.cost));
    var price := PerByteAttos(e.cost);
    if price.Some? then AddPrice(g', (e.from, e.to), price.value) else g'
  }

  function DeclareAll(g: Graph, es: seq<TransferEdge>): Graph {
    if |es| == 0 then g else Declare(DeclareAll(g, es[..|es| - 1]), es[|es| - 1])
  }

  predicate Declares(e: TransferEdge, h: Hop) {
    e.from == h.from && e.to == h.to && RoutingWeight(e.cost) == h.weight
  }

  // A price that a descriptor offers for a pair.
  predicate Offers(e: TransferEdge, pair: (Space, Space), price: nat) {
    (e.from, e.to) == pair && PerByteAttos(e.cost) == Some(price)
  }

  // A price some descriptor of the list, or the graph before it, offers.
  predicate Offered(g: Graph, es: seq<TransferEdge>, pair: (Space, Space), price: nat) {
    (pair in g.prices && g.prices[pair] == price) || exists e :: e in es && Offers(e, pair, price)
  }

  lemma DeclareHop(g: Graph, e: TransferEdge, h: Hop)
    ensures Declared(Declare(g, e), false, h) <==> Declared(g, false, h) || Declares(e, h)
  {
    var hops := if e.from in g.edges then g.edges[e.from] else [];
    assert Declare(g, e).edges[e.from] == hops + [(e.to, RoutingWeight(e.cost))];
  }

  // The hops of the graph are those of before and those the list declares.
  lemma {:induction false} DeclaredHops(g: Graph, es: seq<TransferEdge>, h: Hop)
    ensures Declared(DeclareAll(g, es), false, h) <==> Declared(g, false, h) || exists e :: e in es && Declares(e, h)
  {
    if |es| > 0 {
      var front, e := es[..|es| - 1], es[|es| - 1];
      DeclaredHops(g, front, h);
      DeclareHop(DeclareAll(g, front), e, h);
      assert es == front + [e];
    }
  }

  // The price of a pair is the least that anyone offers.
  ghost predicate IsLeastOffer(g: Graph, es: seq<TransferEdge>, pair: (Space, Space), price: nat) {
    Offered(g, es, pair, price) && forall other :: Offered(g, es, pair, other) ==> price <= other
  }

  lemma OfferedStep(g: Graph, front: seq<TransferEdge>, e: TransferEdge, pair: (Space, Space), price: nat)
    ensures Offered(g, front + [e], pair, price) <==> Offered(g, front, pair, price) || Offers(e, pair, price)
  {
    assert e in front + [e];
  }

  lemma {:induction false} LeastPrice(g: Graph, es: seq<TransferEdge>, pair: (Space, Space))
    ensures pair in DeclareAll(g, es).prices <==> exists price :: Offered(g, es, pair, price)
    ensures pair in DeclareAll(g, es).prices ==> IsLeastOffer(g, es, pair, DeclareAll(g, es).prices[pair])
  {
    if |es| == 0 {
      if pair in g.prices {
        assert Offered(g, es, pair, g.prices[pair]);
      }
    } else {
      var front, e := es[..|es| - 1], es[|es| - 1];
      assert es == front + [e];
      LeastPrice(g, front, pair);
      forall price
        ensures Offered(g, es, pair, price) <==> Offered(g, front, pair, price) || Offers(e, pair, price)
      {
        OfferedStep(g, front, e, pair, price);
      }
      var g', offer := DeclareAll(g, front), PerByteAttos(e.cost);
      if (e.from, e.to) == pair && offer.Some? {
        assert Offers(e, pair, offer.value);
        assert Offered(g, es, pair, offer.value);
      } else {
        assert forall price :: !Offers(e, pair, price);
      }
    }
  }

  // Two graphs that allow the same hops at the same prices.
  ghost predicate SameHops(a: Graph, b: Graph) {
    && a.prices == b.prices
    && (forall h :: Declared(a, false, h) <==> Declared(b, false, h))
  }

  // The order in which descriptors arrive changes neither the hops nor the prices.
  lemma OrderOfDeclaring(g: Graph, es: seq<TransferEdge>, fs: seq<TransferEdge>)
    requires forall e :: e in es <==> e in fs
    ensures SameHops(DeclareAll(g, es), DeclareAll(g, fs))
  {
    var a, b := DeclareAll(g, es), DeclareAll(g, fs);
    forall h
      ensures Declared(a, false, h) <==> Declared(b, false, h)
    {
      DeclaredHops(g, es, h);
      DeclaredHops(g, fs, h);
    }
    forall pair
      ensures pair in a.prices <==> pair in b.prices
      ensures pair in a.prices ==> pair in b.prices && a.prices[pair] == b.prices[pair]
    {
      LeastPrice(g, es, pair);
      LeastPrice(g, fs, pair);
      assert forall price :: Offered(g, es, pair, price) <==> Offered(g, fs, pair, price);
    }
  }

  lemma {:induction false} SameWalks(a: Graph, b: Graph, priced: bool, src: Space, dst: Space, w: seq<Hop>)
    requires SameHops(a, b)
    ensures IsWalk(a, priced, src, dst, w) <==> IsWalk(b, priced, src, dst, w)
    ensures WalkKey(a, priced, w) == WalkKey(b, priced, w)
    decreases |w|
  {
    if |w| > 0 {
      var h := w[|w| - 1];
      assert Declared(a, false, h) <==> Declared(b, false, h);
      SameWalks(a, b, priced, src, h.from, w[..|w| - 1]);
    }
  }

  lemma SameLeast(a: Graph, b: Graph, priced: bool, src: Space, dst: Space, w: seq<Hop>)
    requires SameHops(a, b)
    ensures Least(a, priced, src, dst, w) ==> Least(b, priced, src, dst, w)
  {
    hide SameHops, IsWalk, WalkKey, Leq;
    if Least(a, priced, src, dst, w) {
      SameWalks(a, b, priced, src, dst, w);
      forall v | IsWalk(b, priced, src, dst, v)
        ensures Leq(WalkKey(b, priced, w), WalkKey(b, priced, v))
      {
        SameWalks(a, b, priced, src, dst, v);
      }
    }
  }

  // So it does not change which routes are best either.
  lemma SameRoutes(a: Graph, b: Graph, priced: bool, src: Space, dst: Space, r: Route)
    requires SameHops(a, b)
    ensures Reachable(a, priced, src, dst) ==> Reachable(b, priced, src, dst)
    ensures BestRoute(a, priced, src, dst, r) ==> BestRoute(b, priced, src, dst, r)
  {
    hide SameHops, IsWalk, WalkKey, Stops, Least;
    if Reachable(a, priced, src, dst) {
      var w :| IsWalk(a, priced, src, dst, w);
      SameWalks(a, b, priced, src, dst, w);
    }
    if BestRoute(a, priced, src, dst, r) {
      SameBest(a, b, priced, src, dst, r);
    }
  }

  lemma SameBest(a: Graph, b: Graph, priced: bool, src: Space, dst: Space, r: Route)
    requires SameHops(a, b) && BestRoute(a, priced, src, dst, r)
    ensures BestRoute(b, priced, src, dst, r)
  {
    hide SameHops, IsWalk, WalkKey, Stops, Least;
    var w :| Least(a, priced, src, dst, w) && Stops(src, w) == r.path && WalkKey(a, priced, w).weight == r.cost;
    SameLeast(a, b, priced, src, dst, w);
    SameWalks(a, b, priced, src, dst, w);
  }

  lemma SameDirect(a: Graph, b: Graph, from: Space, to: Space)
    requires SameHops(a, b)
    ensures DirectEdgeWeight(a, from, to) == DirectEdgeWeight(b, from, to)
  {
    hide DirectEdgeWeight, Declared;
    var v, w := DirectEdgeWeight(a, from, to), DirectEdgeWeight(b, from, to);
    if v.Some? {
      assert Declared(a, false, Hop(from, to, v.value)) && Declared(b, false, Hop(from, to, v.value));
    }
    if w.Some? {
      assert Declared(b, false, Hop(from, to, w.value)) && Declared(a, false, Hop(from, to, w.value));
    }
  }

  lemma {:induction false} SamePathCost(a: Graph, b: Graph, path: seq<Space>)
    requires SameHops(a, b)
    ensures PathCost(a, path) == PathCost(b, path)
  {
    if |path| >= 2 {
      SameDirect(a, b, path[|path| - 2], path[|path| - 1]);
      SamePathCost(a, b, path[..|path| - 1]);
    }
  }

  lemma SameAnswers(a: Graph, b: Graph, priced: bool, src: Space, dst: Space, r: Route)
    requires SameHops(a, b) && Answer(a, priced, src, dst, r)
    ensures Answer(b, priced, src, dst, r)
  {
    hide SameHops, IsWalk, WalkKey, Stops, PathCost, Capped, Leq;
    var w :| Traces(a, priced, src, dst, w, r) && LeastCapped(a, priced, src, dst, w);
    SameWalks(a, b, priced, src, dst, w);
    SamePathCost(a, b, r.path);
    assert Traces(b, priced, src, dst, w, r);
    forall v | IsWalk(b, priced, src, dst, v) && WalkKey(b, priced, v).cost < U64_MAX
      ensures Leq(Capped(WalkKey(b, priced, w)), Capped(WalkKey(b, priced, v)))
    {
      SameWalks(a, b, priced, src, dst, v);
    }
    assert LeastCapped(b, priced, src, dst, w);
  }

  // The router's answers do not depend on the order of the descriptors.
  lemma OrderOfRoutes(g: Graph, es: seq<TransferEdge>, fs: seq<TransferEdge>, priced: bool, src: Space, dst: Space,
                      r: Route)
    requires forall e :: e in es <==> e in fs
    ensures var a, b := DeclareAll(g, es), DeclareAll(g, fs);
            && (Reachable(a, priced, src, dst) <==> Reachable(b, priced, src, dst))
            && (BestRoute(a, priced, src, dst, r) <==> BestRoute(b, priced, src, dst, r))
            && (Answer(a, priced, src, dst, r) <==> Answer(b, priced, src, dst, r))
  {
    hide Answer, BestRoute, Reachable, SameHops;
    OrderOfDeclaring(g, es, fs);
    OrderOfDeclaring(g, fs, es);
    SameRoutes(DeclareAll(g, es), DeclareAll(g, fs), priced, src, dst, r);
    SameRoutes(DeclareAll(g, fs), DeclareAll(g, es), priced, src, dst, r);
    if Answer(DeclareAll(g, es), priced, src, dst, r) {
      SameAnswers(DeclareAll(g, es), DeclareAll(g, fs), priced, src, dst, r);
    }
    if Answer(DeclareAll(g, fs), priced, src, dst, r) {
      SameAnswers(DeclareAll(g, fs), DeclareAll(g, es), priced, src, dst, r);
    }
  }

  // ---- Sums that saturate ----

  // A graph that descriptors alone made.
  ghost predicate FromDescriptors(g: Graph, es: seq<TransferEdge>) {
    g == DeclareAll(Graph(map[], map[]), es)
  }

  lemma PriceBound(g: Graph, es: seq<TransferEdge>, h: Hop)
    requires FromDescriptors(g, es)
    ensures HopKey(g, true, h).cost <= ATTOS_PER_SEC
  {
    hide DeclareAll;
    LeastPrice(Graph(map[], map[]), es, (h.from, h.to));
  }

  // Its prices reach U64_MAX only over more than 18 hops.
  lemma {:induction false} ShortIsPriced(g: Graph, es: seq<TransferEdge>, priced: bool, w: seq<Hop>)
    requires FromDescriptors(g, es)
    ensures WalkKey(g, priced, w).cost <= |w| * ATTOS_PER_SEC
    ensures |w| <= 18 ==> WalkKey(g, priced, w).cost < U64_MAX
  {
    if |w| > 0 {
      ShortIsPriced(g, es, priced, w[..|w| - 1]);
      PriceBound(g, es, w[|w| - 1]);
    }
  }

  // ---- What a declared link costs ----

  // The time a byte takes over a link, in attoseconds. A weight is no time, and neither is a rate per
  // cycle.
  function LinkTime(c: EdgeCost): Option<real> {
    match c
    case Derived => None
    case Rate(bytes, perSecond) =>
      if perSecond && bytes > 0 then Some(ATTOS_PER_SEC as real / bytes as real) else None
    case Fixed(_) => None
    case Shared => Some(0.0)
  }

  // The price is the time, in whole attoseconds.
  lemma PriceIsTime(c: EdgeCost)
    ensures PerByteAttos(c).Some? <==> LinkTime(c).Some?
    ensures PerByteAttos(c).Some? ==>
              PerByteAttos(c).value as real <= LinkTime(c).value < PerByteAttos(c).value as real + 1.0
  {
    if c.Rate? && c.perSecond && c.bytes > 0 {
      var p, b := PerByteAttos(c).value, c.bytes as real;
      RateQuotient(c.bytes, p);
      assert p as real * b <= ATTOS_PER_SEC as real < (p as real + 1.0) * b;
    }
  }

  lemma RateQuotient(bytes: nat, p: nat)
    requires bytes > 0 && p == ATTOS_PER_SEC / bytes
    ensures p * bytes <= ATTOS_PER_SEC < (p + 1) * bytes
  {}

  // A faster link is never dearer.
  lemma FasterIsCheaper(slow: nat, fast: nat)
    requires 0 < slow <= fast
    ensures var p, q := PerByteAttos(Rate(fast, true)), PerByteAttos(Rate(slow, true));
            p.Some? && q.Some? && p.value <= q.value
  {
    var p, q := ATTOS_PER_SEC / fast, ATTOS_PER_SEC / slow;
    RateQuotient(fast, p);
    RateQuotient(slow, q);
    if p > q {
      Scaled(q + 1, p, fast);
      Scaled(slow, fast, q + 1);
    }
  }

  lemma Scaled(x: nat, y: nat, k: nat)
    requires x <= y
    ensures x * k <= y * k
  {}

  predicate Joins(e: TransferEdge, pair: (Space, Space)) {
    (e.from, e.to) == pair
  }

  // The time over the fastest link that the descriptors declare for a pair.
  function Fastest(es: seq<TransferEdge>, pair: (Space, Space)): (r: Option<real>)
    ensures r.None? <==> forall e :: e in es && Joins(e, pair) ==> LinkTime(e.cost).None?
    ensures r.Some? ==> exists e :: e in es && Joins(e, pair) && LinkTime(e.cost) == r
    ensures r.Some? ==> forall e :: e in es && Joins(e, pair) && LinkTime(e.cost).Some? ==>
                          r.value <= LinkTime(e.cost).value
  {
    if |es| == 0 then None
    else
      var n := |es| - 1;
      var rest, t := Fastest(es[..n], pair), LinkTime(es[n].cost);
      assert es == es[..n] + [es[n]];
      if Joins(es[n], pair) && t.Some? && (rest.None? || t.value < rest.value) then t else rest
  }

  // The price of a pair is the time over its fastest link, in whole attoseconds.
  lemma PriceIsFastest(g: Graph, es: seq<TransferEdge>, pair: (Space, Space))
    requires FromDescriptors(g, es)
    ensures pair in g.prices <==> Fastest(es, pair).Some?
    ensures pair in g.prices ==> g.prices[pair] as real <= Fastest(es, pair).value < g.prices[pair] as real + 1.0
  {
    hide DeclareAll, PerByteAttos, LinkTime;
    var none := Graph(map[], map[]);
    LeastPrice(none, es, pair);
    forall c
      ensures PerByteAttos(c).Some? <==> LinkTime(c).Some?
      ensures PerByteAttos(c).Some? ==>
                PerByteAttos(c).value as real <= LinkTime(c).value < PerByteAttos(c).value as real + 1.0
    {
      PriceIsTime(c);
    }
    if Fastest(es, pair).Some? {
      var e :| e in es && Joins(e, pair) && LinkTime(e.cost) == Fastest(es, pair);
      assert Offers(e, pair, PerByteAttos(e.cost).value);
      assert Offered(none, es, pair, PerByteAttos(e.cost).value);
    }
    if pair in g.prices {
      assert Offered(none, es, pair, g.prices[pair]);
      var e :| e in es && Offers(e, pair, g.prices[pair]);
      assert Joins(e, pair) && LinkTime(e.cost).Some?;
    }
  }

  // The time a byte takes along a walk, over the fastest links.
  function TimeAlong(es: seq<TransferEdge>, w: seq<Hop>): real {
    if |w| == 0 then 0.0
    else
      var h := w[|w| - 1];
      var t := Fastest(es, (h.from, h.to));
      TimeAlong(es, w[..|w| - 1]) + if t.Some? then t.value else 0.0
  }

  lemma {:induction false} CostIsTime(g: Graph, es: seq<TransferEdge>, src: Space, dst: Space, w: seq<Hop>)
    requires FromDescriptors(g, es) && IsWalk(g, true, src, dst, w)
    ensures WalkKey(g, true, w).cost as real <= TimeAlong(es, w) <= WalkKey(g, true, w).cost as real + |w| as real
    decreases |w|
  {
    hide DeclareAll, Fastest;
    if |w| > 0 {
      var h := w[|w| - 1];
      CostIsTime(g, es, src, h.from, w[..|w| - 1]);
      PriceIsFastest(g, es, (h.from, h.to));
    }
  }

  // Where links lead to the target, the router's route is the fastest, up to one attosecond for each of
  // its hops.
  lemma FastestRoute(g: Graph, es: seq<TransferEdge>, src: Space, dst: Space, r: Route, v: seq<Hop>)
    requires FromDescriptors(g, es) && Chosen(g, src, dst, r)
    requires IsWalk(g, true, src, dst, v) && WalkKey(g, true, v).cost < U64_MAX
    ensures exists w ::
              Traces(g, true, src, dst, w, r) && TimeAlong(es, w) <= TimeAlong(es, v) + (|r.path| - 1) as real
  {
    hide FromDescriptors, IsWalk, WalkKey, PathCost, TimeAlong;
    assert Reachable(g, true, src, dst);
    var w :| Traces(g, true, src, dst, w, r) && LeastCapped(g, true, src, dst, w);
    assert Leq(Capped(WalkKey(g, true, w)), Capped(WalkKey(g, true, v)));
    CostIsTime(g, es, src, dst, w);
    CostIsTime(g, es, src, dst, v);
  }

  // Without fixed weights every hop weighs one.
  lemma {:induction false} HopsWeighOne(g: Graph, es: seq<TransferEdge>, priced: bool, src: Space, dst: Space,
                                        w: seq<Hop>)
    requires FromDescriptors(g, es) && IsWalk(g, priced, src, dst, w) && forall e :: e in es ==> !e.cost.Fixed?
    ensures WalkKey(g, priced, w).weight == |w|
    decreases |w|
  {
    hide DeclareAll;
    if |w| > 0 {
      var h := w[|w| - 1];
      HopsWeighOne(g, es, priced, src, h.from, w[..|w| - 1]);
      assert Declared(g, false, h);
      DeclaredHops(Graph(map[], map[]), es, h);
      NoHops(h);
    }
  }

  // A fixed weight is the weight of its hop.
  lemma FixedWeighs(g: Graph, es: seq<TransferEdge>, from: Space, to: Space, weight: nat)
    requires FromDescriptors(g, es) && TransferEdge(from, to, Fixed(weight)) in es
    ensures Declared(g, false, Hop(from, to, weight))
  {
    hide DeclareAll;
    DeclaredHops(Graph(map[], map[]), es, Hop(from, to, weight));
    assert Declares(TransferEdge(from, to, Fixed(weight)), Hop(from, to, weight));
  }

  // Two edges whose weights add up to 2^32.
  const LONG_EDGES: seq<TransferEdge> := [TransferEdge(CpuDram, NpuHbm, Fixed(U32_MAX)),
                                          TransferEdge(NpuHbm, GpuHbm, Fixed(1))]

  // No cost that the source can answer with is that of a best route, and every answer has the cost
  // 2^32 - 1.
  lemma SaturatedAnswer(g: Graph, r: Route)
    requires FromDescriptors(g, LONG_EDGES)
    ensures Reachable(g, false, CpuDram, GpuHbm)
    ensures r.cost <= U32_MAX ==> !BestRoute(g, false, CpuDram, GpuHbm, r)
    ensures Answer(g, false, CpuDram, GpuHbm, r) ==> r.cost == U32_MAX
  {
    hide IsWalk, WalkKey, DeclareAll, Answer, Declared, Traces;
    OnlyTwoHops(g);
    var w := [Hop(CpuDram, NpuHbm, U32_MAX), Hop(NpuHbm, GpuHbm, 1)];
    TwoHops(g, w[0], w[1]);
    forall v | IsWalk(g, false, CpuDram, GpuHbm, v)
      ensures WalkKey(g, false, v) == Key(0, U32_MAX + 1)
    {
      OnlyWalk(g, v);
    }
    assert Least(g, false, CpuDram, GpuHbm, w);
    if Answer(g, false, CpuDram, GpuHbm, r) {
      var c := AnswerCost(g, false, CpuDram, GpuHbm, r, w);
    }
  }

  // The hops of that graph.
  ghost predicate TwoEdges(g: Graph) {
    forall h :: Declared(g, false, h) <==> h in {Hop(CpuDram, NpuHbm, U32_MAX), Hop(NpuHbm, GpuHbm, 1)}
  }

  lemma OnlyTwoHops(g: Graph)
    requires FromDescriptors(g, LONG_EDGES)
    ensures TwoEdges(g)
  {
    hide DeclareAll, Declared;
    forall h
      ensures Declared(g, false, h) <==> h in {Hop(CpuDram, NpuHbm, U32_MAX), Hop(NpuHbm, GpuHbm, 1)}
    {
      DeclaredHops(Graph(map[], map[]), LONG_EDGES, h);
      NoHops(h);
      assert LONG_EDGES[0] in LONG_EDGES && LONG_EDGES[1] in LONG_EDGES;
    }
  }

  lemma NoHops(h: Hop)
    ensures !Declared(Graph(map[], map[]), false, h)
  {}

  lemma TwoHops(g: Graph, h: Hop, k: Hop)
    requires Declared(g, false, h) && Declared(g, false, k) && h.to == k.from
    ensures IsWalk(g, false, h.from, k.to, [h, k])
  {
    WalkAppend(g, false, h.from, [], h);
    WalkAppend(g, false, h.from, [h], k);
    assert [] + [h] == [h] && [h] + [k] == [h, k];
  }

  lemma OnlyWalk(g: Graph, v: seq<Hop>)
    requires TwoEdges(g) && IsWalk(g, false, CpuDram, GpuHbm, v)
    ensures WalkKey(g, false, v) == Key(0, U32_MAX + 1)
  {
    var v', h := v[..|v| - 1], v[|v| - 1];
    assert h == Hop(NpuHbm, GpuHbm, 1) && IsWalk(g, false, CpuDram, NpuHbm, v');
    OnlyFirst(g, v');
  }

  lemma OnlyFirst(g: Graph, v: seq<Hop>)
    requires TwoEdges(g) && IsWalk(g, false, CpuDram, NpuHbm, v)
    ensures WalkKey(g, false, v) == Key(0, U32_MAX)
  {
    var v', h := v[..|v| - 1], v[|v| - 1];
    assert h == Hop(CpuDram, NpuHbm, U32_MAX);
    NoneBack(g, v');
    assert v' == [];
  }

  lemma NoneBack(g: Graph, v: seq<Hop>)
    requires TwoEdges(g) && IsWalk(g, false, CpuDram, CpuDram, v)
    ensures |v| == 0
  {
    if |v| > 0 {
      assert false;
    }
  }

  // ---- The matrix ----

  // Every entry is for a pair of known spaces that a route joins.
  ghost predicate Sound(g: Graph, matrix: map<(Space, Space), nat>) {
    forall s, d :: (s, d) in matrix ==> s in Known(g) && d in Known(g) && Reachable(g, false, s, d)
  }

  // The matrix holds the route cost of exactly the joined pairs of known spaces.
  ghost predicate Exact(g: Graph, matrix: map<(Space, Space), nat>) {
    && (forall s, d :: (s, d) in matrix <==> s in Known(g) && d in Known(g) && Reachable(g, false, s, d))
    && (forall s, d :: (s, d) in matrix ==> RouteCost(g, s, d, matrix[(s, d)]))
  }

  // The hops are those of before and the new one.
  lemma HopAdded(g: Graph, from: Space, to: Space, weight: nat)
    ensures forall h :: Declared(AddHop(g, from, to, weight), false, h) <==>
                        Declared(g, false, h) || h == Hop(from, to, weight)
  {
    var hops := if from in g.edges then g.edges[from] else [];
    assert AddHop(g, from, to, weight).edges[from] == hops + [(to, weight)];
  }

  lemma KnownGrows(g: Graph, from: Space, to: Space, weight: nat)
    ensures Known(g) <= Known(AddHop(g, from, to, weight))
  {
    var g' := AddHop(g, from, to, weight);
    forall s | s in Known(g)
      ensures s in Known(g')
    {
      if s !in BUILT_IN && s !in g.edges {
        var u, j :| u in g.edges && 0 <= j < |g.edges[u]| && g.edges[u][j].0 == s;
        assert g'.edges[u][j] == g.edges[u][j];
        KnownHas(g', u, j);
      }
    }
  }

  lemma {:induction false} WalkStays(g: Graph, from: Space, to: Space, weight: nat, src: Space, dst: Space, w: seq<Hop>)
    requires IsWalk(g, false, src, dst, w)
    ensures IsWalk(AddHop(g, from, to, weight), false, src, dst, w)
    decreases |w|
  {
    if |w| > 0 {
      HopAdded(g, from, to, weight);
      WalkStays(g, from, to, weight, src, w[|w| - 1].from, w[..|w| - 1]);
    }
  }

  // A new hop leaves every entry sound.
  lemma AddedIsSound(g: Graph, from: Space, to: Space, weight: nat, matrix: map<(Space, Space), nat>)
    requires Sound(g, matrix)
    ensures Sound(AddHop(g, from, to, weight), matrix)
  {
    KnownGrows(g, from, to, weight);
    forall s, d | (s, d) in matrix
      ensures Reachable(AddHop(g, from, to, weight), false, s, d)
    {
      var w :| IsWalk(g, false, s, d, w);
      WalkStays(g, from, to, weight, s, d, w);
    }
  }

  lemma {:induction false} UnpricedWalk(g: Graph, prices: map<(Space, Space), nat>, src: Space, dst: Space, w: seq<Hop>)
    requires IsWalk(g, false, src, dst, w)
    ensures IsWalk(g.(prices := prices), false, src, dst, w)
    decreases |w|
  {
    if |w| > 0 {
      UnpricedWalk(g, prices, src, w[|w| - 1].from, w[..|w| - 1]);
    }
  }

  // So does a new price.
  lemma PricesAreSound(g: Graph, prices: map<(Space, Space), nat>, matrix: map<(Space, Space), nat>)
    requires Sound(g, matrix)
    ensures Sound(g.(prices := prices), matrix)
  {
    forall s, d | (s, d) in matrix
      ensures Reachable(g.(prices := prices), false, s, d)
    {
      var w :| IsWalk(g, false, s, d, w);
      UnpricedWalk(g, prices, s, d, w);
    }
  }

  // The pairs whose source was taken, and those of `s` whose target was taken.
  ghost predicate Filled(g: Graph, matrix: map<(Space, Space), nat>, todo: set<Space>, s: Space, rest: set<Space>) {
    forall a, d :: a in Known(g) && d in Known(g) && (a !in todo || (a == s && d !in rest)) ==>
      && ((a, d) in matrix <==> Reachable(g, false, a, d))
      && ((a, d) in matrix ==> RouteCost(g, a, d, matrix[(a, d)]))
  }

  lemma FilledIsExact(g: Graph, matrix: map<(Space, Space), nat>, s: Space)
    requires Sound(g, matrix) && Filled(g, matrix, {}, s, Known(g))
    ensures Exact(g, matrix)
  {}

  class TransferCostGraph {
    var graph: Graph
    var matrix: map<(Space, Space), nat>

    ghost predicate Valid()
      reads this
    {
      Sound(graph, matrix)
    }

    constructor ()
      ensures Valid() && graph == Graph(map[], map[]) && matrix == map[]
    {
      graph, matrix := Graph(map[], map[]), map[];
    }

    // add_transfer_edge
    method AddTransferEdge(from: Space, to: Space, weight: nat)
      requires Valid()
      modifies `graph
      ensures Valid() && graph.prices == old(graph).prices
      ensures forall h :: Declared(graph, false, h) <==> Declared(old(graph), false, h) || h == Hop(from, to, weight)
      ensures graph == AddHop(old(graph), from, to, weight)
    {
      HopAdded(graph, from, to, weight);
      AddedIsSound(graph, from, to, weight, matrix);
      var hops := if from in graph.edges then graph.edges[from] else [];
      graph := graph.(edges := graph.edges[from := hops + [(to, weight)]]);
    }

    // apply_descriptor_edges
    method ApplyDescriptorEdges(es: seq<TransferEdge>)
      requires Valid()
      modifies this
      ensures Valid() && graph == DeclareAll(old(graph), es) && matrix == old(matrix)
    {
      hide Sound;
      var i := 0;
      while i < |es|
        invariant 0 <= i <= |es| && graph == DeclareAll(old(graph), es[..i]) && matrix == old(matrix) && Valid()
      {
        var e := es[i];
        assert es[..i + 1][..i] == es[..i];
        AddTransferEdge(e.from, e.to, RoutingWeight(e.cost));
        var price, pair := PerByteAttos(e.cost), (e.from, e.to);
        if price.Some? {
          var cheaper := pair in graph.prices && graph.prices[pair] < price.value;
          var best := if cheaper then graph.prices[pair] else price.value;
          PricesAreSound(graph, graph.prices[pair := best], matrix);
          graph := graph.(prices := graph.prices[pair := best]);
        }
        i := i + 1;
      }
      assert es[..i] == es;
    }

    // precompute_costs
    method PrecomputeCosts()
      requires Valid()
      modifies `matrix
      ensures Valid() && Exact(graph, matrix)
    {
      hide Sound, Filled, Exact, Known;
      var todo := Known(graph);
      StartFilled(graph, matrix, CpuDram);
      while todo != {}
        invariant todo <= Known(graph) && Sound(graph, matrix) && Filled(graph, matrix, todo, CpuDram, Known(graph))
        decreases |todo|
      {
        var s :| s in todo;
        FillRow(s, todo);
        todo := todo - {s};
      }
      FilledIsExact(graph, matrix, CpuDram);
    }

    // One source against every target.
    method FillRow(s: Space, ghost todo: set<Space>)
      requires s in todo && todo <= Known(graph)
      requires Sound(graph, matrix) && Filled(graph, matrix, todo, CpuDram, Known(graph))
      modifies `matrix
      ensures Sound(graph, matrix) && Filled(graph, matrix, todo - {s}, CpuDram, Known(graph))
    {
      hide Sound, Filled, Known;
      var rest := Known(graph);
      RowStarts(graph, matrix, todo, s);
      while rest != {}
        invariant rest <= Known(graph) && Sound(graph, matrix) && Filled(graph, matrix, todo, s, rest)
        decreases |rest|
      {
        var d :| d in rest;
        var r := TransferPath(graph, s, d);
        ghost var was := matrix;
        if r.Some? {
          matrix := matrix[(s, d) := r.value.cost];
          Entered(graph, was, todo, s, rest, d, r.value);
        } else {
          NotEntered(graph, was, todo, s, rest, d);
        }
        rest := rest - {d};
      }
      RowEnds(graph, matrix, todo, s);
    }

    // transfer_cost
    method TransferCost(src: Space, dst: Space) returns (r: Option<nat>)
      requires Exact(graph, matrix)
      ensures r.Some? <==> src in Known(graph) && dst in Known(graph) && Reachable(graph, false, src, dst)
      ensures r.Some? ==> RouteCost(graph, src, dst, r.value)
    {
      r := if (src, dst) in matrix then Some(matrix[(src, dst)]) else None;
    }

    // can_transfer
    method CanTransfer(src: Space, dst: Space) returns (ok: bool)
      requires Exact(graph, matrix)
      ensures ok <==> src in Known(graph) && dst in Known(graph) && Reachable(graph, false, src, dst)
    {
      ok := (src, dst) in matrix;
    }
  }

  lemma StartFilled(g: Graph, matrix: map<(Space, Space), nat>, s: Space)
    ensures Filled(g, matrix, Known(g), s, Known(g))
  {}

  lemma RowStarts(g: Graph, matrix: map<(Space, Space), nat>, todo: set<Space>, s: Space)
    requires Filled(g, matrix, todo, CpuDram, Known(g)) && todo <= Known(g) && s in todo
    ensures Filled(g, matrix, todo, s, Known(g))
  {
    hide Reachable, RouteCost, Known;
  }

  lemma RowEnds(g: Graph, matrix: map<(Space, Space), nat>, todo: set<Space>, s: Space)
    requires Filled(g, matrix, todo, s, {}) && s in todo && todo <= Known(g)
    ensures Filled(g, matrix, todo - {s}, CpuDram, Known(g))
  {
    hide Reachable, RouteCost, Known;
  }

  lemma Entered(g: Graph, matrix: map<(Space, Space), nat>, todo: set<Space>, s: Space, rest: set<Space>, d: Space,
                r: Route)
    requires Sound(g, matrix) && Filled(g, matrix, todo, s, rest) && d in rest && rest <= Known(g) && s in Known(g)
    requires Reachable(g, false, s, d) && Chosen(g, s, d, r)
    ensures var m := matrix[(s, d) := r.cost]; Sound(g, m) && Filled(g, m, todo, s, rest - {d})
  {
    hide Reachable, Chosen, Known;
    assert RouteCost(g, s, d, r.cost);
  }

  lemma NotEntered(g: Graph, matrix: map<(Space, Space), nat>, todo: set<Space>, s: Space, rest: set<Space>, d: Space)
    requires Sound(g, matrix) && Filled(g, matrix, todo, s, rest) && d in rest && rest <= Known(g) && s in Known(g)
    requires !Reachable(g, false, s, d)
    ensures Filled(g, matrix, todo, s, rest - {d})
  {
    hide Reachable, Known;
  }
}
