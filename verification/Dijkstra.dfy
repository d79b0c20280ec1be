// TransferCostGraph::search (src/arch.rs): one Dijkstra pass with a heap that
// keeps stale entries, and an exit as soon as the target is popped.
module Dijkstra {
  import opened Options
  import opened Routing

  lemma LeqTrans(a: Key, b: Key, c: Key)
    requires Leq(a, b) && Leq(b, c)
    ensures Leq(a, c)
  {}

  // A sum is no less than its parts, and below U64_MAX it keeps the order.
  lemma LeqPlus(a: Key, b: Key, h: Key)
    requires Leq(a, b) && Within(b)
    ensures Leq(a, PlusSaturating(b, h))
    ensures b.cost + h.cost < U64_MAX ==> Leq(PlusSaturating(a, h), PlusSaturating(b, h))
  {}

  // The sums of a walk with one more hop.
  lemma CappedStep(a: Key, h: Key)
    ensures PlusSaturating(Capped(a), h) == Capped(Plus(a, h)) && Within(Capped(a))
  {}

  // The invariant of the search between two pops.
  ghost predicate Searching(g: Graph, priced: bool, src: Space, t: Tables) {
    Rooted(g, priced, src, t) && Ranked(t) && Queued(t) && Ordered(t)
  }

  function Remove(heap: seq<Entry>, i: nat): (r: seq<Entry>)
    requires i < |heap|
    ensures |r| == |heap| - 1
  {
    heap[..i] + heap[i + 1..]
  }

  lemma RemoveKeeps(heap: seq<Entry>, i: nat, e: Entry)
    requires i < |heap|
    ensures e in Remove(heap, i) ==> e in heap
    ensures e in heap && e != heap[i] ==> e in Remove(heap, i)
    ensures (forall j, k :: 0 <= j < k < |heap| ==> heap[j] != heap[k]) ==> heap[i] !in Remove(heap, i)
  {
    assert heap == heap[..i] + [heap[i]] + heap[i + 1..];
  }

  lemma RemoveDistinct(heap: seq<Entry>, i: nat)
    requires i < |heap| && forall j, k :: 0 <= j < k < |heap| ==> heap[j] != heap[k]
    ensures var r := Remove(heap, i); forall j, k :: 0 <= j < k < |r| ==> r[j] != r[k]
  {
    var r := Remove(heap, i);
    forall j, k | 0 <= j < k < |r|
      ensures r[j] != r[k]
    {
      assert r[j] == heap[if j < i then j else j + 1] && r[k] == heap[if k < i then k else k + 1];
    }
  }

  // A stale entry can be dropped.
  lemma DropStale(g: Graph, priced: bool, src: Space, t: Tables, i: nat)
    requires Searching(g, priced, src, t) && i < |t.heap|
    requires t.heap[i].key != t.dists[t.heap[i].mem]
    ensures Searching(g, priced, src, t.(heap := Remove(t.heap, i)))
  {
    var t' := t.(heap := Remove(t.heap, i));
    forall e ensures (e in t'.heap ==> e in t.heap) && (e in t.heap && e != t.heap[i] ==> e in t'.heap) {
      RemoveKeeps(t.heap, i, e);
    }
    RemoveDistinct(t.heap, i);
    SameButHeap(g, priced, src, t, t');
  }

  // Only the heap moved.
  lemma SameButHeap(g: Graph, priced: bool, src: Space, t: Tables, t': Tables)
    requires Rooted(g, priced, src, t) && Ranked(t) && t' == t.(heap := t'.heap)
    ensures Rooted(g, priced, src, t') && Ranked(t')
  {
    forall v | v in t'.dists && v != src
      ensures exists weight :: HasPred(g, priced, t', v, weight)
    {
      var weight :| HasPred(g, priced, t, v, weight);
      assert HasPred(g, priced, t', v, weight);
    }
  }

  ghost predicate Smallest(heap: seq<Entry>, i: nat) {
    i < |heap| && forall j :: 0 <= j < |heap| ==> Leq(heap[i].key, heap[j].key)
  }

  // The tables once the space at heap position `i` is done.
  function Settle(t: Tables, i: nat): Tables
    requires i < |t.heap|
  {
    t.(heap := Remove(t.heap, i), done := t.done + {t.heap[i].mem}, rank := t.rank[t.heap[i].mem := |t.done|])
  }

  lemma SettleQueued(t: Tables, i: nat)
    requires Queued(t) && Smallest(t.heap, i) && t.heap[i].key == t.dists[t.heap[i].mem]
    ensures Queued(Settle(t, i))
  {
    var t' := Settle(t, i);
    forall e ensures (e in t'.heap ==> e in t.heap) && (e in t.heap && e != t.heap[i] ==> e in t'.heap)
    && t.heap[i] !in t'.heap {
      RemoveKeeps(t.heap, i, e);
    }
    RemoveDistinct(t.heap, i);
  }

  lemma SettleOrdered(t: Tables, i: nat)
    requires t.done <= t.dists.Keys && Queued(t) && Ordered(t) && Smallest(t.heap, i)
    requires t.heap[i].key == t.dists[t.heap[i].mem]
    ensures Settle(t, i).done <= t.dists.Keys && Ordered(Settle(t, i))
  {
    var t' := Settle(t, i);
    forall e | e in t'.heap
      ensures e in t.heap && Leq(t.heap[i].key, e.key)
    {
      RemoveKeeps(t.heap, i, e);
    }
  }

  lemma SettleRooted(g: Graph, priced: bool, src: Space, t: Tables, i: nat)
    requires Rooted(g, priced, src, t) && i < |t.heap| && t.heap[i].mem in t.dists
    ensures Rooted(g, priced, src, Settle(t, i))
  {
    var t' := Settle(t, i);
    forall v | v in t'.dists && v != src
      ensures exists weight :: HasPred(g, priced, t', v, weight)
    {
      var weight :| HasPred(g, priced, t, v, weight);
      assert HasPred(g, priced, t', v, weight);
    }
  }

  ghost predicate PredsDone(t: Tables) {
    forall v :: v in t.preds ==> t.preds[v] in t.done
  }

  lemma RootedPreds(g: Graph, priced: bool, src: Space, t: Tables)
    requires Rooted(g, priced, src, t)
    ensures PredsDone(t)
  {
    forall v | v in t.preds
      ensures t.preds[v] in t.done
    {
      var weight :| HasPred(g, priced, t, v, weight);
    }
  }

  lemma SettleRanked(t: Tables, i: nat)
    requires Ranked(t) && PredsDone(t) && i < |t.heap| && t.heap[i].mem !in t.done
    ensures Ranked(Settle(t, i))
  {
    assert |Settle(t, i).done| == |t.done| + 1;
  }

  // Popping a fresh entry makes its space done, with no hop relaxed yet.
  lemma SettleStep(g: Graph, priced: bool, src: Space, t: Tables, i: nat)
    requires Searching(g, priced, src, t) && RelaxedAll(g, priced, t)
    requires Smallest(t.heap, i) && t.heap[i].key == t.dists[t.heap[i].mem]
    ensures t.heap[i].mem !in t.done
    ensures Searching(g, priced, src, Settle(t, i))
    ensures RelaxedBut(g, priced, Settle(t, i), t.heap[i].mem, 0)
  {
    assert t.heap[i] in t.heap;
    SettleQueued(t, i);
    SettleOrdered(t, i);
    SettleRooted(g, priced, src, t, i);
    RootedPreds(g, priced, src, t);
    SettleRanked(t, i);
    var u, t' := t.heap[i].mem, Settle(t, i);
    forall v | v in t'.done
      ensures RelaxedHops(g, priced, t', v, if v == u then 0 else OutDegree(g, v))
    {
      if v != u {
        assert RelaxedHops(g, priced, t, v, OutDegree(g, v));
      }
    }
  }

  // ---- Relaxing one hop ----

  function Improve(t: Tables, u: Space, v: Space, k: Key): Tables {
    t.(dists := t.dists[v := k], preds := t.preds[v := u], heap := t.heap + [Entry(k, v)])
  }

  // `k` is the distance of `v` by hop `h` of the done space `u`, and is better
  // than what the tables hold.
  ghost predicate Improves(g: Graph, priced: bool, t: Tables, h: Hop, k: Key) {
    && h.from in t.done && h.from in t.dists && Declared(g, priced, h)
    && k == PlusSaturating(t.dists[h.from], HopKey(g, priced, h))
    && (h.to in t.dists ==> Less(k, t.dists[h.to]))
  }

  // Every done space is no farther than `u`, whose hops are being relaxed.
  ghost predicate Latest(t: Tables, u: Space)
    requires t.done <= t.dists.Keys
  {
    u in t.done && forall v :: v in t.done ==> Leq(t.dists[v], t.dists[u])
  }

  lemma ImproveNew(g: Graph, priced: bool, src: Space, t: Tables, h: Hop, k: Key)
    requires Rooted(g, priced, src, t) && Latest(t, h.from) && Improves(g, priced, t, h, k)
    ensures h.to !in t.done && h.to != src
  {
    LeqPlus(t.dists[h.from], t.dists[h.from], HopKey(g, priced, h));
  }

  lemma ImprovePred(g: Graph, priced: bool, t: Tables, h: Hop, k: Key, v: Space, weight: nat)
    requires Improves(g, priced, t, h, k) && h.to !in t.done && HasPred(g, priced, t, v, weight) && v != h.to
    ensures HasPred(g, priced, Improve(t, h.from, h.to, k), v, weight)
  {}

  lemma ImproveRooted(g: Graph, priced: bool, src: Space, t: Tables, h: Hop, k: Key)
    requires Rooted(g, priced, src, t) && Improves(g, priced, t, h, k) && h.to !in t.done && h.to != src
    ensures Rooted(g, priced, src, Improve(t, h.from, h.to, k))
  {
    hide HasPred, HopKey;
    var t' := Improve(t, h.from, h.to, k);
    forall v | v in t'.dists && v != src
      ensures exists weight :: HasPred(g, priced, t', v, weight)
    {
      if v == h.to {
        ImprovedPred(g, priced, t, h, k);
      } else {
        var weight :| HasPred(g, priced, t, v, weight);
        ImprovePred(g, priced, t, h, k, v, weight);
      }
    }
  }

  lemma ImprovedPred(g: Graph, priced: bool, t: Tables, h: Hop, k: Key)
    requires Improves(g, priced, t, h, k) && h.to !in t.done
    ensures HasPred(g, priced, Improve(t, h.from, h.to, k), h.to, h.weight)
  {
    assert h == Hop(h.from, h.to, h.weight);
  }

  lemma ImproveRanked(g: Graph, priced: bool, t: Tables, h: Hop, k: Key)
    requires Ranked(t) && Improves(g, priced, t, h, k) && h.to !in t.done
    ensures Ranked(Improve(t, h.from, h.to, k))
  {}

  lemma ImproveQueued(g: Graph, priced: bool, t: Tables, h: Hop, k: Key)
    requires Queued(t) && Improves(g, priced, t, h, k) && h.to !in t.done
    ensures Queued(Improve(t, h.from, h.to, k))
  {
    var t' := Improve(t, h.from, h.to, k);
    assert Entry(k, h.to) !in t.heap;
    assert t'.heap[|t.heap|] == Entry(k, h.to);
    forall v | v in t'.dists && v !in t'.done
      ensures Entry(t'.dists[v], v) in t'.heap
    {
      if v != h.to { assert Entry(t.dists[v], v) in t.heap; }
    }
  }

  lemma ImproveOrdered(g: Graph, priced: bool, t: Tables, h: Hop, k: Key)
    requires t.done <= t.dists.Keys && Ordered(t) && Latest(t, h.from) && Improves(g, priced, t, h, k)
    requires h.to !in t.done && Within(t.dists[h.from])
    ensures t.done <= Improve(t, h.from, h.to, k).dists.Keys && Ordered(Improve(t, h.from, h.to, k))
  {
    LeqPlus(t.dists[h.from], t.dists[h.from], HopKey(g, priced, h));
    forall u | u in t.done
      ensures Leq(t.dists[u], k)
    {
      LeqTrans(t.dists[u], t.dists[h.from], k);
    }
  }

  // One improvement keeps the invariant of the search.
  lemma ImproveStep(g: Graph, priced: bool, src: Space, t: Tables, h: Hop, k: Key, n: nat)
    requires Searching(g, priced, src, t) && Latest(t, h.from) && Improves(g, priced, t, h, k)
    requires RelaxedBut(g, priced, t, h.from, n) && n < OutDegree(g, h.from) && g.edges[h.from][n] == (h.to, h.weight)
    ensures var t' := Improve(t, h.from, h.to, k);
            Searching(g, priced, src, t') && Latest(t', h.from) && RelaxedBut(g, priced, t', h.from, n + 1)
  {
    hide Queued, Ranked, Ordered, RelaxedBut;
    ImproveNew(g, priced, src, t, h, k);
    ImproveRooted(g, priced, src, t, h, k);
    ImproveRanked(g, priced, t, h, k);
    ImproveQueued(g, priced, t, h, k);
    ImproveOrdered(g, priced, t, h, k);
    ImproveRelaxed(g, priced, src, t, h, k, n);
  }

  lemma ImproveRelaxed(g: Graph, priced: bool, src: Space, t: Tables, h: Hop, k: Key, n: nat)
    requires Rooted(g, priced, src, t) && Latest(t, h.from) && Improves(g, priced, t, h, k)
    requires RelaxedBut(g, priced, t, h.from, n) && n < OutDegree(g, h.from) && g.edges[h.from][n] == (h.to, h.weight)
    ensures t.done <= Improve(t, h.from, h.to, k).dists.Keys
    ensures RelaxedBut(g, priced, Improve(t, h.from, h.to, k), h.from, n + 1)
  {
    ImproveNew(g, priced, src, t, h, k);
    var t' := Improve(t, h.from, h.to, k);
    forall v | v in t'.done
      ensures RelaxedHops(g, priced, t', v, if v == h.from then n + 1 else OutDegree(g, v))
    {
      assert RelaxedHops(g, priced, t, v, if v == h.from then n else OutDegree(g, v));
      ImproveHops(g, priced, t, h, k, v, if v == h.from then n else OutDegree(g, v));
    }
  }

  lemma ImproveHops(g: Graph, priced: bool, t: Tables, h: Hop, k: Key, v: Space, n: nat)
    requires v in t.dists && v != h.to && Improves(g, priced, t, h, k) && RelaxedHops(g, priced, t, v, n)
    ensures RelaxedHops(g, priced, Improve(t, h.from, h.to, k), v, n)
    ensures v == h.from && n < OutDegree(g, v) && g.edges[v][n] == (h.to, h.weight) ==>
              RelaxedHops(g, priced, Improve(t, h.from, h.to, k), v, n + 1)
  {}

  // A hop that improves nothing was relaxed already.
  lemma SkipHop(g: Graph, priced: bool, t: Tables, u: Space, n: nat)
    requires t.done <= t.dists.Keys && RelaxedBut(g, priced, t, u, n) && u in t.done && n < OutDegree(g, u)
    requires var h := Hop(u, g.edges[u][n].0, g.edges[u][n].1);
             Declared(g, priced, h) ==>
               h.to in t.dists && Leq(t.dists[h.to], PlusSaturating(t.dists[u], HopKey(g, priced, h)))
    ensures RelaxedBut(g, priced, t, u, n + 1)
  {
    forall v | v in t.done
      ensures RelaxedHops(g, priced, t, v, if v == u then n + 1 else OutDegree(g, v))
    {
      assert RelaxedHops(g, priced, t, v, if v == u then n else OutDegree(g, v));
    }
  }

  // ---- What the invariant gives ----

  // Any walk from the source that costs less than U64_MAX ends in a done space no nearer than its
  // distance, or is no shorter than something in the heap.
  lemma {:induction false} Frontier(g: Graph, priced: bool, src: Space, t: Tables, x: Space, w: seq<Hop>)
    requires Searching(g, priced, src, t) && RelaxedAll(g, priced, t) && IsWalk(g, priced, src, x, w)
    requires WalkKey(g, priced, w).cost < U64_MAX
    ensures (x in t.done && Leq(t.dists[x], Capped(WalkKey(g, priced, w))))
         || exists e :: e in t.heap && Leq(e.key, Capped(WalkKey(g, priced, w)))
    decreases |w|
  {
    if |w| == 0 {
      if src !in t.done {
        assert Entry(t.dists[src], src) in t.heap;
      }
    } else {
      var h, w' := w[|w| - 1], w[..|w| - 1];
      Frontier(g, priced, src, t, h.from, w');
      var a, b := WalkKey(g, priced, w'), HopKey(g, priced, h);
      CappedStep(a, b);
      if h.from in t.done && Leq(t.dists[h.from], Capped(a)) {
        FrontierStep(g, priced, t, h, Capped(a));
      } else {
        var e :| e in t.heap && Leq(e.key, Capped(a));
        LeqPlus(e.key, Capped(a), b);
      }
    }
  }

  lemma FrontierStep(g: Graph, priced: bool, t: Tables, h: Hop, a: Key)
    requires t.done <= t.dists.Keys && Queued(t) && RelaxedAll(g, priced, t)
    requires Declared(g, priced, h) && h.from in t.done && Leq(t.dists[h.from], a)
    requires Within(a) && a.cost + HopKey(g, priced, h).cost < U64_MAX
    ensures h.to in t.dists && Leq(t.dists[h.to], PlusSaturating(a, HopKey(g, priced, h)))
    ensures h.to in t.done || (Entry(t.dists[h.to], h.to) in t.heap)
  {
    HopRelaxed(g, priced, t, h);
    LeqPlus(t.dists[h.from], a, HopKey(g, priced, h));
    LeqTrans(t.dists[h.to], PlusSaturating(t.dists[h.from], HopKey(g, priced, h)),
             PlusSaturating(a, HopKey(g, priced, h)));
  }

  lemma HopRelaxed(g: Graph, priced: bool, t: Tables, h: Hop)
    requires t.done <= t.dists.Keys && RelaxedAll(g, priced, t) && Declared(g, priced, h) && h.from in t.done
    ensures h.to in t.dists && Leq(t.dists[h.to], PlusSaturating(t.dists[h.from], HopKey(g, priced, h)))
  {
    assert RelaxedHops(g, priced, t, h.from, OutDegree(g, h.from));
    var j :| 0 <= j < |g.edges[h.from]| && g.edges[h.from][j] == (h.to, h.weight);
    assert h == Hop(h.from, g.edges[h.from][j].0, g.edges[h.from][j].1);
  }

  // With an empty heap every walk ends in a done space.
  lemma {:induction false} WalkIsDone(g: Graph, priced: bool, src: Space, t: Tables, x: Space, w: seq<Hop>)
    requires Searching(g, priced, src, t) && RelaxedAll(g, priced, t) && t.heap == [] && IsWalk(g, priced, src, x, w)
    ensures x in t.done
    decreases |w|
  {
    if |w| > 0 {
      var h := w[|w| - 1];
      WalkIsDone(g, priced, src, t, h.from, w[..|w| - 1]);
      HopRelaxed(g, priced, t, h);
    }
    assert forall v :: v in t.dists && v !in t.done ==> Entry(t.dists[v], v) in t.heap;
  }

  // So nothing outside `done` can be reached.
  lemma Exhausted(g: Graph, priced: bool, src: Space, t: Tables, dst: Space)
    requires Searching(g, priced, src, t) && RelaxedAll(g, priced, t) && t.heap == [] && dst !in t.done
    ensures !Reachable(g, priced, src, dst)
  {
    if Reachable(g, priced, src, dst) {
      var w :| IsWalk(g, priced, src, dst, w);
      WalkIsDone(g, priced, src, t, dst, w);
    }
  }

  // The smallest entry of a space that is not done holds its distance.
  lemma PoppedIsFresh(t: Tables, i: nat)
    requires Queued(t) && Smallest(t.heap, i) && t.heap[i].mem !in t.done
    ensures t.heap[i].mem in t.dists && t.heap[i].key == t.dists[t.heap[i].mem]
  {
    var m := t.heap[i].mem;
    assert t.heap[i] in t.heap;
    assert Entry(t.dists[m], m) in t.heap;
    var j :| 0 <= j < |t.heap| && t.heap[j] == Entry(t.dists[m], m);
    assert Leq(t.heap[i].key, t.heap[j].key);
  }

  lemma SmallestLeq(heap: seq<Entry>, i: nat, e: Entry, k: Key)
    requires Smallest(heap, i) && e in heap && Leq(e.key, k)
    ensures Leq(heap[i].key, k)
  {
    var j :| 0 <= j < |heap| && heap[j] == e;
    LeqTrans(heap[i].key, heap[j].key, k);
  }

  // That distance is the least over all walks that cost less than U64_MAX.
  lemma PoppedIsLeast(g: Graph, priced: bool, src: Space, t: Tables, i: nat, v: seq<Hop>)
    requires Searching(g, priced, src, t) && RelaxedAll(g, priced, t) && Smallest(t.heap, i)
    requires t.heap[i].mem !in t.done && IsWalk(g, priced, src, t.heap[i].mem, v)
    requires WalkKey(g, priced, v).cost < U64_MAX
    ensures Leq(t.heap[i].key, Capped(WalkKey(g, priced, v)))
  {
    hide Queued, Ordered, Ranked, RelaxedAll, Capped;
    Frontier(g, priced, src, t, t.heap[i].mem, v);
    var e :| e in t.heap && Leq(e.key, Capped(WalkKey(g, priced, v)));
    SmallestLeq(t.heap, i, e, Capped(WalkKey(g, priced, v)));
  }

  // ---- The route ----

  // The stops from the source to `v`, along the predecessors.
  ghost function TreePath(t: Tables, src: Space, v: Space, fuel: nat): seq<Space>
    decreases fuel
  {
    if v == src || fuel == 0 || v !in t.preds then [v] else TreePath(t, src, t.preds[v], fuel - 1) + [v]
  }

  function RankOf(t: Tables, v: Space): nat {
    if v in t.rank then t.rank[v] else |t.done|
  }

  // The predecessors trace a walk of exactly the recorded distance, over hops of least weight.
  lemma {:induction false} TreeWalk(g: Graph, priced: bool, src: Space, t: Tables, v: Space, fuel: nat)
    returns (w: seq<Hop>)
    requires Rooted(g, priced, src, t) && Ranked(t) && RelaxedAll(g, priced, t) && v in t.dists && fuel > RankOf(t, v)
    ensures IsWalk(g, priced, src, v, w) && Capped(WalkKey(g, priced, w)) == t.dists[v]
    ensures Stops(src, w) == TreePath(t, src, v, fuel) && WalkKey(g, priced, w).weight == PathCost(g, Stops(src, w))
    decreases fuel
  {
    hide Rooted, Ranked, RankOf, RelaxedAll, IsWalk, WalkKey, Stops, PathCost, HopKey, Capped, PlusSaturating;
    if v == src {
      w := [];
      RootedAt(g, priced, src, t);
      EmptyWalk(g, priced, src);
    } else {
      var h := PredHop(g, priced, src, t, v);
      var w' := TreeWalk(g, priced, src, t, h.from, fuel - 1);
      w := w' + [h];
      PathAppend(g, priced, src, w', h);
      WalkAppend(g, priced, src, w', h);
      CappedStep(WalkKey(g, priced, w'), HopKey(g, priced, h));
      assert Plus(WalkKey(g, priced, w'), HopKey(g, priced, h)).weight == WalkKey(g, priced, w').weight + h.weight by {
        HopWeight(g, priced, h);
      }
    }
  }

  lemma EmptyWalk(g: Graph, priced: bool, src: Space)
    ensures IsWalk(g, priced, src, src, []) && WalkKey(g, priced, []) == Capped(Key(0, 0)) == Key(0, 0)
    ensures Stops(src, []) == [src] && PathCost(g, [src]) == 0 && Capped(WalkKey(g, priced, [])) == Key(0, 0)
  {}

  lemma HopWeight(g: Graph, priced: bool, h: Hop)
    ensures HopKey(g, priced, h).weight == h.weight
  {}

  lemma RootedAt(g: Graph, priced: bool, src: Space, t: Tables)
    requires Rooted(g, priced, src, t)
    ensures src in t.dists && t.dists[src] == Key(0, 0)
  {}

  // The hop to a space from its predecessor. It can be one of least weight.
  lemma PredHop(g: Graph, priced: bool, src: Space, t: Tables, v: Space) returns (h: Hop)
    requires Rooted(g, priced, src, t) && Ranked(t) && RelaxedAll(g, priced, t) && v in t.dists && v != src
    ensures v in t.preds && h.from == t.preds[v] && h.to == v && Declared(g, priced, h)
    ensures h.from in t.done && h.from in t.dists && RankOf(t, h.from) < RankOf(t, v)
    ensures t.dists[v] == PlusSaturating(t.dists[h.from], HopKey(g, priced, h))
    ensures DirectEdgeWeight(g, h.from, h.to) == Some(h.weight)
  {
    hide RelaxedAll, DirectEdgeWeight;
    var weight :| HasPred(g, priced, t, v, weight);
    var p := t.preds[v];
    assert Declared(g, false, Hop(p, v, weight));
    h := Hop(p, v, DirectEdgeWeight(g, p, v).value);
    HopRelaxed(g, priced, t, h);
  }

  function Reversed(s: seq<Space>): seq<Space> {
    if |s| == 0 then [] else [s[|s| - 1]] + Reversed(s[..|s| - 1])
  }

  // Follow the predecessors back to the source, then reverse.
  method Rebuild(g: Graph, priced: bool, src: Space, dst: Space, t: Tables) returns (path: seq<Space>)
    requires Rooted(g, priced, src, t) && Ranked(t) && dst in t.dists
    ensures path == TreePath(t, src, dst, |t.done| + 1)
  {
    hide Rooted, Ranked, RankOf;
    var rev, curr := [], dst;
    ghost var fuel := |t.done| + 1;
    RankBound(t, dst);
    while curr != src
      invariant curr in t.dists && fuel > RankOf(t, curr)
      invariant TreePath(t, src, dst, |t.done| + 1) == TreePath(t, src, curr, fuel) + Reversed(rev)
      decreases fuel
    {
      PredRank(g, priced, src, t, curr);
      ReversedAppend(rev, curr);
      rev := rev + [curr];
      curr := t.preds[curr];
      fuel := fuel - 1;
    }
    ReversedAppend(rev, src);
    path := Reversed(rev + [src]);
  }

  lemma RankBound(t: Tables, v: Space)
    requires Ranked(t)
    ensures RankOf(t, v) < |t.done| + 1
  {}

  lemma PredRank(g: Graph, priced: bool, src: Space, t: Tables, v: Space)
    requires Rooted(g, priced, src, t) && Ranked(t) && v in t.dists && v != src
    ensures v in t.preds && t.preds[v] in t.dists && RankOf(t, t.preds[v]) < RankOf(t, v)
  {
    var weight :| HasPred(g, priced, t, v, weight);
  }

  lemma ReversedAppend(s: seq<Space>, x: Space)
    ensures Reversed(s + [x]) == [x] + Reversed(s)
  {
    assert (s + [x])[..|s|] == s;
  }

  // Popping the target ends the search with an answer.
  lemma Found(g: Graph, priced: bool, src: Space, t: Tables, i: nat, path: seq<Space>)
    requires Searching(g, priced, src, t) && RelaxedAll(g, priced, t) && Smallest(t.heap, i) && t.heap[i].mem !in t.done
    requires path == TreePath(t, src, t.heap[i].mem, |t.done| + 1)
    ensures Reachable(g, priced, src, t.heap[i].mem)
    ensures Answer(g, priced, src, t.heap[i].mem, Route(t.heap[i].key.weight, path))
  {
    hide Queued, Ordered, RelaxedAll, Rooted, PathCost, IsWalk, WalkKey, Stops;
    var dst := t.heap[i].mem;
    PoppedIsFresh(t, i);
    var w := TreeWalk(g, priced, src, t, dst, |t.done| + 1);
    assert Traces(g, priced, src, dst, w, Route(t.heap[i].key.weight, path));
    forall v | IsWalk(g, priced, src, dst, v) && WalkKey(g, priced, v).cost < U64_MAX
      ensures Leq(Capped(WalkKey(g, priced, w)), Capped(WalkKey(g, priced, v)))
    {
      PoppedIsLeast(g, priced, src, t, i, v);
    }
    assert LeastCapped(g, priced, src, dst, w);
  }

  // ---- The search ----

  method PopIndex(heap: seq<Entry>) returns (i: nat)
    requires |heap| > 0
    ensures Smallest(heap, i)
  {
    i := 0;
    var j := 1;
    while j < |heap|
      invariant 1 <= j <= |heap| && i < j
      invariant forall k :: 0 <= k < j ==> Leq(heap[i].key, heap[k].key)
    {
      if Less(heap[j].key, heap[i].key) {
        i := j;
      }
      j := j + 1;
    }
  }

  ghost predicate Endpoints(g: Graph, spaces: set<Space>) {
    forall u :: u in g.edges ==> u in spaces && forall j :: 0 <= j < |g.edges[u]| ==> g.edges[u][j].0 in spaces
  }

  // Everything the loop of the search keeps.
  ghost predicate Running(g: Graph, priced: bool, src: Space, t: Tables, spaces: set<Space>) {
    && Searching(g, priced, src, t)
    && t.dists.Keys <= spaces && Endpoints(g, spaces)
  }

  // The body of the neighbour loop.
  method RelaxHop(g: Graph, priced: bool, ghost src: Space, t: Tables, u: Space, j: nat,
                  ghost spaces: set<Space>) returns (t': Tables)
    requires Running(g, priced, src, t, spaces) && t.done <= t.dists.Keys && Latest(t, u)
    requires j < OutDegree(g, u) && RelaxedBut(g, priced, t, u, j)
    ensures Running(g, priced, src, t', spaces) && t'.done == t.done
    ensures t'.done <= t'.dists.Keys && Latest(t', u) && RelaxedBut(g, priced, t', u, j + 1)
  {
    var h := Hop(u, g.edges[u][j].0, g.edges[u][j].1);
    if priced && (u, h.to) !in g.prices {
      SkipHop(g, priced, t, u, j);
      return t;
    }
    var k := PlusSaturating(t.dists[u], HopKey(g, priced, h));
    RelaxHopMath(g, priced, src, t, h, j, k, spaces);
    if h.to in t.dists && !Less(k, t.dists[h.to]) {
      t' := t;
    } else {
      t' := Improve(t, u, h.to, k);
    }
  }

  lemma RelaxHopMath(g: Graph, priced: bool, src: Space, t: Tables, h: Hop, j: nat, k: Key, spaces: set<Space>)
    requires Running(g, priced, src, t, spaces) && t.done <= t.dists.Keys && Latest(t, h.from)
    requires j < OutDegree(g, h.from) && RelaxedBut(g, priced, t, h.from, j) && g.edges[h.from][j] == (h.to, h.weight)
    requires priced ==> (h.from, h.to) in g.prices
    requires k == PlusSaturating(t.dists[h.from], HopKey(g, priced, h))
    ensures h.to in t.dists && !Less(k, t.dists[h.to]) ==> RelaxedBut(g, priced, t, h.from, j + 1)
    ensures !(h.to in t.dists && !Less(k, t.dists[h.to])) ==>
              var t' := Improve(t, h.from, h.to, k);
              && Running(g, priced, src, t', spaces)
              && t'.done <= t'.dists.Keys && Latest(t', h.from) && RelaxedBut(g, priced, t', h.from, j + 1)
  {
    hide Searching, RelaxedBut, Ranked, HopKey;
    assert Declared(g, priced, h);
    SearchingParts(g, priced, src, t);
    if h.to in t.dists && !Less(k, t.dists[h.to]) {
      SkipHop(g, priced, t, h.from, j);
    } else {
      assert Improves(g, priced, t, h, k);
      ImproveStep(g, priced, src, t, h, k, j);
      SearchingParts(g, priced, src, Improve(t, h.from, h.to, k));
    }
  }

  lemma SearchingParts(g: Graph, priced: bool, src: Space, t: Tables)
    requires Searching(g, priced, src, t)
    ensures Rooted(g, priced, src, t) && Ranked(t) && Queued(t) && t.done <= t.dists.Keys
  {}

  function Start(src: Space): Tables {
    Tables(map[src := Key(0, 0)], map[], [Entry(Key(0, 0), src)], {}, map[])
  }

  lemma StartSearching(g: Graph, priced: bool, src: Space)
    ensures Searching(g, priced, src, Start(src)) && RelaxedAll(g, priced, Start(src))
  {}

  lemma StartRuns(g: Graph, priced: bool, src: Space)
    ensures Running(g, priced, src, Start(src), Known(g) + {src}) && RelaxedAll(g, priced, Start(src))
  {
    hide Searching, RelaxedAll;
    StartSearching(g, priced, src);
  }

  // A fresh pop: its space is done, and the farthest of the done ones.
  lemma SettleRuns(g: Graph, priced: bool, src: Space, t: Tables, i: nat, spaces: set<Space>)
    requires Running(g, priced, src, t, spaces) && RelaxedAll(g, priced, t)
    requires Smallest(t.heap, i) && t.heap[i].key == t.dists[t.heap[i].mem]
    ensures var t', u := Settle(t, i), t.heap[i].mem;
            && Running(g, priced, src, t', spaces) && t'.done <= t'.dists.Keys
            && Latest(t', u) && RelaxedBut(g, priced, t', u, 0) && u !in t.done && u in spaces
  {
    hide RelaxedBut, RelaxedAll, Ranked, Rooted;
    assert t.heap[i] in t.heap;
    SearchingParts(g, priced, src, t);
    SettleStep(g, priced, src, t, i);
    SettleLatest(t, i);
    SearchingParts(g, priced, src, Settle(t, i));
  }

  lemma SettleLatest(t: Tables, i: nat)
    requires t.done <= t.dists.Keys && Ordered(t) && i < |t.heap| && t.heap[i].mem in t.dists
    requires t.heap[i].key == t.dists[t.heap[i].mem]
    ensures Settle(t, i).done <= t.dists.Keys && Latest(Settle(t, i), t.heap[i].mem)
  {
    assert t.heap[i] in t.heap;
  }

  lemma AllRelaxed(g: Graph, priced: bool, t: Tables, u: Space, n: nat)
    requires t.done <= t.dists.Keys && RelaxedBut(g, priced, t, u, n) && n >= OutDegree(g, u)
    ensures RelaxedAll(g, priced, t)
  {
    forall v | v in t.done
      ensures RelaxedHops(g, priced, t, v, OutDegree(g, v))
    {
      assert RelaxedHops(g, priced, t, v, if v == u then n else OutDegree(g, v));
    }
  }

  // The neighbour loop.
  method RelaxAll(g: Graph, priced: bool, ghost src: Space, t0: Tables, u: Space,
                  ghost spaces: set<Space>) returns (t: Tables)
    requires Running(g, priced, src, t0, spaces) && t0.done <= t0.dists.Keys
    requires Latest(t0, u) && RelaxedBut(g, priced, t0, u, 0)
    ensures Running(g, priced, src, t, spaces) && t.done == t0.done && t.done <= t.dists.Keys
    ensures RelaxedAll(g, priced, t)
  {
    hide Running, Latest, RelaxedBut, RelaxedAll;
    t := t0;
    var j := 0;
    while j < OutDegree(g, u)
      invariant 0 <= j <= OutDegree(g, u)
      invariant Running(g, priced, src, t, spaces) && t.done == t0.done && t.done <= t.dists.Keys
      invariant Latest(t, u) && RelaxedBut(g, priced, t, u, j)
    {
      t := RelaxHop(g, priced, src, t, u, j, spaces);
      j := j + 1;
    }
    AllRelaxed(g, priced, t, u, j);
  }

  lemma RunningParts(g: Graph, priced: bool, src: Space, t: Tables, spaces: set<Space>)
    requires Running(g, priced, src, t, spaces)
    ensures Searching(g, priced, src, t) && Rooted(g, priced, src, t) && Ranked(t) && t.done <= t.dists.Keys
    ensures forall i :: 0 <= i < |t.heap| ==> t.heap[i].mem in t.dists && Leq(t.dists[t.heap[i].mem], t.heap[i].key)
  {
    forall i | 0 <= i < |t.heap|
      ensures t.heap[i].mem in t.dists && Leq(t.dists[t.heap[i].mem], t.heap[i].key)
    {
      assert t.heap[i] in t.heap;
    }
  }

  lemma DropRuns(g: Graph, priced: bool, src: Space, t: Tables, i: nat, spaces: set<Space>)
    requires Running(g, priced, src, t, spaces) && RelaxedAll(g, priced, t) && i < |t.heap|
    requires t.heap[i].mem in t.dists && t.heap[i].key != t.dists[t.heap[i].mem]
    ensures var t' := t.(heap := Remove(t.heap, i));
            Running(g, priced, src, t', spaces) && t'.done <= t'.dists.Keys && RelaxedAll(g, priced, t')
  {
    DropStale(g, priced, src, t, i);
    var t' := t.(heap := Remove(t.heap, i));
    forall v | v in t'.done
      ensures RelaxedHops(g, priced, t', v, OutDegree(g, v))
    {
      assert RelaxedHops(g, priced, t, v, OutDegree(g, v));
    }
  }

  // One pop that is not the target.
  method PopOne(g: Graph, priced: bool, ghost src: Space, t: Tables, i: nat,
                ghost spaces: set<Space>) returns (t': Tables)
    requires Running(g, priced, src, t, spaces) && t.done <= t.dists.Keys && RelaxedAll(g, priced, t)
    requires Smallest(t.heap, i) && t.heap[i].mem in t.dists && Leq(t.dists[t.heap[i].mem], t.heap[i].key)
    ensures Running(g, priced, src, t', spaces) && t'.done <= t'.dists.Keys && RelaxedAll(g, priced, t')
    ensures t'.done <= t.done + {t.heap[i].mem}
    ensures (t'.done == t.done && |t'.heap| < |t.heap|) ||
            (t'.done == t.done + {t.heap[i].mem} && t.heap[i].mem in spaces && t.heap[i].mem !in t.done)
  {
    SmallestInside(t.heap, i);
    hide Running, RelaxedAll, RelaxedBut, Latest, Smallest;
    var u := t.heap[i].mem;
    if Less(t.dists[u], t.heap[i].key) {
      DropRuns(g, priced, src, t, i, spaces);
      return t.(heap := Remove(t.heap, i));
    }
    SettleRuns(g, priced, src, t, i, spaces);
    t' := RelaxAll(g, priced, src, Settle(t, i), u, spaces);
  }

  // TransferCostGraph::search.
  method Search(g: Graph, src: Space, dst: Space, priced: bool) returns (r: Option<Route>)
    ensures r.None? <==> !Reachable(g, priced, src, dst)
    ensures r.Some? ==> Answer(g, priced, src, dst, r.value)
  {
    hide Running, RelaxedAll, Smallest, Searching, Rooted, Ranked, Answer, Reachable;
    ghost var spaces := Known(g) + {src};
    var t := Start(src);
    StartRuns(g, priced, src);
    while |t.heap| > 0
      invariant Running(g, priced, src, t, spaces) && t.done <= t.dists.Keys
      invariant RelaxedAll(g, priced, t) && dst !in t.done
      decreases |spaces - t.done|, |t.heap|
    {
      var i := PopIndex(t.heap);
      SmallestInside(t.heap, i);
      RunningParts(g, priced, src, t, spaces);
      if t.heap[i].mem == dst {
        var path := Rebuild(g, priced, src, dst, t);
        Found(g, priced, src, t, i, path);
        r := Some(Route(t.heap[i].key.weight, path));
        return;
      }
      ghost var before, u := t.done, t.heap[i].mem;
      t := PopOne(g, priced, src, t, i, spaces);
      if t.done != before {
        Shrinks(spaces, before, u);
      }
    }
    RunningParts(g, priced, src, t, spaces);
    Exhausted(g, priced, src, t, dst);
    r := None;
  }

  lemma SmallestInside(heap: seq<Entry>, i: nat)
    requires Smallest(heap, i)
    ensures i < |heap|
  {}

  lemma Shrinks(spaces: set<Space>, done: set<Space>, u: Space)
    requires u in spaces && u !in done
    ensures |spaces - (done + {u})| < |spaces - done|
  {
    assert spaces - done == (spaces - (done + {u})) + {u};
  }
}
