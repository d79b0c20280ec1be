// Groups of views that share memory: chains of byte overlaps, and the links of
// the small union-find that vx_view_copy_plan keeps in the views.
module Overlap {

  // The bytes a view reaches. `bytes` is 0 for an empty view.
  datatype Extent = Extent(start: int, bytes: int)

  predicate Overlaps(a: Extent, b: Extent) {
    a.bytes > 0 && b.bytes > 0 && a.start < b.start + b.bytes && b.start < a.start + a.bytes
  }

  predicate Touches(e: Extent, x: int) {
    e.start <= x < e.start + e.bytes
  }

  // Two views overlap exactly when they reach a byte in common.
  lemma OverlapsIff(a: Extent, b: Extent)
    ensures Overlaps(a, b) <==> exists x :: Touches(a, x) && Touches(b, x)
  {
    if Overlaps(a, b) {
      var x := if a.start < b.start then b.start else a.start;
      assert Touches(a, x) && Touches(b, x);
    }
  }

  // Each view of the chain shares a byte with the next.
  ghost predicate Chain(ex: seq<Extent>, p: seq<nat>) {
    && |p| >= 1
    && (forall k :: 0 <= k < |p| ==> p[k] < |ex| && ex[p[k]].bytes > 0)
    && (forall k :: 0 < k < |p| ==> Overlaps(ex[p[k - 1]], ex[p[k]]))
  }

  ghost predicate Connected(ex: seq<Extent>, i: nat, j: nat) {
    exists p :: Chain(ex, p) && p[0] == i && p[|p| - 1] == j
  }

  lemma ConnectedSelf(ex: seq<Extent>, i: nat)
    requires i < |ex| && ex[i].bytes > 0
    ensures Connected(ex, i, i)
  {
    var p: seq<nat> := [i];
    assert Chain(ex, p) && p[0] == i && p[|p| - 1] == i;
  }

  lemma ConnectedStep(ex: seq<Extent>, i: nat, j: nat)
    requires i < |ex| && j < |ex| && Overlaps(ex[i], ex[j])
    ensures Connected(ex, i, j)
  {
    var p: seq<nat> := [i, j];
    assert Chain(ex, p) && p[0] == i && p[|p| - 1] == j;
  }

  lemma ConnectedTrans(ex: seq<Extent>, i: nat, j: nat, k: nat)
    requires Connected(ex, i, j) && Connected(ex, j, k)
    ensures Connected(ex, i, k)
  {
    var p :| Chain(ex, p) && p[0] == i && p[|p| - 1] == j;
    var q :| Chain(ex, q) && q[0] == j && q[|q| - 1] == k;
    var r := p + q[1..];
    forall t | 0 < t < |r|
      ensures Overlaps(ex[r[t - 1]], ex[r[t]])
    {
      if t >= |p| {
        assert r[t] == q[t - |p| + 1] && r[t - 1] == q[t - |p|];
      }
    }
    assert Chain(ex, r) && r[0] == i && r[|r| - 1] == k;
  }

  function Backwards(p: seq<nat>): (r: seq<nat>)
    ensures |r| == |p|
    ensures forall k :: 0 <= k < |p| ==> r[k] == p[|p| - 1 - k]
  {
    seq(|p|, k requires 0 <= k < |p| => p[|p| - 1 - k])
  }

  lemma ConnectedSym(ex: seq<Extent>, i: nat, j: nat)
    requires Connected(ex, i, j)
    ensures Connected(ex, j, i)
  {
    var p :| Chain(ex, p) && p[0] == i && p[|p| - 1] == j;
    var r := Backwards(p);
    forall t | 0 < t < |r|
      ensures Overlaps(ex[r[t - 1]], ex[r[t]])
    {
      var u := |p| - t;
      assert Overlaps(ex[p[u - 1]], ex[p[u]]);
    }
    assert Chain(ex, r) && r[0] == j && r[|r| - 1] == i;
  }

  // A chain covers every byte between a start and an end of its views: some view
  // of the chain holds the byte.
  lemma {:induction false} ChainCovers(ex: seq<Extent>, p: seq<nat>, x: int) returns (k: nat)
    requires Chain(ex, p)
    requires ex[p[0]].start <= x < ex[p[|p| - 1]].start + ex[p[|p| - 1]].bytes
    ensures k < |p| && ex[p[k]].start <= x < ex[p[k]].start + ex[p[k]].bytes
    decreases |p|
  {
    if x < ex[p[0]].start + ex[p[0]].bytes {
      k := 0;
    } else {
      assert |p| > 1;
      var q := p[1..];
      assert Overlaps(ex[p[1 - 1]], ex[p[1]]);
      assert Chain(ex, q) by {
        forall t | 0 < t < |q|
          ensures Overlaps(ex[q[t - 1]], ex[q[t]])
        {
          assert Overlaps(ex[p[t + 1 - 1]], ex[p[t + 1]]);
        }
      }
      k := ChainCovers(ex, q, x);
      k := k + 1;
    }
  }

  lemma {:induction false} ChainConnects(ex: seq<Extent>, p: seq<nat>, k: nat)
    requires Chain(ex, p) && k < |p|
    ensures Connected(ex, p[0], p[k])
  {
    var q := p[..k + 1];
    assert Chain(ex, q) && q[0] == p[0] && q[|q| - 1] == p[k];
  }

  // No gaps: a byte between the start of one view of a group and the end of
  // another is a byte of some view of the group.
  lemma GroupCovers(ex: seq<Extent>, i: nat, j: nat, x: int) returns (k: nat)
    requires i < |ex| && j < |ex| && Connected(ex, i, j)
    requires ex[i].start <= x < ex[j].start + ex[j].bytes
    ensures k < |ex| && ex[k].bytes > 0 && Connected(ex, i, k)
    ensures ex[k].start <= x < ex[k].start + ex[k].bytes
  {
    var p :| Chain(ex, p) && p[0] == i && p[|p| - 1] == j;
    var t := ChainCovers(ex, p, x);
    k := p[t];
    ChainConnects(ex, p, t);
  }

  // ---- Links ----

  // A link is below 0 for an empty view, and otherwise goes to a view with an
  // index no larger.
  ghost predicate WellLinked(links: seq<int>) {
    forall i :: 0 <= i < |links| && links[i] >= 0 ==> links[i] <= i && links[links[i]] >= 0
  }

  // vx_view_copy_root on the links.
  function Root(links: seq<int>, i: nat): (r: nat)
    requires WellLinked(links) && i < |links| && links[i] >= 0
    ensures r <= i && links[r] == r
    decreases i
  {
    if links[i] == i then i else Root(links, links[i])
  }

  lemma {:induction false} RootOfRoot(links: seq<int>, i: nat)
    requires WellLinked(links) && i < |links| && links[i] >= 0
    ensures Root(links, Root(links, i)) == Root(links, i)
  {}

  // Linking one root below another moves exactly its group.
  lemma {:induction false} LinkRoot(links: seq<int>, a: nat, b: nat, i: nat)
    requires WellLinked(links) && a < b < |links| && links[a] == a && links[b] == b
    requires i < |links| && links[i] >= 0
    ensures WellLinked(links[b := a])
    ensures Root(links[b := a], i) == if Root(links, i) == b then a else Root(links, i)
    decreases i
  {
    if links[i] != i {
      LinkRoot(links, a, b, links[i]);
    }
  }

  // Every view is chained to its root.
  ghost predicate Sound(links: seq<int>, ex: seq<Extent>)
    requires WellLinked(links) && |links| == |ex|
  {
    forall i :: 0 <= i < |links| && links[i] >= 0 ==> Connected(ex, i, Root(links, i))
  }

  // Views i and j were compared before the pair (a, b) of the double loop.
  predicate Before(i: int, j: int, a: int, b: int) {
    i < a || (i == a && j < b)
  }

  // Overlapping views that were compared have one root.
  ghost predicate Joined(links: seq<int>, ex: seq<Extent>, a: int, b: int)
    requires WellLinked(links) && |links| == |ex|
  {
    forall i, j :: 0 <= j < i < |links| && Before(i, j, a, b) && links[i] >= 0 && links[j] >= 0 ==>
      Overlaps(ex[i], ex[j]) ==> Root(links, i) == Root(links, j)
  }

  // A view has a link exactly when it is not empty.
  ghost predicate LinksFor(links: seq<int>, ex: seq<Extent>) {
    && |links| == |ex| && WellLinked(links)
    && forall i :: 0 <= i < |links| ==> links[i] >= -1 && (links[i] >= 0 <==> ex[i].bytes > 0)
  }

  ghost predicate Progress(links: seq<int>, ex: seq<Extent>, a: int, b: int) {
    LinksFor(links, ex) && Sound(links, ex) && Joined(links, ex, a, b)
  }

  // `a` and `b` are the two roots that the overlapping views i and j join.
  ghost predicate Joins(links: seq<int>, ex: seq<Extent>, i: nat, j: nat, a: nat, b: nat)
    requires LinksFor(links, ex)
  {
    && j < i < |links| && links[i] >= 0 && links[j] >= 0 && Overlaps(ex[i], ex[j]) && a < b
    && ((a == Root(links, i) && b == Root(links, j)) || (a == Root(links, j) && b == Root(links, i)))
  }

  lemma UnionLinks(links: seq<int>, ex: seq<Extent>, i: nat, j: nat, a: nat, b: nat)
    requires LinksFor(links, ex) && Joins(links, ex, i, j, a, b)
    ensures LinksFor(links[b := a], ex)
  {
    LinkRoot(links, a, b, i);
  }

  lemma UnionSound(links: seq<int>, ex: seq<Extent>, i: nat, j: nat, a: nat, b: nat)
    requires LinksFor(links, ex) && Sound(links, ex) && Joins(links, ex, i, j, a, b)
    requires LinksFor(links[b := a], ex)
    ensures Sound(links[b := a], ex)
  {
    ConnectedStep(ex, i, j);
    ConnectedSym(ex, i, j);
    RootsConnected(links, ex, i, j);
    RootsConnected(links, ex, j, i);
    forall x | 0 <= x < |links| && links[x] >= 0
      ensures Connected(ex, x, Root(links[b := a], x))
    {
      LinkRoot(links, a, b, x);
      if Root(links, x) == b {
        ConnectedTrans(ex, x, b, a);
      }
    }
  }

  lemma UnionJoined(links: seq<int>, ex: seq<Extent>, i: nat, j: nat, a: nat, b: nat)
    requires LinksFor(links, ex) && Joined(links, ex, i, j) && Joins(links, ex, i, j, a, b)
    requires LinksFor(links[b := a], ex)
    ensures Joined(links[b := a], ex, i, j + 1)
  {
    var links' := links[b := a];
    forall x, y | 0 <= y < x < |links| && Before(x, y, i, j + 1) && links'[x] >= 0 && links'[y] >= 0
    && Overlaps(ex[x], ex[y])
      ensures Root(links', x) == Root(links', y)
    {
      LinkRoot(links, a, b, x);
      LinkRoot(links, a, b, y);
      assert (x == i && y == j) || Before(x, y, i, j);
    }
  }

  // One union step keeps the invariant and joins the compared pair.
  lemma UnionStep(links: seq<int>, ex: seq<Extent>, i: nat, j: nat, a: nat, b: nat)
    requires Progress(links, ex, i, j) && Joins(links, ex, i, j, a, b)
    ensures Progress(links[b := a], ex, i, j + 1)
  {
    UnionLinks(links, ex, i, j, a, b);
    UnionSound(links, ex, i, j, a, b);
    UnionJoined(links, ex, i, j, a, b);
  }

  // The roots of two connected views are connected.
  lemma RootsConnected(links: seq<int>, ex: seq<Extent>, i: nat, j: nat)
    requires LinksFor(links, ex) && Sound(links, ex)
    requires i < |links| && j < |links| && links[i] >= 0 && links[j] >= 0 && Connected(ex, i, j)
    ensures Connected(ex, Root(links, i), Root(links, j))
  {
    ConnectedSym(ex, i, Root(links, i));
    ConnectedTrans(ex, Root(links, i), i, j);
    ConnectedTrans(ex, Root(links, i), j, Root(links, j));
  }

  // A pair with no overlap, or with one root already, needs no union.
  lemma SkipStep(links: seq<int>, ex: seq<Extent>, i: nat, j: nat)
    requires Progress(links, ex, i, j) && j < i < |links|
    requires links[i] >= 0 && links[j] >= 0 && Overlaps(ex[i], ex[j]) ==> Root(links, i) == Root(links, j)
    ensures Progress(links, ex, i, j + 1)
  {
    forall x, y | 0 <= y < x < |links| && Before(x, y, i, j + 1) && links[x] >= 0 && links[y] >= 0
    && Overlaps(ex[x], ex[y])
      ensures Root(links, x) == Root(links, y)
    {
      if !(x == i && y == j) {
        assert Before(x, y, i, j);
      }
    }
  }

  lemma RowEnd(links: seq<int>, ex: seq<Extent>, i: nat, j: nat)
    requires Progress(links, ex, i, j) && j >= i
    ensures Progress(links, ex, i + 1, 0)
  {
    forall x, y | 0 <= y < x < |links| && Before(x, y, i + 1, 0) && links[x] >= 0 && links[y] >= 0
    && Overlaps(ex[x], ex[y])
      ensures Root(links, x) == Root(links, y)
    {
      assert Before(x, y, i, j);
    }
  }

  // ---- What the finished links mean ----

  lemma OverlapOneRoot(links: seq<int>, ex: seq<Extent>, i: nat, j: nat)
    requires LinksFor(links, ex) && Joined(links, ex, |links|, 0)
    requires i < |ex| && j < |ex| && Overlaps(ex[i], ex[j])
    ensures links[i] >= 0 && links[j] >= 0 && Root(links, i) == Root(links, j)
  {
    if j < i {
      assert Before(i, j, |links|, 0);
    } else if i < j {
      assert Before(j, i, |links|, 0) && Overlaps(ex[j], ex[i]);
    }
  }

  lemma {:induction false} ChainOneRoot(links: seq<int>, ex: seq<Extent>, p: seq<nat>, k: nat)
    requires LinksFor(links, ex) && Joined(links, ex, |links|, 0) && Chain(ex, p) && k < |p|
    ensures links[p[0]] >= 0 && links[p[k]] >= 0 && Root(links, p[0]) == Root(links, p[k])
  {
    if k > 0 {
      ChainOneRoot(links, ex, p, k - 1);
      OverlapOneRoot(links, ex, p[k - 1], p[k]);
    }
  }

  // Two views have one root exactly when a chain of overlaps links them.
  lemma SameRootIffConnected(links: seq<int>, ex: seq<Extent>, i: nat, j: nat)
    requires Progress(links, ex, |links|, 0)
    requires i < |links| && j < |links| && links[i] >= 0 && links[j] >= 0
    ensures Root(links, i) == Root(links, j) <==> Connected(ex, i, j)
  {
    if Connected(ex, i, j) {
      var p :| Chain(ex, p) && p[0] == i && p[|p| - 1] == j;
      ChainOneRoot(links, ex, p, |p| - 1);
    }
    if Root(links, i) == Root(links, j) {
      ConnectedSym(ex, j, Root(links, j));
      ConnectedTrans(ex, i, Root(links, i), j);
    }
  }
}