// The device buffer pool of runtime/vx_device_pool.h. Driver calls run outside the
// lock, so an acquire or a release is several steps that other threads cut into.
module Pool {
  import opened Options

  type Buf = nat
  type Lists = map<nat, seq<Buf>>

  // ---- The locked sections ----

  // What the lock protects. `lists` holds the free buffers of each size.
  datatype Core = Core(lists: Lists, pooled: int, capacity: nat, live: nat)

  predicate Hits(c: Core, bytes: nat) {
    bytes in c.lists && |c.lists[bytes]| > 0
  }

  function TopOf(c: Core, bytes: nat): Buf
    requires Hits(c, bytes)
  {
    c.lists[bytes][|c.lists[bytes]| - 1]
  }

  function Taken(c: Core, bytes: nat): Core
    requires Hits(c, bytes)
  {
    var list := c.lists[bytes];
    c.(lists := c.lists[bytes := list[..|list| - 1]], pooled := c.pooled - bytes, live := c.live + 1)
  }

  predicate Keeps(c: Core, bytes: nat) {
    c.pooled + bytes <= c.capacity
  }

  function Returned(c: Core, p: Buf, bytes: nat): Core {
    var live := if c.live > 0 then c.live - 1 else 0;
    if Keeps(c, bytes) then
      var list := if bytes in c.lists then c.lists[bytes] else [];
      c.(lists := c.lists[bytes := list + [p]], pooled := c.pooled + bytes, live := live)
    else c.(live := live)
  }

  function Emptied(c: Core): Core {
    c.(lists := map[], pooled := 0)
  }

  // ---- The bytes pooled ----

  ghost function BytesOf(lists: Lists, k: nat): nat
    requires k in lists
  {
    k * |lists[k]|
  }

  ghost function SomeSize(lists: Lists): (k: nat)
    requires |lists| > 0
    ensures k in lists
  {
    var k :| k in lists;
    k
  }

  ghost function Total(lists: Lists): nat
    decreases |lists|
  {
    if |lists| == 0 then 0
    else
      var k := SomeSize(lists);
      assert |lists - {k}| < |lists| by { Smaller(lists, k); }
      BytesOf(lists, k) + Total(lists - {k})
  }

  lemma Smaller(lists: Lists, k: nat)
    requires k in lists
    ensures |lists - {k}| == |lists| - 1
  {
    assert (lists - {k}).Keys == lists.Keys - {k};
  }

  // The sum does not depend on the order of the sizes.
  lemma {:induction false} TotalWithout(lists: Lists, k: nat)
    requires k in lists
    ensures Total(lists) == BytesOf(lists, k) + Total(lists - {k})
    decreases |lists|
  {
    hide BytesOf, SomeSize;
    var j := SomeSize(lists);
    if j != k {
      Smaller(lists, j);
      Smaller(lists, k);
      TotalWithout(lists - {j}, k);
      TotalWithout(lists - {k}, j);
      assert lists - {j} - {k} == lists - {k} - {j};
      SameBytes(lists, lists - {j}, k);
      SameBytes(lists, lists - {k}, j);
    }
  }

  lemma SameBytes(a: Lists, b: Lists, k: nat)
    requires k in a && k in b && a[k] == b[k]
    ensures BytesOf(a, k) == BytesOf(b, k)
  {}

  lemma TotalUpdate(lists: Lists, k: nat, list: seq<Buf>)
    ensures Total(lists[k := list]) == Total(lists) - (if k in lists then k * |lists[k]| else 0) + k * |list|
  {
    hide Total;
    var lists' := lists[k := list];
    TotalWithout(lists', k);
    if k in lists {
      TotalWithout(lists, k);
      assert lists' - {k} == lists - {k};
    } else {
      assert lists' - {k} == lists;
    }
  }

  ghost predicate Accounted(c: Core) {
    c.pooled == Total(c.lists) && c.pooled <= c.capacity
  }

  lemma TakenAccounted(c: Core, bytes: nat)
    requires Accounted(c) && Hits(c, bytes)
    ensures Accounted(Taken(c, bytes))
  {
    var list := c.lists[bytes];
    TotalUpdate(c.lists, bytes, list[..|list| - 1]);
    OneLess(bytes, |list|);
  }

  lemma OneLess(a: nat, n: nat)
    requires n > 0
    ensures a * (n - 1) == a * n - a
  {}

  lemma ReturnedAccounted(c: Core, p: Buf, bytes: nat)
    requires Accounted(c)
    ensures Accounted(Returned(c, p, bytes))
  {
    if Keeps(c, bytes) {
      var list := if bytes in c.lists then c.lists[bytes] else [];
      TotalUpdate(c.lists, bytes, list + [p]);
      OneLess(bytes, |list| + 1);
    }
  }

  class DevicePool {
    var lists: Lists
    var pooled: int
    const capacity: nat
    var live: nat

    ghost function State(): Core
      reads this
    {
      Core(lists, pooled, capacity, live)
    }

    constructor (capacity: nat)
      ensures State() == Core(map[], 0, capacity, 0) && Accounted(State())
    {
      this.lists, this.pooled, this.capacity, this.live := map[], 0, capacity, 0;
    }

    // The first locked section of acquire.
    method TryTake(bytes: nat) returns (p: Option<Buf>)
      requires Accounted(State())
      modifies this
      ensures Accounted(State()) && (p.Some? <==> Hits(old(State()), bytes))
      ensures p.Some? ==> p.value == TopOf(old(State()), bytes) && State() == Taken(old(State()), bytes)
      ensures p.None? ==> State() == old(State())
    {
      if bytes in lists && |lists[bytes]| > 0 {
        TakenAccounted(State(), bytes);
        var list := lists[bytes];
        p := Some(list[|list| - 1]);
        lists := lists[bytes := list[..|list| - 1]];
        pooled := pooled - bytes;
        live := live + 1;
      } else {
        p := None;
      }
    }

    // The last locked section of acquire.
    method CountLive()
      modifies `live
      ensures State() == old(State()).(live := old(live) + 1)
    {
      live := live + 1;
    }

    // The locked section of release.
    method TryKeep(p: Buf, bytes: nat) returns (giveBack: bool)
      requires Accounted(State())
      modifies this
      ensures Accounted(State()) && State() == Returned(old(State()), p, bytes)
      ensures giveBack <==> !Keeps(old(State()), bytes)
    {
      hide Accounted;
      ReturnedAccounted(State(), p, bytes);
      if live > 0 {
        live := live - 1;
      }
      if pooled + bytes <= capacity {
        var list := if bytes in lists then lists[bytes] else [];
        lists := lists[bytes := list + [p]];
        pooled := pooled + bytes;
        giveBack := false;
      } else {
        giveBack := true;
      }
    }

    // The locked section of drain.
    method TakeAll() returns (taken: Lists)
      requires Accounted(State())
      modifies this
      ensures Accounted(State()) && State() == Emptied(old(State())) && taken == old(lists)
    {
      taken := lists;
      lists := map[];
      pooled := 0;
    }
  }

  // ---- Threads ----

  // Where a thread is. `bytes` is 0 for a drain that no acquire asked for.
  datatype Pc =
    | Idle
    | Missed(bytes: nat)                   // before the first driver allocation
    | Failed(bytes: nat)                   // it failed: about to drain
    | Draining(bytes: nat, taken: Lists)   // giving what was cached back, one by one
    | Retrying(bytes: nat)                 // before the second driver allocation
    | Got(bytes: nat, buf: Buf)            // allocated, not yet counted as live
    | GivingBack(bytes: nat, buf: Buf)     // released over capacity

  // `owned` maps every buffer the driver handed out, and did not get back, to its size.
  // `held` maps the buffers that clients hold to theirs.
  datatype System = System(core: Core, owned: map<Buf, nat>, held: map<Buf, nat>, threads: seq<Pc>)

  datatype Place = Bucket(bytes: nat, i: nat) | Client | Taker(thread: nat, bytes: nat, i: nat) | Hand(thread: nat)

  // The buffer in a place.
  predicate At(s: System, place: Place, p: Buf, bytes: nat) {
    match place
    case Bucket(b, i) => b == bytes && InLists(s.core.lists, b, i, p)
    case Client => p in s.held && s.held[p] == bytes
    case Taker(t, b, i) =>
      b == bytes && t < |s.threads| && s.threads[t].Draining? && InTaken(s.threads[t].taken, b, i, p)
    case Hand(t) =>
      t < |s.threads| && (s.threads[t].Got? || s.threads[t].GivingBack?) && s.threads[t].buf == p
      && s.threads[t].bytes == bytes
  }

  predicate InLists(lists: Lists, bytes: nat, i: nat, p: Buf) {
    bytes in lists && i < |lists[bytes]| && lists[bytes][i] == p
  }

  // What a drain took is freed from the front, so its places count from the back.
  predicate InTaken(lists: Lists, bytes: nat, i: nat, p: Buf) {
    bytes in lists && i < |lists[bytes]| && lists[bytes][|lists[bytes]| - 1 - i] == p
  }

  ghost predicate Somewhere(s: System, p: Buf, bytes: nat) {
    exists place :: At(s, place, p, bytes)
  }

  // Every driver buffer is in exactly one place, with its own size.
  ghost predicate EachInOnePlace(s: System) {
    && (forall place, p, bytes :: At(s, place, p, bytes) ==> p in s.owned && s.owned[p] == bytes)
    && (forall a, b, p, x, y :: At(s, a, p, x) && At(s, b, p, y) ==> a == b)
    && (forall p :: p in s.owned ==> Somewhere(s, p, s.owned[p]))
  }

  ghost predicate Inv(s: System) {
    && Accounted(s.core) && EachInOnePlace(s)
    && s.core.live == |s.held|
  }

  // ---- Steps ----

  datatype Event =
    | Hit(bytes: nat) | Miss(bytes: nat) | AllocOk(p: Buf) | AllocNull | Drain | FreeOne(bytes: nat)
    | DrainDone | CountLive | Release(p: Buf) | GiveBack

  function SetPc(s: System, t: nat, pc: Pc): System
    requires t < |s.threads|
  {
    s.(threads := s.threads[t := pc])
  }

  // What thread `t` may do next. The driver hands out buffers it does not have out
  // already, and a client releases a buffer it holds, with the size it has.
  predicate Enabled(s: System, t: nat, e: Event) {
    t < |s.threads| &&
    var pc := s.threads[t];
    match e
    case Hit(bytes) => pc.Idle? && bytes != 0 && Hits(s.core, bytes)
    case Miss(bytes) => pc.Idle? && bytes != 0 && !Hits(s.core, bytes)
    case AllocOk(p) => (pc.Missed? || pc.Retrying?) && p !in s.owned
    case AllocNull => pc.Missed? || pc.Retrying?
    case Drain => pc.Idle? || pc.Failed?
    case FreeOne(bytes) => pc.Draining? && bytes in pc.taken && |pc.taken[bytes]| > 0
    case DrainDone => pc.Draining? && forall b :: b in pc.taken ==> |pc.taken[b]| == 0
    case CountLive => pc.Got?
    case Release(p) => pc.Idle? && p in s.held
    case GiveBack => pc.GivingBack?
  }

  function Next(s: System, t: nat, e: Event): System
    requires Enabled(s, t, e)
  {
    var pc := s.threads[t];
    match e
    case Hit(bytes) => s.(core := Taken(s.core, bytes), held := s.held[TopOf(s.core, bytes) := bytes])
    case Miss(bytes) => SetPc(s, t, Missed(bytes))
    case AllocOk(p) => SetPc(s.(owned := s.owned[p := pc.bytes]), t, Got(pc.bytes, p))
    case AllocNull => SetPc(s, t, if pc.Missed? then Failed(pc.bytes) else Idle)
    case Drain => SetPc(s.(core := Emptied(s.core)), t, Draining(if pc.Failed? then pc.bytes else 0, s.core.lists))
    case FreeOne(bytes) =>
      var list := pc.taken[bytes];
      SetPc(s.(owned := s.owned - {list[0]}), t, pc.(taken := pc.taken[bytes := list[1..]]))
    case DrainDone => SetPc(s, t, if pc.bytes == 0 then Idle else Retrying(pc.bytes))
    case CountLive => SetPc(s.(core := s.core.(live := s.core.live + 1), held := s.held[pc.buf := pc.bytes]), t, Idle)
    case Release(p) =>
      var bytes := s.held[p];
      var s' := s.(core := Returned(s.core, p, bytes), held := s.held - {p});
      if Keeps(s.core, bytes) then s' else SetPc(s', t, GivingBack(bytes, p))
    case GiveBack => SetPc(s.(owned := s.owned - {pc.buf}), t, Idle)
  }

  // The buffer a step gives back to the driver.
  function GivenBack(s: System, t: nat, e: Event): Option<Buf>
    requires Enabled(s, t, e)
  {
    var pc := s.threads[t];
    match e
    case FreeOne(bytes) => Some(pc.taken[bytes][0])
    case GiveBack => Some(pc.buf)
    case _ => None
  }

  // The buffer an acquire returns in this step.
  function HandedOut(s: System, t: nat, e: Event): Option<Buf>
    requires Enabled(s, t, e)
  {
    match e
    case Hit(bytes) => Some(TopOf(s.core, bytes))
    case CountLive => Some(s.threads[t].buf)
    case _ => None
  }

  // ---- Moving buffers between places ----

  // Buffer `p`, of `bytes`, is now at `to` alone; every other buffer is where it was.
  ghost predicate Moved(s: System, s': System, p: Buf, bytes: nat, to: Place) {
    forall place, q, x :: At(s', place, q, x) <==> if q == p then place == to && x == bytes else At(s, place, q, x)
  }

  // Buffer `p` is nowhere; every other buffer is where it was.
  ghost predicate Removed(s: System, s': System, p: Buf) {
    forall place, q, x :: At(s', place, q, x) <==> q != p && At(s, place, q, x)
  }

  ghost predicate Unmoved(s: System, s': System) {
    forall place, q, x :: At(s', place, q, x) <==> At(s, place, q, x)
  }

  // The place that takes over the contents of `place` when thread `t` carries the cache off.
  function Onto(place: Place, t: nat, lists: Lists): Place {
    if place.Bucket? then Taker(t, place.bytes, Mirror(lists, place.bytes, place.i)) else place
  }

  function Mirror(lists: Lists, bytes: nat, i: nat): nat {
    if bytes in lists && i < |lists[bytes]| then |lists[bytes]| - 1 - i else i
  }

  ghost predicate Carried(s: System, s': System, t: nat) {
    && (forall place: Place, q, x :: At(s', place, q, x) ==> !place.Bucket?)
    && (forall place: Place, q, x :: At(s, place, q, x) ==>
          !(place.Taker? && place.thread == t) && At(s', Onto(place, t, s.core.lists), q, x))
    && (forall place: Place, q, x :: At(s', place, q, x) ==> Came(s, place, t, q, x))
  }

  // Where a buffer was before the cache was carried off.
  predicate Came(s: System, place: Place, t: nat, q: Buf, x: nat) {
    if place.Taker? && place.thread == t then
      && place.bytes in s.core.lists && place.i < |s.core.lists[place.bytes]|
      && At(s, Bucket(place.bytes, Mirror(s.core.lists, place.bytes, place.i)), q, x)
    else At(s, place, q, x)
  }

  lemma MovedKeeps(s: System, s': System, p: Buf, bytes: nat, to: Place)
    requires EachInOnePlace(s) && Moved(s, s', p, bytes, to) && s'.owned == s.owned[p := bytes]
    ensures EachInOnePlace(s')
  {
    hide At;
    forall q | q in s'.owned
      ensures Somewhere(s', q, s'.owned[q])
    {
      if q == p {
        assert At(s', to, p, bytes);
      } else {
        var place :| At(s, place, q, s.owned[q]);
        assert At(s', place, q, s.owned[q]);
      }
    }
  }

  lemma RemovedKeeps(s: System, s': System, p: Buf)
    requires EachInOnePlace(s) && Removed(s, s', p) && s'.owned == s.owned - {p}
    ensures EachInOnePlace(s')
  {
    hide At;
    forall q | q in s'.owned
      ensures Somewhere(s', q, s'.owned[q])
    {
      var place :| At(s, place, q, s.owned[q]);
      assert At(s', place, q, s.owned[q]);
    }
  }

  lemma UnmovedKeeps(s: System, s': System)
    requires EachInOnePlace(s) && Unmoved(s, s') && s'.owned == s.owned
    ensures EachInOnePlace(s')
  {
    hide At;
    forall q | q in s'.owned
      ensures Somewhere(s', q, s'.owned[q])
    {
      var place :| At(s, place, q, s.owned[q]);
      assert At(s', place, q, s.owned[q]);
    }
  }

  lemma CarriedKeeps(s: System, s': System, t: nat)
    requires EachInOnePlace(s) && Carried(s, s', t) && s'.owned == s.owned
    ensures EachInOnePlace(s')
  {
    hide At;
    forall q | q in s'.owned
      ensures Somewhere(s', q, s'.owned[q])
    {
      var place :| At(s, place, q, s.owned[q]);
      assert At(s', Onto(place, t, s.core.lists), q, s.owned[q]);
    }
  }

  // ---- Each step ----

  lemma HitMoves(s: System, t: nat, bytes: nat)
    requires EachInOnePlace(s) && Enabled(s, t, Hit(bytes))
    ensures TopOf(s.core, bytes) !in s.held && TopOf(s.core, bytes) in s.owned && s.owned[TopOf(s.core, bytes)] == bytes
    ensures Moved(s, Next(s, t, Hit(bytes)), TopOf(s.core, bytes), bytes, Client)
  {
    var p, n := TopOf(s.core, bytes), |s.core.lists[bytes]| - 1;
    OnlyPlace(s, Bucket(bytes, n), p, bytes);
    var s' := Next(s, t, Hit(bytes));
    forall place, q, x
      ensures At(s', place, q, x) <==> if q == p then place == Client && x == bytes else At(s, place, q, x)
    {
      assert place != Client && At(s', place, q, x) ==> At(s, place, q, x);
    }
  }

  lemma OnlyPlace(s: System, at: Place, p: Buf, bytes: nat)
    requires EachInOnePlace(s) && At(s, at, p, bytes)
    ensures p in s.owned && s.owned[p] == bytes
    ensures forall place, x :: At(s, place, p, x) ==> place == at && x == bytes
    ensures at != Client ==> p !in s.held
  {
    if p in s.held {
      assert At(s, Client, p, s.held[p]);
    }
  }

  lemma AllocMoves(s: System, t: nat, p: Buf)
    requires EachInOnePlace(s) && Enabled(s, t, AllocOk(p))
    ensures Moved(s, Next(s, t, AllocOk(p)), p, s.threads[t].bytes, Hand(t))
  {
    var s' := Next(s, t, AllocOk(p));
    forall place, q, x
      ensures At(s', place, q, x)
         <==> if q == p then place == Hand(t) && x == s.threads[t].bytes else At(s, place, q, x)
    {
      assert !At(s, place, p, x);
      assert place != Hand(t) ==> (At(s', place, q, x) <==> At(s, place, q, x));
    }
  }

  lemma DrainMoves(s: System, t: nat)
    requires Enabled(s, t, Drain)
    ensures Carried(s, Next(s, t, Drain), t)
  {}

  lemma FreeOneMoves(s: System, t: nat, bytes: nat)
    requires EachInOnePlace(s) && Enabled(s, t, FreeOne(bytes))
    ensures var p := s.threads[t].taken[bytes][0];
            p in s.owned && Removed(s, Next(s, t, FreeOne(bytes)), p)
  {
    var n := |s.threads[t].taken[bytes]| - 1;
    var p := s.threads[t].taken[bytes][0];
    OnlyPlace(s, Taker(t, bytes, n), p, bytes);
    var s' := Next(s, t, FreeOne(bytes));
    forall place, q, x
      ensures At(s', place, q, x) <==> q != p && At(s, place, q, x)
    {
      assert At(s', place, q, x) ==> At(s, place, q, x);
    }
  }

  lemma CountMoves(s: System, t: nat)
    requires EachInOnePlace(s) && Enabled(s, t, CountLive)
    ensures var pc := s.threads[t];
            && pc.buf !in s.held && pc.buf in s.owned && s.owned[pc.buf] == pc.bytes
            && Moved(s, Next(s, t, CountLive), pc.buf, pc.bytes, Client)
  {
    var pc := s.threads[t];
    OnlyPlace(s, Hand(t), pc.buf, pc.bytes);
    var s' := Next(s, t, CountLive);
    forall place, q, x
      ensures At(s', place, q, x) <==> if q == pc.buf then place == Client && x == pc.bytes else At(s, place, q, x)
    {
      assert place != Client && At(s', place, q, x) ==> At(s, place, q, x);
    }
  }

  lemma ReleaseMoves(s: System, t: nat, p: Buf)
    requires EachInOnePlace(s) && Enabled(s, t, Release(p))
    ensures var bytes := s.held[p];
            && p in s.owned && s.owned[p] == bytes
            && exists to :: Moved(s, Next(s, t, Release(p)), p, bytes, to)
  {
    var bytes := s.held[p];
    OnlyPlace(s, Client, p, bytes);
    var s' := Next(s, t, Release(p));
    var to := if !Keeps(s.core, bytes) then Hand(t)
              else Bucket(bytes, if bytes in s.core.lists then |s.core.lists[bytes]| else 0);
    forall place, q, x
      ensures At(s', place, q, x) <==> if q == p then place == to && x == bytes else At(s, place, q, x)
    {
      assert place != to && At(s', place, q, x) ==> At(s, place, q, x);
    }
    assert Moved(s, s', p, bytes, to);
  }

  lemma GiveBackMoves(s: System, t: nat)
    requires EachInOnePlace(s) && Enabled(s, t, GiveBack)
    ensures s.threads[t].buf in s.owned && Removed(s, Next(s, t, GiveBack), s.threads[t].buf)
  {
    var pc := s.threads[t];
    OnlyPlace(s, Hand(t), pc.buf, pc.bytes);
    var s' := Next(s, t, GiveBack);
    forall place, q, x
      ensures At(s', place, q, x) <==> q != pc.buf && At(s, place, q, x)
    {
      assert At(s', place, q, x) ==> At(s, place, q, x);
    }
  }

  lemma OtherMoves(s: System, t: nat, e: Event)
    requires Enabled(s, t, e) && (e.Miss? || e.AllocNull? || e.DrainDone?)
    ensures Unmoved(s, Next(s, t, e))
  {}

  // Every step keeps each buffer in one place.
  lemma PlacesStep(s: System, t: nat, e: Event)
    requires EachInOnePlace(s) && Enabled(s, t, e)
    ensures EachInOnePlace(Next(s, t, e))
  {
    hide EachInOnePlace, Moved, Removed, Unmoved, Carried;
    var s' := Next(s, t, e);
    match e
    case Hit(bytes) =>
      HitMoves(s, t, bytes);
      MovedKeeps(s, s', TopOf(s.core, bytes), bytes, Client);
    case AllocOk(p) =>
      AllocMoves(s, t, p);
      MovedKeeps(s, s', p, s.threads[t].bytes, Hand(t));
    case Drain =>
      DrainMoves(s, t);
      CarriedKeeps(s, s', t);
    case FreeOne(bytes) =>
      FreeOneMoves(s, t, bytes);
      RemovedKeeps(s, s', s.threads[t].taken[bytes][0]);
    case CountLive =>
      CountMoves(s, t);
      MovedKeeps(s, s', s.threads[t].buf, s.threads[t].bytes, Client);
    case Release(p) =>
      ReleaseMoves(s, t, p);
      var to :| Moved(s, s', p, s.held[p], to);
      MovedKeeps(s, s', p, s.held[p], to);
    case GiveBack =>
      GiveBackMoves(s, t);
      RemovedKeeps(s, s', s.threads[t].buf);
    case _ =>
      OtherMoves(s, t, e);
      UnmovedKeeps(s, s');
  }

  lemma AccountStep(s: System, t: nat, e: Event)
    requires Inv(s) && Enabled(s, t, e)
    ensures Accounted(Next(s, t, e).core) && Next(s, t, e).core.live == |Next(s, t, e).held|
  {
    hide EachInOnePlace;
    match e
    case Hit(bytes) =>
      HitMoves(s, t, bytes);
      TakenAccounted(s.core, bytes);
    case CountLive =>
      CountMoves(s, t);
    case Release(p) =>
      ReturnedAccounted(s.core, p, s.held[p]);
      assert (s.held - {p}).Keys == s.held.Keys - {p};
    case _ =>
  }

  lemma InvStep(s: System, t: nat, e: Event)
    requires Inv(s) && Enabled(s, t, e)
    ensures Inv(Next(s, t, e))
  {
    PlacesStep(s, t, e);
    AccountStep(s, t, e);
  }

  // ---- Runs ----

  datatype Turn = Turn(thread: nat, event: Event)

  // The first state has no buffers and idle threads.
  predicate Initial(s: System) {
    && s.core == Core(map[], 0, s.core.capacity, 0) && s.owned == map[] && s.held == map[]
    && forall t :: 0 <= t < |s.threads| ==> s.threads[t].Idle?
  }

  // A run: any interleaving of the threads' steps.
  ghost predicate IsRun(states: seq<System>, turns: seq<Turn>) {
    && |states| == |turns| + 1 && Initial(states[0])
    && (forall i :: 0 <= i < |turns| ==> Follows(states[i], turns[i], states[i + 1]))
  }

  predicate Follows(s: System, turn: Turn, s': System) {
    Enabled(s, turn.thread, turn.event) && s' == Next(s, turn.thread, turn.event)
  }

  lemma InitialInv(s: System)
    requires Initial(s)
    ensures Inv(s)
  {
    assert Total(s.core.lists) == 0;
  }

  lemma {:induction false} RunInv(states: seq<System>, turns: seq<Turn>, n: nat)
    requires IsRun(states, turns) && n <= |turns|
    ensures Inv(states[n])
    decreases n
  {
    hide Inv, Initial, Next;
    if n > 0 {
      RunInv(states, turns, n - 1);
      assert Follows(states[n - 1], turns[n - 1], states[n]);
      InvStep(states[n - 1], turns[n - 1].thread, turns[n - 1].event);
    } else {
      InitialInv(states[0]);
    }
  }

  // In every run, what acquire returns is a buffer of the driver's that nobody holds,
  // and what goes back to the driver is one it has out.
  lemma NoSharingNoDoubleFree(states: seq<System>, turns: seq<Turn>, n: nat)
    requires IsRun(states, turns) && n < |turns|
    ensures var s, t, e := states[n], turns[n].thread, turns[n].event;
            && Enabled(s, t, e)
            && (HandedOut(s, t, e).Some? ==> var p := HandedOut(s, t, e).value;
                p in s.owned && p !in s.held && p in states[n + 1].held && states[n + 1].held[p] == s.owned[p])
            && (GivenBack(s, t, e).Some? ==> var p := GivenBack(s, t, e).value;
                p in s.owned && p !in s.held && p !in states[n + 1].owned)
  {
    hide Inv, EachInOnePlace;
    var s, t, e := states[n], turns[n].thread, turns[n].event;
    RunInv(states, turns, n);
    assert Follows(s, turns[n], states[n + 1]);
    StepSafe(s, t, e);
  }

  lemma StepSafe(s: System, t: nat, e: Event)
    requires Inv(s) && Enabled(s, t, e)
    ensures var s' := Next(s, t, e);
            && (HandedOut(s, t, e).Some? ==> var p := HandedOut(s, t, e).value;
                p in s.owned && p !in s.held && p in s'.held && s'.held[p] == s.owned[p])
            && (GivenBack(s, t, e).Some? ==> var p := GivenBack(s, t, e).value;
                p in s.owned && p !in s.held && p !in s'.owned)
  {
    hide EachInOnePlace, Accounted;
    match e
    case Hit(bytes) => HitMoves(s, t, bytes);
    case CountLive => CountMoves(s, t);
    case FreeOne(bytes) =>
      var n := |s.threads[t].taken[bytes]| - 1;
      OnlyPlace(s, Taker(t, bytes, n), s.threads[t].taken[bytes][0], bytes);
    case GiveBack =>
      OnlyPlace(s, Hand(t), s.threads[t].buf, s.threads[t].bytes);
    case _ =>
  }

  // When every thread is idle and the pool was drained, the driver has out exactly what
  // the clients hold.
  lemma QuietDriver(s: System)
    requires Inv(s) && s.core.lists == map[] && forall t :: 0 <= t < |s.threads| ==> s.threads[t].Idle?
    ensures s.owned == s.held
  {
    forall p
      ensures p in s.owned <==> p in s.held
      ensures p in s.owned ==> p in s.held && s.owned[p] == s.held[p]
    {
      if p in s.owned {
        assert Somewhere(s, p, s.owned[p]);
      }
      if p in s.held {
        assert At(s, Client, p, s.held[p]);
      }
    }
  }
}
