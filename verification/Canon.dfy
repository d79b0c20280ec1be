// Canonical renaming of type streams (src/intern_mode.rs): generic instantiations are
// numbered in the order they first appear, so that two ways of naming them compare equal.
module Canon {
  import opened Options

  datatype Scope = Local | Global

  // What word 2 of a type id says (src/gid.rs).
  datatype Word2 =
    | FastLifetime(bits: nat)
    | SlowIndex(slow: nat, slowScope: Scope)
    | GenericIndex(index: nat, scope: Scope)
    | GenericDigest(digest: nat)

  // Words 0, 1 and 3, without the flags of word 3 that belong to word 2, and word 2 itself.
  datatype TypeId = TypeId(w0: nat, w1: nat, w3: nat, word2: Word2)

  type Key = seq<TypeId>
  type Resolver = nat -> Option<Key>

  const U64_MAX: nat := 0xFFFF_FFFF_FFFF_FFFF

  // The key of a digest, which no argument list has for its own.
  function DigestKey(d: nat): Key {
    [TypeId(U64_MAX, d, 0, FastLifetime(0))]
  }

  // What an id is ranked by: the arguments its index resolves to, or its digest.
  function KeyOf(id: TypeId, resolve: Resolver): Option<Key> {
    match id.word2
    case GenericIndex(index, _) => resolve(index)
    case GenericDigest(d) => Some(DigestKey(d))
    case _ => None
  }

  function Keys(stream: seq<TypeId>, resolve: Resolver): (ks: seq<Option<Key>>)
    ensures |ks| == |stream|
  {
    seq(|stream|, i requires 0 <= i < |stream| => KeyOf(stream[i], resolve))
  }

  // ---- Ranks ----

  // No earlier position has this key.
  predicate IsFirst(ks: seq<Option<Key>>, i: nat)
    requires i < |ks|
  {
    ks[i].Some? && forall j :: 0 <= j < i ==> ks[j] != ks[i]
  }

  // How many keys appear before position `n`.
  function Count(ks: seq<Option<Key>>, n: nat): nat
    requires n <= |ks|
  {
    if n == 0 then 0 else Count(ks, n - 1) + if IsFirst(ks, n - 1) then 1 else 0
  }

  // Where the key of position `i` appears first.
  function FirstOf(ks: seq<Option<Key>>, i: nat, from: nat): (f: nat)
    requires i < |ks| && from <= i && forall j :: 0 <= j < from ==> ks[j] != ks[i]
    ensures from <= f <= i && ks[f] == ks[i] && forall j :: 0 <= j < f ==> ks[j] != ks[i]
    decreases i - from
  {
    if ks[from] == ks[i] then from else FirstOf(ks, i, from + 1)
  }

  // The rank of a key: how many appear before it first does.
  function Rank(ks: seq<Option<Key>>, i: nat): nat
    requires i < |ks|
  {
    Count(ks, FirstOf(ks, i, 0))
  }

  function Renamed(id: TypeId, rank: nat): TypeId {
    id.(word2 := GenericIndex(rank, Global))
  }

  function CanonicalAt(stream: seq<TypeId>, resolve: Resolver, i: nat): TypeId
    requires i < |stream|
  {
    if KeyOf(stream[i], resolve).Some? then Renamed(stream[i], Rank(Keys(stream, resolve), i)) else stream[i]
  }

  // What canonicalise_stream must give.
  function Canonical(stream: seq<TypeId>, resolve: Resolver): (r: seq<TypeId>)
    ensures |r| == |stream|
  {
    seq(|stream|, i requires 0 <= i < |stream| => CanonicalAt(stream, resolve, i))
  }

  lemma {:induction false} CountGrows(ks: seq<Option<Key>>, m: nat, n: nat)
    requires m <= n <= |ks|
    ensures Count(ks, m) <= Count(ks, n)
    decreases n
  {
    if m < n {
      CountGrows(ks, m, n - 1);
    }
  }

  // The keys that appear before position `n`.
  function KeysBefore(ks: seq<Option<Key>>, n: nat): set<Key>
    requires n <= |ks|
  {
    set j | 0 <= j < n && ks[j].Some? :: ks[j].value
  }

  // A rank is the number of different keys before the first of its own.
  lemma {:induction false} CountIsKeys(ks: seq<Option<Key>>, n: nat)
    requires n <= |ks|
    ensures Count(ks, n) == |KeysBefore(ks, n)|
  {
    if n > 0 {
      CountIsKeys(ks, n - 1);
      var k := ks[n - 1];
      if k.None? {
        assert KeysBefore(ks, n) == KeysBefore(ks, n - 1);
      } else {
        assert KeysBefore(ks, n) == KeysBefore(ks, n - 1) + {k.value};
        if k.value in KeysBefore(ks, n - 1) {
          var j :| 0 <= j < n - 1 && ks[j].Some? && ks[j].value == k.value;
          assert KeysBefore(ks, n) == KeysBefore(ks, n - 1);
        }
      }
    }
  }

  lemma RankCounts(ks: seq<Option<Key>>, i: nat)
    requires i < |ks| && ks[i].Some?
    ensures exists f :: 0 <= f <= i && ks[f] == ks[i] && ks[i].value !in KeysBefore(ks, f)
                        && Rank(ks, i) == |KeysBefore(ks, f)|
  {
    CountIsKeys(ks, FirstOf(ks, i, 0));
  }

  // Two positions have the same rank exactly when they have the same key.
  lemma RankIsKey(ks: seq<Option<Key>>, i: nat, j: nat)
    requires i < |ks| && j < |ks| && ks[i].Some? && ks[j].Some?
    ensures Rank(ks, i) == Rank(ks, j) <==> ks[i] == ks[j]
  {
    var f, g := FirstOf(ks, i, 0), FirstOf(ks, j, 0);
    if f < g {
      CountGrows(ks, f + 1, g);
    } else if g < f {
      CountGrows(ks, g + 1, f);
    }
  }

  // ---- The loop ----

  // The table holds the rank of each key seen.
  ghost predicate Ranked(ks: seq<Option<Key>>, n: nat, rank: map<Key, nat>)
    requires n <= |ks|
  {
    && |rank| == Count(ks, n)
    && (forall k :: k in rank <==> SeenBefore(ks, n, k))
    && (forall i :: 0 <= i < n && ks[i].Some? ==> ks[i].value in rank && rank[ks[i].value] == Rank(ks, i))
  }

  predicate SeenBefore(ks: seq<Option<Key>>, n: nat, k: Key)
    requires n <= |ks|
  {
    exists i :: 0 <= i < n && ks[i] == Some(k)
  }

  // canonicalise_stream
  method CanonicaliseStream(stream: seq<TypeId>, resolve: Resolver) returns (out: seq<TypeId>)
    ensures out == Canonical(stream, resolve)
  {
    hide Ranked, Rank, KeyOf, Keys;
    var rank: map<Key, nat> := map[];
    out := [];
    ghost var ks := Keys(stream, resolve);
    NothingRanked(ks);
    var n := 0;
    while n < |stream|
      invariant 0 <= n <= |stream| && |out| == n && Ranked(ks, n, rank)
      invariant forall i :: 0 <= i < n ==> out[i] == CanonicalAt(stream, resolve, i)
    {
      var c := stream[n];
      var key := KeyOf(c, resolve);
      KeyAt(stream, resolve, n);
      if key.Some? {
        var next := |rank|;
        if key.value !in rank {
          NewKey(ks, n, rank);
          rank := rank[key.value := next];
        } else {
          OldKey(ks, n, rank);
        }
        c := Renamed(c, rank[key.value]);
      } else {
        NoKey(ks, n, rank);
      }
      out := out + [c];
      n := n + 1;
    }
  }

  lemma KeyAt(stream: seq<TypeId>, resolve: Resolver, n: nat)
    requires n < |stream|
    ensures Keys(stream, resolve)[n] == KeyOf(stream[n], resolve)
  {}

  lemma NothingRanked(ks: seq<Option<Key>>)
    ensures Ranked(ks, 0, map[])
  {}

  // The counts at a position whose key is new, and at one whose key is not.
  lemma CountNew(ks: seq<Option<Key>>, n: nat)
    requires n < |ks| && ks[n].Some? && !SeenBefore(ks, n, ks[n].value)
    ensures Rank(ks, n) == Count(ks, n) && Count(ks, n + 1) == Count(ks, n) + 1
  {
    assert forall j :: 0 <= j < n ==> ks[j] != ks[n];
  }

  lemma CountOld(ks: seq<Option<Key>>, n: nat)
    requires n < |ks| && (ks[n].None? || SeenBefore(ks, n, ks[n].value))
    ensures Count(ks, n + 1) == Count(ks, n)
  {}

  lemma NewKey(ks: seq<Option<Key>>, n: nat, rank: map<Key, nat>)
    requires n < |ks| && Ranked(ks, n, rank) && ks[n].Some? && ks[n].value !in rank
    ensures Rank(ks, n) == |rank| && Ranked(ks, n + 1, rank[ks[n].value := |rank|])
  {
    hide Rank, Count;
    CountNew(ks, n);
    SeenStep(ks, n);
    hide SeenBefore;
    var rank' := rank[ks[n].value := |rank|];
    OneMore(rank, ks[n].value, |rank|);
    forall i | 0 <= i < n + 1 && ks[i].Some?
      ensures ks[i].value in rank' && rank'[ks[i].value] == Rank(ks, i)
    {
      if i < n {
        assert ks[i].value in rank && rank[ks[i].value] == Rank(ks, i);
      }
    }
  }

  lemma OneMore(rank: map<Key, nat>, k: Key, v: nat)
    requires k !in rank
    ensures |rank[k := v]| == |rank| + 1
  {
    assert rank[k := v].Keys == rank.Keys + {k};
  }

  lemma OldKey(ks: seq<Option<Key>>, n: nat, rank: map<Key, nat>)
    requires n < |ks| && Ranked(ks, n, rank) && ks[n].Some? && ks[n].value in rank
    ensures rank[ks[n].value] == Rank(ks, n) && Ranked(ks, n + 1, rank)
  {
    hide Rank, Count;
    SeenStep(ks, n);
    CountOld(ks, n);
    var i :| 0 <= i < n && ks[i] == Some(ks[n].value);
    RankIsKey(ks, i, n);
    hide SeenBefore;
  }

  lemma NoKey(ks: seq<Option<Key>>, n: nat, rank: map<Key, nat>)
    requires n < |ks| && Ranked(ks, n, rank) && ks[n].None?
    ensures Ranked(ks, n + 1, rank)
  {
    hide Rank, Count, SeenBefore;
    SeenStep(ks, n);
    CountOld(ks, n);
  }

  lemma SeenStep(ks: seq<Option<Key>>, n: nat)
    requires n < |ks|
    ensures forall k :: SeenBefore(ks, n + 1, k) <==> SeenBefore(ks, n, k) || ks[n] == Some(k)
  {}

  // ---- What equal canonical forms mean ----

  predicate IsGeneric(id: TypeId) {
    id.word2.GenericIndex? || id.word2.GenericDigest?
  }

  // Every generic index of the stream has its arguments.
  predicate Resolved(stream: seq<TypeId>, resolve: Resolver) {
    forall i :: 0 <= i < |stream| ==> (IsGeneric(stream[i]) <==> KeyOf(stream[i], resolve).Some?)
  }

  // Equal outside word 2, and in word 2 too unless both are generic.
  predicate Alike(a: TypeId, b: TypeId) {
    && a.w0 == b.w0 && a.w1 == b.w1 && a.w3 == b.w3 && (IsGeneric(a) <==> IsGeneric(b))
    && (!IsGeneric(a) ==> a.word2 == b.word2)
  }

  // The same generic positions stand for the same instantiation.
  ghost predicate SamePartition(s: seq<TypeId>, rs: Resolver, t: seq<TypeId>, rt: Resolver)
    requires |s| == |t|
  {
    forall i, j :: 0 <= i < |s| && 0 <= j < |s| && IsGeneric(s[i]) && IsGeneric(s[j]) ==>
      (KeyOf(s[i], rs) == KeyOf(s[j], rs) <==> KeyOf(t[i], rt) == KeyOf(t[j], rt))
  }

  ghost predicate Equivalent(s: seq<TypeId>, rs: Resolver, t: seq<TypeId>, rt: Resolver) {
    && |s| == |t| && (forall i :: 0 <= i < |s| ==> Alike(s[i], t[i]))
    && SamePartition(s, rs, t, rt)
  }

  // Key lists with the same equalities have the same first positions and the same counts.
  ghost predicate SameEqualities(ks: seq<Option<Key>>, ls: seq<Option<Key>>) {
    && |ks| == |ls|
    && (forall i :: 0 <= i < |ks| ==> (ks[i].Some? <==> ls[i].Some?))
    && (forall i, j :: 0 <= i < |ks| && 0 <= j < |ks| ==> (ks[i] == ks[j] <==> ls[i] == ls[j]))
  }

  lemma {:induction false} SameCount(ks: seq<Option<Key>>, ls: seq<Option<Key>>, n: nat)
    requires SameEqualities(ks, ls) && n <= |ks|
    ensures Count(ks, n) == Count(ls, n)
  {
    if n > 0 {
      SameCount(ks, ls, n - 1);
    }
  }

  lemma SameRank(ks: seq<Option<Key>>, ls: seq<Option<Key>>, i: nat)
    requires SameEqualities(ks, ls) && i < |ks|
    ensures Rank(ks, i) == Rank(ls, i)
  {
    var f, g := FirstOf(ks, i, 0), FirstOf(ls, i, 0);
    assert ls[f] == ls[i] && ks[g] == ks[i];
    SameCount(ks, ls, f);
  }

  lemma EquivalentKeys(s: seq<TypeId>, rs: Resolver, t: seq<TypeId>, rt: Resolver)
    requires Resolved(s, rs) && Resolved(t, rt) && Equivalent(s, rs, t, rt)
    ensures SameEqualities(Keys(s, rs), Keys(t, rt))
  {
    forall i | 0 <= i < |s|
      ensures Keys(s, rs)[i].Some? <==> IsGeneric(s[i])
      ensures Keys(t, rt)[i].Some? <==> IsGeneric(s[i])
    {
      assert Alike(s[i], t[i]);
    }
  }

  lemma EquivalentAreEqual(s: seq<TypeId>, rs: Resolver, t: seq<TypeId>, rt: Resolver)
    requires Resolved(s, rs) && Resolved(t, rt) && Equivalent(s, rs, t, rt)
    ensures Canonical(s, rs) == Canonical(t, rt)
  {
    EquivalentKeys(s, rs, t, rt);
    forall i | 0 <= i < |s|
      ensures CanonicalAt(s, rs, i) == CanonicalAt(t, rt, i)
    {
      assert Alike(s[i], t[i]);
      SameRank(Keys(s, rs), Keys(t, rt), i);
    }
  }

  lemma EqualAreAlike(s: seq<TypeId>, rs: Resolver, t: seq<TypeId>, rt: Resolver, i: nat)
    requires Resolved(s, rs) && Resolved(t, rt) && Canonical(s, rs) == Canonical(t, rt) && i < |s|
    requires |s| == |t| && (IsGeneric(s[i]) <==> IsGeneric(t[i]))
    ensures Alike(s[i], t[i]) && (IsGeneric(s[i]) ==> Rank(Keys(s, rs), i) == Rank(Keys(t, rt), i))
  {
    assert Canonical(s, rs)[i] == CanonicalAt(s, rs, i) && Canonical(t, rt)[i] == CanonicalAt(t, rt, i);
  }

  // Only a generic id has a generic canonical form.
  lemma GenericStays(s: seq<TypeId>, rs: Resolver, i: nat)
    requires Resolved(s, rs) && i < |s|
    ensures IsGeneric(Canonical(s, rs)[i]) <==> IsGeneric(s[i])
  {
    assert Canonical(s, rs)[i] == CanonicalAt(s, rs, i);
  }

  lemma EqualAreEquivalent(s: seq<TypeId>, rs: Resolver, t: seq<TypeId>, rt: Resolver)
    requires Resolved(s, rs) && Resolved(t, rt) && Canonical(s, rs) == Canonical(t, rt)
    ensures Equivalent(s, rs, t, rt)
  {
    assert |s| == |Canonical(s, rs)| == |Canonical(t, rt)| == |t|;
    forall i | 0 <= i < |s|
      ensures Alike(s[i], t[i])
      ensures IsGeneric(s[i]) ==> Rank(Keys(s, rs), i) == Rank(Keys(t, rt), i)
    {
      GenericStays(s, rs, i);
      GenericStays(t, rt, i);
      EqualAreAlike(s, rs, t, rt, i);
    }
    forall i, j | 0 <= i < |s| && 0 <= j < |s| && IsGeneric(s[i]) && IsGeneric(s[j])
      ensures KeyOf(s[i], rs) == KeyOf(s[j], rs) <==> KeyOf(t[i], rt) == KeyOf(t[j], rt)
    {
      assert Alike(s[i], t[i]) && Alike(s[j], t[j]);
      RankIsKey(Keys(s, rs), i, j);
      RankIsKey(Keys(t, rt), i, j);
    }
  }

  // Two streams have the same canonical form exactly when they are alike and the same generic
  // positions stand for one instantiation. Which arguments it has does not matter.
  lemma CanonicalIff(s: seq<TypeId>, rs: Resolver, t: seq<TypeId>, rt: Resolver)
    requires Resolved(s, rs) && Resolved(t, rt)
    ensures Canonical(s, rs) == Canonical(t, rt) <==> Equivalent(s, rs, t, rt)
  {
    if Canonical(s, rs) == Canonical(t, rt) {
      EqualAreEquivalent(s, rs, t, rt);
    }
    if Equivalent(s, rs, t, rt) {
      EquivalentAreEqual(s, rs, t, rt);
    }
  }

  // The form forgets the argument lists: one id stands for `a` in one arena, for `b` in another.
  lemma ArgumentsForgotten(id: TypeId, a: Key, b: Key)
    requires id.word2.GenericIndex?
    ensures Canonical([id], _ => Some(a)) == Canonical([id], _ => Some(b))
  {
    CanonicalIff([id], _ => Some(a), [id], _ => Some(b));
  }

  // ---- Two interning modes of one program ----

  // An id before interning: one with a word 2 of its own, or an instantiation of arguments.
  datatype Source = Plain(id: TypeId) | Instance(w0: nat, w1: nat, w3: nat, args: Key)

  // The id a mode mints: `deferred` stores arguments in an arena, `content` a digest of them.
  predicate Deferred(src: Source, id: TypeId, resolve: Resolver) {
    match src
    case Plain(p) => id == p && !IsGeneric(p)
    case Instance(w0, w1, w3, args) =>
      id.w0 == w0 && id.w1 == w1 && id.w3 == w3 && id.word2.GenericIndex? && resolve(id.word2.index) == Some(args)
  }

  predicate Content(src: Source, id: TypeId, digest: Key -> nat) {
    match src
    case Plain(p) => id == p && !IsGeneric(p)
    case Instance(w0, w1, w3, args) => id == TypeId(w0, w1, w3, GenericDigest(digest(args)))
  }

  // Equal digests only for equal argument lists, among those of the program.
  ghost predicate Separates(program: seq<Source>, digest: Key -> nat) {
    forall i, j :: 0 <= i < |program| && 0 <= j < |program| && program[i].Instance? && program[j].Instance? ==>
      (digest(program[i].args) == digest(program[j].args) ==> program[i].args == program[j].args)
  }

  lemma DigestKeys(d: nat, e: nat)
    ensures DigestKey(d) == DigestKey(e) <==> d == e
  {
    assert DigestKey(d)[0].w1 == d && DigestKey(e)[0].w1 == e;
  }

  // What both modes make of position `i`.
  lemma ModesAt(src: Source, s: TypeId, t: TypeId, resolve: Resolver, digest: Key -> nat, other: Resolver)
    requires Deferred(src, s, resolve) && Content(src, t, digest)
    ensures Alike(s, t) && (IsGeneric(s) <==> src.Instance?)
    ensures (IsGeneric(s) <==> KeyOf(s, resolve).Some?) && (IsGeneric(t) <==> KeyOf(t, other).Some?)
    ensures src.Instance? ==>
              KeyOf(s, resolve) == Some(src.args) && KeyOf(t, other) == Some(DigestKey(digest(src.args)))
  {}

  // Both modes have one canonical form exactly when the digest tells the argument lists of the
  // program apart.
  lemma ModesAgree(program: seq<Source>, s: seq<TypeId>, t: seq<TypeId>, resolve: Resolver, digest: Key -> nat,
                   other: Resolver)
    requires |s| == |t| == |program|
    requires forall i :: 0 <= i < |program| ==>
                           Deferred(program[i], s[i], resolve) && Content(program[i], t[i], digest)
    ensures Canonical(s, resolve) == Canonical(t, other) <==> Separates(program, digest)
  {
    hide Deferred, Content, Canonical, DigestKey, KeyOf, Alike, IsGeneric;
    forall i | 0 <= i < |s|
      ensures Alike(s[i], t[i]) && (IsGeneric(s[i]) <==> program[i].Instance?)
      ensures (IsGeneric(s[i]) <==> KeyOf(s[i], resolve).Some?) && (IsGeneric(t[i]) <==> KeyOf(t[i], other).Some?)
      ensures program[i].Instance? ==> KeyOf(s[i], resolve) == Some(program[i].args)
                                       && KeyOf(t[i], other) == Some(DigestKey(digest(program[i].args)))
    {
      ModesAt(program[i], s[i], t[i], resolve, digest, other);
    }
    forall i, j | 0 <= i < |s| && 0 <= j < |s| && program[i].Instance? && program[j].Instance?
      ensures (KeyOf(s[i], resolve) == KeyOf(s[j], resolve) <==> program[i].args == program[j].args)
      ensures (KeyOf(t[i], other) == KeyOf(t[j], other) <==> digest(program[i].args) == digest(program[j].args))
    {
      DigestKeys(digest(program[i].args), digest(program[j].args));
    }
    CanonicalIff(s, resolve, t, other);
  }
}
