// Lifetime subtyping on packed words (src/borrow.rs): four 16-bit slots, each a variance
// and a region.
module Lifetimes {

  type Word = w: int | 0 <= w < 0x1_0000_0000_0000_0000

  const REGION_UNSET: nat := 0xFFF     // the mask of slots 1 to 3, with every bit set
  const REGION_MAX: nat := 0xFFE
  const REGION_UNSET_0: nat := 0x1FF   // slot 0 has 9 region bits, then 3 provenance bits
  const REGION_MAX_0: nat := 0x1FE

  // Slot `i` of a word, its variance and its region.
  function Slot(w: Word, i: nat): (s: nat)
    requires i < 4
    ensures s < 65536
  {
    if i == 0 then w % 65536
    else if i == 1 then w / 0x1_0000 % 65536
    else if i == 2 then w / 0x1_0000_0000 % 65536
    else w / 0x1_0000_0000_0000 % 65536
  }

  function Variance(s: nat): nat { s / 4096 }

  function Region(s: nat, i: nat): nat {
    if i == 0 then s % 512 else s % 4096
  }

  predicate Unset(s: nat, i: nat) {
    Region(s, i) == if i == 0 then REGION_UNSET_0 else REGION_UNSET
  }

  // The rule for one slot: equal variances, and then regions as the variance orders them. A
  // smaller region lives longer. An unset region matches any.
  predicate SlotRule(a: nat, b: nat, i: nat) {
    && Variance(a) == Variance(b)
    && (Unset(a, i) || Unset(b, i) || Ordered(Variance(a), Region(a, i), Region(b, i)))
  }

  predicate Ordered(variance: nat, a: nat, b: nat) {
    match variance
    case 0 => a == b
    case 1 => a <= b
    case 2 => a >= b
    case _ => false
  }

  // A region is the depth of the block it belongs to. What belongs to it lives there and in every block
  // inside, and so does what belongs to a block around it.
  predicate LivesAt(region: nat, depth: nat) {
    depth >= region
  }

  ghost predicate Outlives(a: nat, b: nat) {
    forall depth: nat :: LivesAt(b, depth) ==> LivesAt(a, depth)
  }

  // Covariant: the source outlives the target. Contravariant: the other way round. Invariant: both.
  lemma OrderedMeans(variance: nat, a: nat, b: nat)
    ensures Ordered(variance, a, b)
       <==> variance <= 2 && (variance != 2 ==> Outlives(a, b)) && (variance != 1 ==> Outlives(b, a))
  {
    assert LivesAt(a, a) && LivesAt(b, b);
  }

  predicate SlotsCompatible(a: Word, b: Word) {
    forall i :: 0 <= i < 4 ==> SlotRule(Slot(a, i), Slot(b, i), i)
  }

  // slot_compatible: no early exit, every test taken.
  function SlotTest(a: nat, b: nat, i: nat): (r: bool)
    ensures r <==> SlotRule(a, b, i)
  {
    var va, vb := Variance(a), Variance(b);
    var ra, rb := Region(a, i), Region(b, i);
    var unset := Unset(a, i) || Unset(b, i);
    var ordered := (va == 0 && ra == rb) || (va == 1 && ra <= rb) || (va == 2 && ra >= rb);
    va == vb && (unset || ordered)
  }

  // fast_path_slots_compatible
  method FastPath(a: Word, b: Word) returns (all: bool)
    ensures all <==> SlotsCompatible(a, b)
  {
    all := true;
    var i := 0;
    while i < 4
      invariant 0 <= i <= 4 && (all <==> forall k :: 0 <= k < i ==> SlotRule(Slot(a, k), Slot(b, k), k))
    {
      var one := SlotTest(Slot(a, i), Slot(b, i), i);
      all := all && one;
      i := i + 1;
    }
  }

  // The loop that leaves at the first slot that fails.
  method EarlyExit(a: Word, b: Word) returns (ok: bool)
    ensures ok <==> SlotsCompatible(a, b)
  {
    var i := 0;
    while i < 4
      invariant 0 <= i <= 4 && forall k :: 0 <= k < i ==> SlotRule(Slot(a, k), Slot(b, k), k)
    {
      var sa, sb := Slot(a, i), Slot(b, i);
      if Variance(sa) != Variance(sb) {
        return false;
      }
      if !Unset(sa, i) && !Unset(sb, i) {
        var valid := match Variance(sa)
          case 0 => Region(sa, i) == Region(sb, i)
          case 1 => Region(sa, i) <= Region(sb, i)
          case 2 => Region(sa, i) >= Region(sb, i)
          case _ => false;
        if !valid {
          return false;
        }
      }
      i := i + 1;
    }
    ok := true;
  }

  // verify_subtyping_bounds on two packed words
  method VerifyBounds(a: Word, b: Word) returns (ok: bool)
    ensures ok <==> Subtype(a, b)
  {
    if a == b {
      return true;
    }
    ok := FastPath(a, b);
  }

  predicate Subtype(a: Word, b: Word) {
    a == b || SlotsCompatible(a, b)
  }

  // ---- Provenance ----

  // Equal but for the provenance bits of slot 0.
  predicate SameButProvenance(a: Word, b: Word) {
    && Variance(Slot(a, 0)) == Variance(Slot(b, 0)) && Region(Slot(a, 0), 0) == Region(Slot(b, 0), 0)
    && Slot(a, 1) == Slot(b, 1) && Slot(a, 2) == Slot(b, 2) && Slot(a, 3) == Slot(b, 3)
  }

  // The slot rule does not read the provenance bits. The test for identical words does, so the whole
  // check tells two such pairs apart exactly when one of them is identical and the slots refuse it.
  lemma ProvenanceIgnored(a: Word, a': Word, b: Word, b': Word)
    requires SameButProvenance(a, a') && SameButProvenance(b, b')
    ensures SlotsCompatible(a, b) <==> SlotsCompatible(a', b')
    ensures (Subtype(a, b) <==> Subtype(a', b')) <==> SlotsCompatible(a, b) || (a == b <==> a' == b')
  {
    hide Slot;
    assert forall i :: 0 <= i < 4 ==> (SlotRule(Slot(a, i), Slot(b, i), i) <==> SlotRule(Slot(a', i), Slot(b', i), i));
  }

  // ---- A preorder, up to unset regions ----

  predicate AllSet(w: Word) {
    forall i :: 0 <= i < 4 ==> !Unset(Slot(w, i), i)
  }

  // A slot that passes against itself: its variance is one of the three, or its region is unset.
  predicate Usable(s: nat, i: nat) {
    Variance(s) <= 2 || Unset(s, i)
  }

  // The slot rule accepts a word against itself exactly when every slot is usable.
  lemma Reflexive(w: Word)
    ensures SlotsCompatible(w, w) <==> forall i :: 0 <= i < 4 ==> Usable(Slot(w, i), i)
  {
    hide Slot;
    forall i | 0 <= i < 4
      ensures SlotRule(Slot(w, i), Slot(w, i), i) <==> Usable(Slot(w, i), i)
    {}
  }

  // The test for identical words accepts what the slot rule refuses exactly at words with a
  // slot that is not usable.
  lemma ShortcutIff(a: Word, b: Word)
    ensures Subtype(a, b) && !SlotsCompatible(a, b) <==> a == b && exists i :: 0 <= i < 4 && !Usable(Slot(a, i), i)
  {
    Reflexive(a);
  }

  // Such a word: variance 3 and region 0 in slot 0.
  lemma ShortcutDiffers()
    ensures Subtype(0x3000, 0x3000) && !SlotsCompatible(0x3000, 0x3000)
  {
    assert !SlotRule(Slot(0x3000, 0), Slot(0x3000, 0), 0);
  }

  // It is refused against the same word with other provenance bits.
  lemma ProvenanceMatters()
    ensures SameButProvenance(0x3000, 0x3200) && Subtype(0x3000, 0x3000) && !Subtype(0x3000, 0x3200)
  {
    assert !SlotRule(Slot(0x3000, 0), Slot(0x3200, 0), 0);
  }

  // Slots that are equal in all the check reads.
  predicate SameSlot(a: nat, b: nat, i: nat) {
    Variance(a) == Variance(b) && Region(a, i) == Region(b, i)
  }

  // Both ways only between words that say the same.
  lemma Antisymmetric(a: Word, b: Word)
    requires AllSet(a) && AllSet(b) && SlotsCompatible(a, b) && SlotsCompatible(b, a)
    ensures forall i :: 0 <= i < 4 ==> SameSlot(Slot(a, i), Slot(b, i), i)
  {
    hide Slot;
    forall i | 0 <= i < 4
      ensures SameSlot(Slot(a, i), Slot(b, i), i)
    {
      assert SlotRule(Slot(a, i), Slot(b, i), i) && SlotRule(Slot(b, i), Slot(a, i), i);
    }
  }

  lemma Transitive(a: Word, b: Word, c: Word)
    requires AllSet(b) && SlotsCompatible(a, b) && SlotsCompatible(b, c)
    ensures SlotsCompatible(a, c)
  {
    hide Slot;
    forall i | 0 <= i < 4
      ensures SlotRule(Slot(a, i), Slot(c, i), i)
    {
      assert SlotRule(Slot(a, i), Slot(b, i), i) && SlotRule(Slot(b, i), Slot(c, i), i);
    }
  }

  // ---- Words from slots ----

  function Pack(s: seq<nat>): Word
    requires |s| == 4 && forall i :: 0 <= i < 4 ==> s[i] < 65536
  {
    s[0] + 0x1_0000 * s[1] + 0x1_0000_0000 * s[2] + 0x1_0000_0000_0000 * s[3]
  }

  lemma Packed(s: seq<nat>)
    requires |s| == 4 && forall i :: 0 <= i < 4 ==> s[i] < 65536
    ensures forall i :: 0 <= i < 4 ==> Slot(Pack(s), i) == s[i]
  {
    Low(s[0], s[1] + 0x1_0000 * s[2] + 0x1_0000_0000 * s[3]);
    Low(s[1], s[2] + 0x1_0000 * s[3]);
    Low(s[2], s[3]);
    var w := Pack(s);
    assert w / 0x1_0000_0000 == w / 0x1_0000 / 0x1_0000 && w / 0x1_0000_0000_0000 == w / 0x1_0000 / 0x1_0000 / 0x1_0000;
  }

  lemma Low(r: nat, q: nat)
    requires r < 65536
    ensures (r + 65536 * q) % 65536 == r && (r + 65536 * q) / 65536 == q
  {}

  // The variances of `w`, `region` in slot `i` and no region in the others.
  function OnlyRegion(w: Word, i: nat, region: nat): Word
    requires i < 4 && region < 512
  {
    Pack(seq(4, k requires 0 <= k < 4 => OnlyRegionSlot(Slot(w, k), k, i, region)))
  }

  function OnlyRegionSlot(s: nat, k: nat, i: nat, region: nat): (r: nat)
    requires region < 512
    ensures Variance(r) == Variance(s) && (if k == i then Region(r, k) == region else Unset(r, k))
    ensures s < 65536 ==> r < 65536
  {
    Variance(s) * 4096 + if k == i then region else if k == 0 then REGION_UNSET_0 else REGION_UNSET
  }

  lemma OnlyRegionSlots(w: Word, i: nat, region: nat, k: nat)
    requires i < 4 && region < 512 && k < 4
    ensures Slot(OnlyRegion(w, i, region), k) == OnlyRegionSlot(Slot(w, k), k, i, region)
  {
    hide Slot, Pack, OnlyRegionSlot;
    Packed(seq(4, k requires 0 <= k < 4 => OnlyRegionSlot(Slot(w, k), k, i, region)));
  }

  // A word with an unset slot lies between two words that are not related: what is below it
  // is not below what is above it.
  lemma UnsetBreaksChains(b: Word, i: nat)
    requires i < 4 && Unset(Slot(b, i), i)
    ensures var up := if Variance(Slot(b, i)) == 2 then 0 else 1;
            && SlotsCompatible(OnlyRegion(b, i, up), b) && SlotsCompatible(b, OnlyRegion(b, i, 1 - up))
            && !Subtype(OnlyRegion(b, i, up), OnlyRegion(b, i, 1 - up))
  {
    hide Slot, OnlyRegion, OnlyRegionSlot;
    var up := if Variance(Slot(b, i)) == 2 then 0 else 1;
    var a, c := OnlyRegion(b, i, up), OnlyRegion(b, i, 1 - up);
    forall k | 0 <= k < 4
      ensures SlotRule(Slot(a, k), Slot(b, k), k) && SlotRule(Slot(b, k), Slot(c, k), k)
    {
      OnlyRegionSlots(b, i, up, k);
      OnlyRegionSlots(b, i, 1 - up, k);
    }
    OnlyRegionSlots(b, i, up, i);
    OnlyRegionSlots(b, i, 1 - up, i);
    assert !SlotRule(Slot(a, i), Slot(c, i), i);
  }

  // So chains through a word are sound exactly when it has no unset slot.
  lemma ChainsIffSet(b: Word)
    ensures AllSet(b) <==> forall a, c :: Subtype(a, b) && Subtype(b, c) ==> Subtype(a, c)
  {
    hide SlotsCompatible, Slot, OnlyRegion;
    if AllSet(b) {
      forall a, c | Subtype(a, b) && Subtype(b, c)
        ensures Subtype(a, c)
      {
        if a != b && b != c {
          Transitive(a, b, c);
        }
      }
    } else {
      var i :| 0 <= i < 4 && Unset(Slot(b, i), i);
      UnsetBreaksChains(b, i);
    }
  }

  // ---- Depths ----

  // region_for_depth, and the same for the return slot
  function RegionForDepth(depth: nat, i: nat): nat {
    var max := if i == 0 then REGION_MAX_0 else REGION_MAX;
    if depth == REGION_UNSET then (if i == 0 then REGION_UNSET_0 else REGION_UNSET)
    else if depth < max then depth else max
  }

  // Clamping keeps the order of real depths and merges only those at or above the maximum.
  // Only the sentinel becomes unset, and a region never reaches the bits above its field.
  lemma ClampOrder(d: nat, e: nat, i: nat)
    requires d != REGION_UNSET && e != REGION_UNSET
    ensures var max := if i == 0 then REGION_MAX_0 else REGION_MAX;
            && (d <= e ==> RegionForDepth(d, i) <= RegionForDepth(e, i))
            && (RegionForDepth(d, i) == RegionForDepth(e, i) <==> d == e || (d >= max && e >= max))
            && RegionForDepth(d, i) <= max
  {}

  lemma OnlySentinelIsUnset(d: nat, i: nat)
    ensures Unset(RegionForDepth(d, i), i) <==> d == REGION_UNSET
  {}
}
