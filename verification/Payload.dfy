// The dispatch payload (include/vx_hardware_runtime.h): a kernel name, `key=value` entries,
// and a binary section after them. The worker rewrites one entry in place.
module Payload {
  import opened Options
  import opened Abi

  type Bytes = seq<Byte>
  const NUL: Byte := 0
  const EQUALS: Byte := 61

  // ---- The readers ----

  // memchr for a NUL: where the first one from `p` on is, or the end.
  function NulFrom(s: Bytes, p: nat): (e: nat)
    requires p <= |s|
    ensures p <= e <= |s| && (e < |s| ==> s[e] == NUL) && forall i :: p <= i < e ==> s[i] != NUL
    decreases |s| - p
  {
    if p == |s| || s[p] == NUL then p else NulFrom(s, p + 1)
  }

  predicate StartsWith(s: Bytes, p: nat, key: Bytes) {
    p + |key| <= |s| && s[p..p + |key|] == key
  }

  // Where the value of the first entry with this key starts, from entry `p` on.
  function FieldFrom(s: Bytes, p: nat, key: Bytes): (r: Option<nat>)
    requires p <= |s|
    ensures r.Some? ==> p + |key| <= r.value < |s|
    decreases |s| - p
  {
    if p == |s| then None
    else
      var end := NulFrom(s, p);
      if end == |s| || end == p then None
      else if |key| <= end - p && StartsWith(s, p, key) then Some(p + |key|)
      else FieldFrom(s, end + 1, key)
  }

  function FieldAt(s: Bytes, key: Bytes): Option<nat> {
    var end := NulFrom(s, 0);
    if end == |s| then None else FieldFrom(s, end + 1, key)
  }

  // The value at an offset, up to its NUL.
  function ValueAt(s: Bytes, at: nat): Bytes
    requires at <= |s|
  {
    s[at..NulFrom(s, at)]
  }

  // A value starts after its key, in an entry of its own.
  predicate IsValue(s: Bytes, at: nat, key: Bytes) {
    && |key| <= at < |s| && NulFrom(s, at - |key|) == NulFrom(s, at) < |s| && StartsWith(s, at - |key|, key)
    && (at > |key| ==> s[at - |key| - 1] == NUL)
  }

  lemma {:induction false} FieldIsValue(s: Bytes, p: nat, key: Bytes)
    requires p <= |s| && (p > 0 ==> s[p - 1] == NUL)
    ensures var r := FieldFrom(s, p, key); r.Some? ==> IsValue(s, r.value, key)
    decreases |s| - p
  {
    hide NulFrom, StartsWith;
    if p < |s| {
      var end := NulFrom(s, p);
      if end < |s| && end != p {
        if |key| <= end - p && StartsWith(s, p, key) {
          SameNul(s, p, p + |key|);
        } else {
          hide IsValue;
          FieldIsValue(s, end + 1, key);
        }
      }
    }
  }

  lemma {:induction false} SameNul(s: Bytes, p: nat, q: nat)
    requires p <= q <= |s| && q <= NulFrom(s, p)
    ensures NulFrom(s, q) == NulFrom(s, p)
    decreases q - p
  {
    if p < q {
      SameNul(s, p + 1, q);
    }
  }

  // vx_payload_field
  method PayloadField(s: Bytes, key: Bytes) returns (r: Option<nat>)
    ensures r == FieldAt(s, key)
  {
    hide NulFrom;
    if |s| == 0 {
      return None;
    }
    var nameEnd := NulFrom(s, 0);
    if nameEnd == |s| {
      return None;
    }
    var p := nameEnd + 1;
    while p < |s|
      invariant p <= |s| && FieldAt(s, key) == FieldFrom(s, p, key)
    {
      var end := NulFrom(s, p);
      if end == |s| {
        return None;
      }
      var len := end - p;
      if len == 0 {
        return None;
      }
      if len >= |key| && s[p..p + |key|] == key {
        return Some(p + |key|);
      }
      p := p + len + 1;
    }
    r := None;
  }

  // Where the text ends: after the empty entry, or at the end of the payload.
  function TextEndFrom(s: Bytes, p: nat): (e: nat)
    requires p <= |s|
    ensures p <= e <= |s|
    decreases |s| - p
  {
    if p == |s| then p
    else
      var end := NulFrom(s, p);
      if end == |s| then |s| else if end == p then p + 1 else TextEndFrom(s, end + 1)
  }

  function TextEnd(s: Bytes): (e: nat)
    ensures e <= |s|
  {
    var end := NulFrom(s, 0);
    if end == |s| then |s| else TextEndFrom(s, end + 1)
  }

  // vx_payload_text_end
  method PayloadTextEnd(s: Bytes) returns (e: nat)
    ensures e == TextEnd(s)
  {
    hide NulFrom;
    if |s| == 0 {
      return 0;
    }
    var nameEnd := NulFrom(s, 0);
    if nameEnd == |s| {
      return |s|;
    }
    var p := nameEnd + 1;
    while p < |s|
      invariant p <= |s| && TextEnd(s) == TextEndFrom(s, p)
    {
      var end := NulFrom(s, p);
      if end == |s| {
        return |s|;
      }
      if end == p {
        return p + 1;
      }
      p := end + 1;
    }
    e := |s|;
  }

  // ---- The section ----

  // The number that bytes in little-endian order stand for, and its bytes.
  function Number(b: Bytes): nat {
    if |b| == 0 then 0 else b[0] + 256 * Number(b[1..])
  }

  function Little(v: nat, n: nat): (b: Bytes)
    ensures |b| == n
  {
    if n == 0 then [] else [v % 256] + Little(v / 256, n - 1)
  }

  function Power(n: nat): nat {
    if n == 0 then 1 else 256 * Power(n - 1)
  }

  lemma {:induction false} NumberBack(v: nat, n: nat)
    requires v < Power(n)
    ensures Number(Little(v, n)) == v
  {
    if n > 0 {
      NumberBack(v / 256, n - 1);
      assert Little(v, n)[1..] == Little(v / 256, n - 1);
    }
  }

  datatype Section = NoSection | BadSection | Section(start: nat, length: nat)

  function SectionOf(s: Bytes): Section {
    var start := TextEnd(s);
    if start == |s| then NoSection
    else if |s| - start < 8 || Number(s[start..start + 8]) != |s| - start - 8 then BadSection
    else Section(start + 8, |s| - start - 8)
  }

  // vx_payload_section
  method PayloadSection(s: Bytes) returns (r: Section)
    ensures r == SectionOf(s)
  {
    var start := PayloadTextEnd(s);
    if start == |s| {
      return NoSection;
    }
    if |s| - start < 8 {
      return BadSection;
    }
    var length: nat := 0;
    var i := 8;
    while i > 0
      invariant 0 <= i <= 8 && length == Number(s[start + i..start + 8])
    {
      i := i - 1;
      assert s[start + i..start + 8][1..] == s[start + i + 1..start + 8];
      length := s[start + i] as nat + 256 * length;
    }
    if length != |s| - start - 8 {
      return BadSection;
    }
    r := Section(start + 8, length);
  }

  // ---- A payload and its bytes ----

  datatype Entry = Entry(key: Bytes, value: Bytes)
  datatype Blob = Blob(name: Bytes, entries: seq<Entry>, image: Option<Bytes>)

  predicate NulFree(b: Bytes) {
    NUL !in b
  }

  predicate GoodEntry(e: Entry) {
    NulFree(e.key) && NulFree(e.value) && EQUALS !in e.key
  }

  predicate GoodBlob(p: Blob) {
    && NulFree(p.name) && (forall i :: 0 <= i < |p.entries| ==> GoodEntry(p.entries[i]))
    && (p.image.Some? ==> |p.image.value| < Power(8))
  }

  function EntryText(e: Entry): Bytes {
    e.key + [EQUALS] + e.value
  }

  function EntriesBytes(es: seq<Entry>): Bytes {
    if |es| == 0 then [] else EntryText(es[0]) + [NUL] + EntriesBytes(es[1..])
  }

  // What follows the entries: nothing, or the empty entry and the section.
  function TailBytes(image: Option<Bytes>): Bytes {
    if image.None? then [] else [NUL] + Little(|image.value|, 8) + image.value
  }

  function BlobBytes(p: Blob): Bytes {
    p.name + [NUL] + EntriesBytes(p.entries) + TailBytes(p.image)
  }

  function FirstValue(es: seq<Entry>, key: Bytes): Option<Bytes> {
    if |es| == 0 then None else if es[0].key == key then Some(es[0].value) else FirstValue(es[1..], key)
  }

  // Where that value stands, from the start of the entries.
  function FirstOffset(es: seq<Entry>, key: Bytes): Option<nat> {
    if |es| == 0 then None
    else if es[0].key == key then Some(|key| + 1)
    else
      var rest := FirstOffset(es[1..], key);
      if rest.None? then None else Some(|EntryText(es[0])| + 1 + rest.value)
  }

  // The first NUL of a NUL-free text and a NUL after it.
  lemma {:induction false} NulAfter(s: Bytes, p: nat, text: Bytes)
    requires NulFree(text) && StartsWith(s, p, text + [NUL])
    ensures NulFrom(s, p) == p + |text|
    decreases |text|
  {
    var all := s[p..p + |text| + 1];
    assert all == text + [NUL];
    assert forall i :: 0 <= i < |text| ==> s[p + i] == all[i] == text[i];
    assert s[p + |text|] == all[|text|] == NUL;
  }

  // An entry starts with `key=` exactly when that is its key.
  lemma KeyMatches(e: Entry, key: Bytes, s: Bytes, p: nat)
    requires GoodEntry(e) && EQUALS !in key && StartsWith(s, p, EntryText(e))
    ensures |key| + 1 <= |EntryText(e)| && StartsWith(s, p, key + [EQUALS]) <==> e.key == key
  {
    var t := EntryText(e);
    assert s[p..p + |t|] == t;
    if e.key == key {
      assert s[p..p + |key| + 1] == t[..|key| + 1];
    }
    if |key| + 1 <= |t| && StartsWith(s, p, key + [EQUALS]) {
      assert t[..|key| + 1] == s[p..p + |key| + 1] == key + [EQUALS];
      var k := key + [EQUALS];
      assert forall m :: 0 <= m < |key| ==> t[m] == k[m] == key[m];
      assert t[|key|] == k[|key|];
      SameEquals(t, |key|, |e.key|);
      assert e.key == t[..|e.key|] && key == t[..|key|];
    }
  }

  lemma SameEquals(t: Bytes, i: nat, j: nat)
    requires i < |t| && j < |t| && t[i] == EQUALS && t[j] == EQUALS
    requires forall m :: 0 <= m < i ==> t[m] != EQUALS
    requires forall m :: 0 <= m < j ==> t[m] != EQUALS
    ensures i == j
  {}

  predicate AllGood(es: seq<Entry>) {
    forall i :: 0 <= i < |es| ==> GoodEntry(es[i])
  }

  // The entries and a tail stand from `p` to the end.
  predicate Stand(s: Bytes, p: nat, es: seq<Entry>, tail: Bytes) {
    p <= |s| && s[p..] == EntriesBytes(es) + tail && (tail == [] || tail[0] == NUL)
  }

  lemma StandStep(s: Bytes, p: nat, es: seq<Entry>, tail: Bytes)
    requires Stand(s, p, es, tail) && |es| > 0 && GoodEntry(es[0])
    ensures var t := EntryText(es[0]);
            && |t| > 0 && p < |s| && NulFrom(s, p) == p + |t| < |s| && StartsWith(s, p, t)
            && Stand(s, p + |t| + 1, es[1..], tail)
  {
    var t := EntryText(es[0]);
    var rest := EntriesBytes(es[1..]);
    assert s[p..] == t + [NUL] + (rest + tail);
    hide NulFrom, EntriesBytes;
    SplitAt(s, p, t, rest + tail);
    EntryIsText(es[0]);
    NulAfter(s, p, t);
  }

  lemma SplitAt(s: Bytes, p: nat, t: Bytes, rest: Bytes)
    requires p <= |s| && s[p..] == t + [NUL] + rest
    ensures StartsWith(s, p, t) && StartsWith(s, p, t + [NUL]) && p + |t| + 1 <= |s| && s[p + |t| + 1..] == rest
  {
    assert s[p..p + |t| + 1] == s[p..][..|t| + 1] == t + [NUL];
    assert s[p..p + |t|] == s[p..][..|t|] == t;
    assert s[p + |t| + 1..] == s[p..][|t| + 1..] == rest;
  }

  lemma EntryIsText(e: Entry)
    requires GoodEntry(e)
    ensures |EntryText(e)| > 0 && NulFree(EntryText(e))
  {}

  lemma StandEnd(s: Bytes, p: nat, tail: Bytes)
    requires Stand(s, p, [], tail)
    ensures p < |s| ==> NulFrom(s, p) == p
    ensures p == |s| <==> tail == []
  {
    assert EntriesBytes([]) + tail == tail;
    if p < |s| {
      assert s[p..][0] == s[p];
    }
  }

  // A lookup gives the first value with that key, where it stands.
  ghost predicate Looks(s: Bytes, p: nat, es: seq<Entry>, key: Bytes)
    requires p <= |s|
  {
    var r, off := FieldFrom(s, p, key + [EQUALS]), FirstOffset(es, key);
    && (r.None? <==> off.None?) && (off.None? <==> FirstValue(es, key).None?)
    && (r.Some? ==> r.value == p + off.value && r.value <= |s| && Some(ValueAt(s, r.value)) == FirstValue(es, key))
  }

  lemma {:induction false} LooksUp(s: Bytes, p: nat, es: seq<Entry>, tail: Bytes, key: Bytes)
    requires AllGood(es) && EQUALS !in key && p <= |s| && Stand(s, p, es, tail)
    ensures Looks(s, p, es, key)
    decreases |es|
  {
    hide EntriesBytes, Stand, NulFrom;
    StandHere(s, p, es, tail);
    if |es| == 0 {
      NoEntries(es);
      StandHere(s, p, es, tail);
      StandEnd(s, p, tail);
    } else {
      StandStep(s, p, es, tail);
      KeyMatches(es[0], key, s, p);
      var t := EntryText(es[0]);
      if es[0].key == key {
        HitValue(s, p, es[0]);
      } else {
        LooksUp(s, p + |t| + 1, es[1..], tail, key);
      }
    }
  }

  lemma NoEntries(es: seq<Entry>)
    requires |es| == 0
    ensures es == []
  {}

  lemma StandHere(s: Bytes, p: nat, es: seq<Entry>, tail: Bytes)
    requires Stand(s, p, es, tail)
    ensures p <= |s|
  {}

  lemma HitValue(s: Bytes, p: nat, e: Entry)
    requires StartsWith(s, p, EntryText(e)) && NulFrom(s, p) == p + |EntryText(e)|
    ensures ValueAt(s, p + |e.key| + 1) == e.value
  {
    var t, at := EntryText(e), p + |e.key| + 1;
    SameNul(s, p, at);
    assert s[p..p + |t|] == t;
    assert s[at..p + |t|] == t[|e.key| + 1..] == e.value;
  }

  lemma {:induction false} TextEnds(s: Bytes, p: nat, es: seq<Entry>, tail: Bytes)
    requires AllGood(es) && p <= |s| && Stand(s, p, es, tail)
    ensures TextEndFrom(s, p) == p + |EntriesBytes(es)| + (if tail == [] then 0 else 1)
    decreases |es|
  {
    hide NulFrom, EntriesBytes, Stand;
    StandHere(s, p, es, tail);
    EntriesLength(es);
    if |es| == 0 {
      NoEntries(es);
      StandEnd(s, p, tail);
    } else {
      StandStep(s, p, es, tail);
      TextEnds(s, p + |EntryText(es[0])| + 1, es[1..], tail);
    }
  }

  lemma EntriesLength(es: seq<Entry>)
    ensures |EntriesBytes(es)| == if |es| == 0 then 0 else |EntryText(es[0])| + 1 + |EntriesBytes(es[1..])|
  {}

  // Where the entries of a payload stand.
  lemma BlobStands(p: Blob)
    requires GoodBlob(p)
    ensures NulFrom(BlobBytes(p), 0) == |p.name| < |BlobBytes(p)|
    ensures Stand(BlobBytes(p), |p.name| + 1, p.entries, TailBytes(p.image))
  {
    hide NulFrom;
    var s := BlobBytes(p);
    var rest := EntriesBytes(p.entries) + TailBytes(p.image);
    assert s == p.name + [NUL] + rest;
    assert s[0..|p.name| + 1] == p.name + [NUL];
    NulAfter(s, 0, p.name);
    assert s[|p.name| + 1..] == rest;
  }

  // The value a payload has for a key, as a reader finds it.
  function Lookup(s: Bytes, key: Bytes): Option<Bytes> {
    var r := FieldAt(s, key + [EQUALS]);
    if r.None? || r.value > |s| then None else Some(ValueAt(s, r.value))
  }

  // A lookup in an encoded payload gives the first value of that key, and none otherwise.
  lemma LookupBack(p: Blob, key: Bytes)
    requires GoodBlob(p) && EQUALS !in key
    ensures Lookup(BlobBytes(p), key) == FirstValue(p.entries, key)
  {
    hide NulFrom, FieldFrom, EntriesBytes, BlobBytes, TailBytes, Stand, FirstOffset, FirstValue, ValueAt;
    BlobStands(p);
    LooksUp(BlobBytes(p), |p.name| + 1, p.entries, TailBytes(p.image), key);
  }

  // Where it looks does not depend on the image.
  lemma ImageIsNotRead(p: Blob, image: Option<Bytes>, key: Bytes)
    requires GoodBlob(p) && GoodBlob(p.(image := image)) && EQUALS !in key
    ensures FieldAt(BlobBytes(p), key + [EQUALS]) == FieldAt(BlobBytes(p.(image := image)), key + [EQUALS])
  {
    hide NulFrom, FieldFrom, EntriesBytes, BlobBytes, TailBytes, Stand, FirstOffset, FirstValue, ValueAt;
    var q := p.(image := image);
    BlobStands(p);
    BlobStands(q);
    LooksUp(BlobBytes(p), |p.name| + 1, p.entries, TailBytes(p.image), key);
    LooksUp(BlobBytes(q), |q.name| + 1, q.entries, TailBytes(q.image), key);
  }

  // The section of an encoded payload is its image exactly, and there is none without.
  lemma SectionBack(p: Blob)
    requires GoodBlob(p)
    ensures var s, r := BlobBytes(p), SectionOf(BlobBytes(p));
            if p.image.None? then r == NoSection
            else r.Section? && r.start + r.length == |s| && s[r.start..] == p.image.value
  {
    hide NulFrom, TextEndFrom, EntriesBytes, Little, Number, Stand;
    var s, tail := BlobBytes(p), TailBytes(p.image);
    BlobStands(p);
    TextEnds(s, |p.name| + 1, p.entries, tail);
    var text := p.name + [NUL] + EntriesBytes(p.entries);
    assert s == text + tail;
    if p.image.Some? {
      var image := p.image.value;
      var size := Little(|image|, 8);
      NumberBack(|image|, 8);
      assert tail == [NUL] + size + image;
      assert s[|text| + 1..|text| + 9] == size;
      assert s[|text| + 9..] == image;
    }
  }
}
