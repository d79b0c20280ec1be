// The in-place rewrite of a payload's `topo=` entry (runtime/vx_worker_main.cpp), and how
// that entry is read (include/vx_hardware_runtime.h).
module Retarget {
  import opened Options
  import opened Abi
  import opened Payload

  const TOPO: Bytes := [116, 111, 112, 111]   // "topo"
  const MINUS: Byte := 45
  const TWO_31: int := 0x8000_0000
  const TWO_32: int := 0x1_0000_0000

  // ---- Decimal numbers ----

  predicate IsDigit(b: Byte) { 48 <= b <= 57 }

  predicate AllDigits(v: Bytes) {
    forall i :: 0 <= i < |v| ==> IsDigit(v[i])
  }

  // snprintf with %d
  function Text(id: int): (t: Bytes)
    ensures |t| > 0 && NUL !in t
  {
    if id >= 0 then Decimal(id) else [MINUS] + Decimal(-id)
  }

  function Decimal(n: nat): (d: Bytes)
    ensures |d| > 0 && AllDigits(d)
  {
    if n < 10 then [48 + n] else Decimal(n / 10) + [48 + n % 10]
  }

  function DigitsValue(v: Bytes): nat
    requires AllDigits(v)
  {
    if |v| == 0 then 0 else 10 * DigitsValue(v[..|v| - 1]) + (v[|v| - 1] - 48)
  }

  lemma {:induction false} DecimalBack(n: nat)
    ensures DigitsValue(Decimal(n)) == n
  {
    if n >= 10 {
      DecimalBack(n / 10);
      assert Decimal(n)[..|Decimal(n)| - 1] == Decimal(n / 10);
    }
  }

  function Zeros(n: nat): (z: Bytes)
    ensures |z| == n && AllDigits(z)
  {
    seq(n, i => 48)
  }

  lemma {:induction false} LeadingZeros(n: nat, d: Bytes)
    requires AllDigits(d)
    ensures AllDigits(Zeros(n) + d) && DigitsValue(Zeros(n) + d) == DigitsValue(d)
    decreases n + |d|
  {
    var v := Zeros(n) + d;
    if |d| > 0 {
      assert v[..|v| - 1] == Zeros(n) + d[..|d| - 1];
      LeadingZeros(n, d[..|d| - 1]);
    } else if n > 0 {
      assert v[..|v| - 1] == Zeros(n - 1) + d;
      LeadingZeros(n - 1, d);
    }
  }

  // strtol in base 10: blanks, a sign, then digits.
  function BlanksEnd(v: Bytes, p: nat): (e: nat)
    requires p <= |v|
    ensures p <= e <= |v| && (p < |v| && IsDigit(v[p]) ==> e == p)
    decreases |v| - p
  {
    if p < |v| && (9 <= v[p] <= 13 || v[p] == 32) then BlanksEnd(v, p + 1) else p
  }

  function DigitsEnd(v: Bytes, p: nat): (e: nat)
    requires p <= |v|
    ensures p <= e <= |v| && AllDigits(v[p..e]) && (e < |v| ==> !IsDigit(v[e]))
    decreases |v| - p
  {
    if p < |v| && IsDigit(v[p]) then
      var e := DigitsEnd(v, p + 1);
      assert forall i :: 0 <= i < e - p ==> v[p..e][i] == if i == 0 then v[p] else v[p + 1..e][i - 1];
      e
    else p
  }

  function Strtol(v: Bytes): int {
    var p := BlanksEnd(v, 0);
    var minus := p < |v| && v[p] == MINUS;
    var q := if p < |v| && (v[p] == MINUS || v[p] == 43) then p + 1 else p;
    var n := DigitsValue(v[q..DigitsEnd(v, q)]);
    var x: int := if minus then -(n as int) else n;
    if x >= TWO_63 then TWO_63 - 1 else if x < -TWO_63 then -TWO_63 else x
  }

  function ToI32(x: int): int {
    (x + TWO_31) % TWO_32 - TWO_31
  }

  // vx_payload_topology
  function Topology(s: Bytes): int {
    var v := Lookup(s, TOPO);
    if v.None? || v.value == [] then -1 else ToI32(Strtol(v.value))
  }

  // A text of digits only is the number it shows.
  lemma DigitsOnly(v: Bytes)
    requires |v| > 0 && AllDigits(v) && DigitsValue(v) < TWO_31
    ensures ToI32(Strtol(v)) == DigitsValue(v)
  {
    hide DigitsValue, BlanksEnd, DigitsEnd;
    assert IsDigit(v[0]);
    assert BlanksEnd(v, 0) == 0;
    assert DigitsEnd(v, 0) == |v|;
    assert v[0..|v|] == v;
  }

  // ---- The rewrite ----

  // `s` with the `width` bytes at `at` replaced.
  function Replaced(s: Bytes, at: nat, text: Bytes): Bytes
    requires at + |text| <= |s|
  {
    s[..at] + text + s[at + |text|..]
  }

  function Padded(id: int, width: nat): (t: Bytes)
    requires |Text(id)| <= width
    ensures |t| == width && NUL !in t
  {
    Zeros(width - |Text(id)|) + Text(id)
  }

  // The payload that a worker for device `id` makes of `s`: its `topo=` value in place, with leading
  // zeros. None when the text of the id is longer than the value.
  function Retargeted(s: Bytes, id: int): (r: Option<Bytes>)
    ensures r.Some? ==> |r.value| == |s|
  {
    var f := FieldAt(s, TOPO + [EQUALS]);
    if f.None? then Some(s)
    else
      FieldInside(s, TOPO + [EQUALS]);
      ValueLength(s, f.value, TOPO + [EQUALS]);
      var width := |ValueAt(s, f.value)|;
      if |Text(id)| <= width then Some(Replaced(s, f.value, Padded(id, width))) else None
  }

  // The rewrite of serve_dispatch.
  method RewriteTopo(s: array<Byte>, id: int) returns (ok: bool)
    modifies s
    ensures ok <==> Retargeted(old(s[..]), id).Some?
    ensures var f := FieldAt(old(s[..]), TOPO + [EQUALS]);
            ok <==> f.None? || (f.value <= s.Length && |Text(id)| <= |ValueAt(old(s[..]), f.value)|)
    ensures s[..] == if ok then Retargeted(old(s[..]), id).value else old(s[..])
  {
    hide NulFrom, FieldFrom, Text, Zeros;
    ghost var was := s[..];
    var f := PayloadField(s[..], TOPO + [EQUALS]);
    if f.None? {
      return true;
    }
    FieldInside(was, TOPO + [EQUALS]);
    ValueLength(was, f.value, TOPO + [EQUALS]);
    var at := f.value;
    var width := |ValueAt(s[..], at)|;
    var local := Text(id);
    var n := |local|;
    if n > width {
      return false;
    }
    WriteDigits(s, at, width, local);
    ok := true;
  }

  // The memset and the memcpy.
  method WriteDigits(s: array<Byte>, at: nat, width: nat, local: Bytes)
    requires |local| <= width && at + width <= s.Length
    modifies s
    ensures s[..] == Replaced(old(s[..]), at, Zeros(width - |local|) + local)
  {
    hide AllDigits, Zeros, Replaced;
    var pad := width - |local|;
    forall i | at <= i < at + pad {
      s[i] := 48;
    }
    forall i | at + pad <= i < at + width {
      s[i] := local[i - at - pad];
    }
    ReplacedBytes(old(s[..]), s[..], at, pad, local);
  }

  lemma ReplacedBytes(s: Bytes, s': Bytes, at: nat, pad: nat, local: Bytes)
    requires |s'| == |s| && at + pad + |local| <= |s|
    requires forall i :: 0 <= i < |s| ==>
               && (at <= i < at + pad ==> s'[i] == 48)
               && (at + pad <= i < at + pad + |local| ==> s'[i] == local[i - at - pad])
               && (i < at || at + pad + |local| <= i ==> s'[i] == s[i])
    ensures s' == Replaced(s, at, Zeros(pad) + local)
  {
    hide AllDigits;
  }

  lemma FieldInside(s: Bytes, key: Bytes)
    ensures var f := FieldAt(s, key); f.Some? ==> IsValue(s, f.value, key) && f.value < |s|
  {
    var end := NulFrom(s, 0);
    if end < |s| {
      FieldIsValue(s, end + 1, key);
    }
  }

  // ---- What the rewrite changes ----

  // `s'` is `s` with `text` for the value of its `topo=` entry.
  predicate Rewritten(s: Bytes, s': Bytes, at: nat, text: Bytes) {
    && IsValue(s, at, TOPO + [EQUALS]) && |text| == NulFrom(s, at) - at && NUL !in text
    && at + |text| <= |s| && s' == Replaced(s, at, text)
  }

  // Outside the value nothing changes, and inside there is no NUL before or after.
  lemma Bytewise(s: Bytes, s': Bytes, at: nat, text: Bytes)
    requires Rewritten(s, s', at, text)
    ensures |s'| == |s| && at + |text| == NulFrom(s, at) < |s|
    ensures forall i :: 0 <= i < |s| && !(at <= i < at + |text|) ==> s'[i] == s[i]
    ensures forall i :: at <= i < at + |text| ==> s[i] != NUL && s'[i] != NUL && s'[i] == text[i - at]
  {
    hide NulFrom;
    forall i | at <= i < at + |text|
      ensures s'[i] == text[i - at] && s'[i] != NUL
    {
      assert text[i - at] in text;
    }
  }

  lemma SameNuls(s: Bytes, s': Bytes, at: nat, text: Bytes, p: nat)
    requires Rewritten(s, s', at, text) && p <= |s|
    ensures |s'| == |s| && NulFrom(s', p) == NulFrom(s, p)
  {
    hide NulFrom, Rewritten, IsValue;
    Bytewise(s, s', at, text);
    var e, e' := NulFrom(s, p), NulFrom(s', p);
    assert e < |s| ==> s'[e] == NUL;
    assert e' < |s| ==> s[e'] == NUL;
  }

  // An entry that holds a byte of the value is the `topo=` entry itself.
  lemma OneEntry(s: Bytes, at: nat, width: nat, p: nat, i: nat)
    requires IsValue(s, at, TOPO + [EQUALS]) && at + width == NulFrom(s, at) && at <= i < at + width
    requires p <= i < NulFrom(s, p) && p <= |s| && (p > 0 ==> s[p - 1] == NUL)
    ensures p == at - 5
  {
    hide NulFrom;
    var e := at - 5;
    assert e > 0 ==> s[e - 1] == NUL;
  }

  // Whether an entry starts with `key=` is not changed.
  lemma SameStart(s: Bytes, s': Bytes, at: nat, text: Bytes, p: nat, key: Bytes)
    requires Rewritten(s, s', at, text) && EQUALS !in key && p <= |s| && (p > 0 ==> s[p - 1] == NUL)
    requires |key| + 1 <= NulFrom(s, p) - p
    ensures StartsWith(s', p, key + [EQUALS]) <==> StartsWith(s, p, key + [EQUALS])
  {
    hide NulFrom, IsValue, Rewritten;
    Bytewise(s, s', at, text);
    RewrittenValue(s, s', at, text);
    var k := key + [EQUALS];
    if p <= at < p + |k| && |text| > 0 {
      OneEntry(s, at, |text|, p, at);
      TooLongKey(s, p, key);
      TooLongKey(s', p, key);
    } else {
      assert s'[p..p + |k|] == s[p..p + |k|];
    }
  }

  lemma RewrittenValue(s: Bytes, s': Bytes, at: nat, text: Bytes)
    requires Rewritten(s, s', at, text)
    ensures IsValue(s, at, TOPO + [EQUALS]) && s[at - 5..at] == TOPO + [EQUALS] == s'[at - 5..at] && at >= 5
  {
    hide NulFrom;
    assert s'[at - 5..at] == s[at - 5..at];
  }

  // A key of more than four bytes without `=` does not match at `topo=`.
  lemma TooLongKey(s: Bytes, p: nat, key: Bytes)
    requires p + 5 <= |s| && s[p..p + 5] == TOPO + [EQUALS] && EQUALS !in key && |key| > 4
    ensures !StartsWith(s, p, key + [EQUALS])
  {
    hide StartsWith;
    var k, t := key + [EQUALS], TOPO + [EQUALS];
    assert s[p + 4] == s[p..p + 5][4] == t[4] == EQUALS;
    assert k[4] == key[4];
    if StartsWith(s, p, k) {
      StartByte(s, p, k, 4);
    }
  }

  lemma StartByte(s: Bytes, p: nat, k: Bytes, i: nat)
    requires StartsWith(s, p, k) && i < |k|
    ensures s[p + i] == k[i]
  {
    assert s[p..p + |k|][i] == s[p + i];
  }

  // So every lookup finds its value where it was.
  lemma {:induction false} SameField(s: Bytes, s': Bytes, at: nat, text: Bytes, p: nat, key: Bytes)
    requires Rewritten(s, s', at, text) && EQUALS !in key && p <= |s| && |s'| == |s| && (p > 0 ==> s[p - 1] == NUL)
    ensures FieldFrom(s', p, key + [EQUALS]) == FieldFrom(s, p, key + [EQUALS])
    decreases |s| - p
  {
    hide NulFrom, Rewritten, StartsWith;
    if p < |s| {
      SameNuls(s, s', at, text, p);
      var end := NulFrom(s, p);
      if end < |s| && end != p {
        if |key| + 1 <= end - p {
          SameStart(s, s', at, text, p, key);
        }
        SameField(s, s', at, text, end + 1, key);
      }
    }
  }

  lemma SameFieldAt(s: Bytes, s': Bytes, at: nat, text: Bytes, key: Bytes)
    requires Rewritten(s, s', at, text) && EQUALS !in key
    ensures |s'| == |s| && FieldAt(s', key + [EQUALS]) == FieldAt(s, key + [EQUALS])
  {
    hide NulFrom, Rewritten, FieldFrom;
    SameNuls(s, s', at, text, 0);
    var end := NulFrom(s, 0);
    if end < |s| {
      SameField(s, s', at, text, end + 1, key);
    }
  }

  // Every other key keeps its value.
  lemma OtherKeys(s: Bytes, s': Bytes, at: nat, text: Bytes, key: Bytes)
    requires Rewritten(s, s', at, text) && EQUALS !in key && key != TOPO
    ensures Lookup(s', key) == Lookup(s, key)
  {
    hide NulFrom, Rewritten, FieldFrom, IsValue;
    SameFieldAt(s, s', at, text, key);
    FieldInside(s, key + [EQUALS]);
    var f := FieldAt(s, key + [EQUALS]);
    if f.Some? {
      SameNuls(s, s', at, text, f.value);
      Elsewhere(s, s', at, text, f.value, key);
    }
  }

  // The values of two different keys have no byte in common.
  lemma Elsewhere(s: Bytes, s': Bytes, at: nat, text: Bytes, r: nat, key: Bytes)
    requires Rewritten(s, s', at, text) && EQUALS !in key && key != TOPO && r < |s| && |s'| == |s|
    requires IsValue(s, r, key + [EQUALS])
    ensures s'[r..NulFrom(s, r)] == s[r..NulFrom(s, r)]
  {
    hide NulFrom, Rewritten;
    Bytewise(s, s', at, text);
    RewrittenValue(s, s', at, text);
    var p := r - |key| - 1;
    forall i | r <= i < NulFrom(s, r)
      ensures s'[i] == s[i]
    {
      if at <= i < at + |text| {
        OneEntry(s, at, |text|, p, i);
        OneKey(s, p, key);
      }
    }
  }

  lemma OneKey(s: Bytes, p: nat, key: Bytes)
    requires StartsWith(s, p, key + [EQUALS]) && StartsWith(s, p, TOPO + [EQUALS]) && EQUALS !in key
    ensures key == TOPO
  {
    var k, t, rest := key + [EQUALS], TOPO + [EQUALS], s[p..];
    forall i | 0 <= i < |k|
      ensures rest[i] == k[i]
    {
      StartByte(s, p, k, i);
    }
    forall i | 0 <= i < |t|
      ensures rest[i] == t[i]
    {
      StartByte(s, p, t, i);
    }
    assert forall i :: 0 <= i < |key| ==> k[i] == key[i];
    assert forall i :: 0 <= i < 4 ==> t[i] == TOPO[i];
    SameEquals(rest, |key|, 4);
    assert key == rest[..4] == TOPO;
  }

  // The payload `s'` is `s` for device `id`. Only the `topo=` entry differs, if there is one. It names
  // the id exactly when the id is not negative or its text fills the field.
  ghost predicate NamesDevice(s: Bytes, id: int, s': Bytes) {
    var f := FieldAt(s, TOPO + [EQUALS]);
    if f.None? then s' == s
    else
      var at := f.value;
      && at < |s|
      && var width := |ValueAt(s, at)|;
         && at + width <= |s| == |s'|
         && (Topology(s') == id <==> id >= 0 || |Text(id)| == width)
         && (forall i :: 0 <= i < |s| && !(at <= i < at + width) ==> s'[i] == s[i])
         && (forall key :: EQUALS !in key ==> FieldAt(s', key + [EQUALS]) == FieldAt(s, key + [EQUALS]))
         && (forall key :: EQUALS !in key && key != TOPO ==> Lookup(s', key) == Lookup(s, key))
  }

  // A rewrite that fits names the worker's device.
  lemma RewriteRight(s: Bytes, id: int)
    requires -TWO_31 <= id < TWO_31 && Retargeted(s, id).Some?
    ensures NamesDevice(s, id, Retargeted(s, id).value)
  {
    hide NulFrom, FieldFrom, Text, Strtol, IsValue;
    if FieldAt(s, TOPO + [EQUALS]).None? {
      return;
    }
    FieldInside(s, TOPO + [EQUALS]);
    var at := FieldAt(s, TOPO + [EQUALS]).value;
    var width := |ValueAt(s, at)|;
    ValueLength(s, at, TOPO + [EQUALS]);
    if |Text(id)| <= width {
      var t := Padded(id, width);
      var s' := Replaced(s, at, t);
      assert Rewritten(s, s', at, t);
      Bytewise(s, s', at, t);
      forall key | EQUALS !in key
        ensures FieldAt(s', key + [EQUALS]) == FieldAt(s, key + [EQUALS])
        ensures key != TOPO ==> Lookup(s', key) == Lookup(s, key)
      {
        SameFieldAt(s, s', at, t, key);
        if key != TOPO {
          OtherKeys(s, s', at, t, key);
        }
      }
      NewTopology(s, s', at, id, width);
    }
  }

  lemma ValueLength(s: Bytes, at: nat, key: Bytes)
    requires IsValue(s, at, key)
    ensures at < |s| && at + |ValueAt(s, at)| == NulFrom(s, at) < |s|
  {}

  lemma NewTopology(s: Bytes, s': Bytes, at: nat, id: int, width: nat)
    requires -TWO_31 <= id < TWO_31 && |Text(id)| <= width && Rewritten(s, s', at, Padded(id, width))
    requires FieldAt(s, TOPO + [EQUALS]) == Some(at) && FieldAt(s', TOPO + [EQUALS]) == Some(at)
    ensures Topology(s') == id <==> id >= 0 || |Text(id)| == width
  {
    hide NulFrom, FieldFrom, Strtol, Text;
    var t := Padded(id, width);
    Bytewise(s, s', at, t);
    SameNuls(s, s', at, t, at);
    assert s'[at..at + width] == t;
    PaddedReads(id, width);
  }

  // How a padded id reads: its leading zeros hide the sign of a negative one.
  lemma PaddedReads(id: int, width: nat)
    requires -TWO_31 <= id < TWO_31 && |Text(id)| <= width
    ensures ToI32(Strtol(Padded(id, width))) == if id >= 0 || |Text(id)| == width then id else 0
  {
    hide Strtol, Decimal, DigitsValue, Zeros;
    var t, pad := Padded(id, width), width - |Text(id)|;
    if id >= 0 {
      LeadingZeros(pad, Decimal(id));
      DecimalBack(id);
      DigitsOnly(t);
    } else if pad == 0 {
      assert t == [MINUS] + Decimal(-id);
      DecimalBack(-id);
      MinusReads(Decimal(-id));
    } else {
      ZerosThenMinus(pad, Decimal(-id));
      assert t == Zeros(pad) + [MINUS] + Decimal(-id);
    }
  }

  lemma MinusReads(d: Bytes)
    requires |d| > 0 && AllDigits(d) && DigitsValue(d) <= TWO_31
    ensures ToI32(Strtol([MINUS] + d)) == 0 - DigitsValue(d)
  {
    hide DigitsValue, BlanksEnd, DigitsEnd, ToI32, AllDigits;
    var v := [MINUS] + d;
    NoBlanks(v);
    AfterMinus(d);
    assert v[0] == MINUS && v[1..DigitsEnd(v, 1)] == d;
    assert Strtol(v) == 0 - DigitsValue(d);
    Small(0 - DigitsValue(d));
  }

  lemma AfterMinus(d: Bytes)
    requires AllDigits(d)
    ensures DigitsEnd([MINUS] + d, 1) == |d| + 1 && ([MINUS] + d)[1..|d| + 1] == d
  {
    hide DigitsEnd;
    var v := [MINUS] + d;
    assert forall i :: 1 <= i < |v| ==> v[i] == d[i - 1];
  }

  lemma Small(x: int)
    requires -TWO_31 <= x < TWO_31
    ensures ToI32(x) == x
  {}

  lemma NoBlanks(v: Bytes)
    requires |v| > 0 && v[0] >= 33
    ensures BlanksEnd(v, 0) == 0
  {}

  lemma ZerosThenMinus(pad: nat, d: Bytes)
    requires pad > 0
    ensures Strtol(Zeros(pad) + [MINUS] + d) == 0
  {
    var v := Zeros(pad) + [MINUS] + d;
    NoBlanks(v);
    hide DigitsValue, BlanksEnd, DigitsEnd;
    var e := DigitsEnd(v, 0);
    assert e >= pad by {
      assert forall i :: 0 <= i < pad ==> v[i] == 48;
    }
    assert v[pad] == MINUS;
    assert forall i :: 0 <= i < e ==> v[0..e][i] == v[i];
    assert e <= pad;
    assert v[0..e] == Zeros(pad);
    ZerosValue(pad);
  }

  lemma ZerosValue(pad: nat)
    ensures DigitsValue(Zeros(pad)) == 0
  {
    LeadingZeros(pad, []);
    assert Zeros(pad) + [] == Zeros(pad);
  }

  // Device -1 in the field of 501 reads as device 0.
  lemma NegativeIsLost()
    ensures |Text(-1)| <= |Text(501)| && Strtol(Padded(-1, |Text(501)|)) == 0
  {
    assert Decimal(501) == Decimal(50) + [49] && Decimal(50) == Decimal(5) + [48];
    assert Padded(-1, 3) == Zeros(1) + [MINUS] + Decimal(1);
    ZerosThenMinus(1, Decimal(1));
  }
}
