// The version bump a library change needs (src/api_diff.rs).
module ApiDiff {

  datatype Bump = Patch | Minor | Major

  function Level(b: Bump): nat {
    match b case Patch => 0 case Minor => 1 case Major => 2
  }

  predicate AtMost(a: Bump, b: Bump) {
    Level(a) <= Level(b)
  }

  function Max(a: Bump, b: Bump): Bump {
    if Level(a) < Level(b) then b else a
  }

  // The compared parts of a signature: the parameters and the result as text, the provenance, whether it is unsafe.
  datatype FnSig = FnSig(params: seq<string>, ret: string, provenance: int, isUnsafe: bool)
  datatype StructDef = StructDef(generics: seq<string>, fields: map<string, string>)

  datatype Interface = Interface(
    functions: map<string, FnSig>, methods: map<string, FnSig>,
    structs: map<string, StructDef>, enums: map<string, seq<string>>)

  // ---- What a caller depends on ----

  predicate SameShape(a: FnSig, b: FnSig) {
    a.params == b.params && a.ret == b.ret
  }

  // A caller of the old function can call the new one.
  predicate FnKept(a: FnSig, b: FnSig) {
    SameShape(a, b) && a.provenance == b.provenance && (b.isUnsafe ==> a.isUnsafe)
  }

  predicate FnBroken(before: map<string, FnSig>, after: map<string, FnSig>, name: string) {
    name in before && !(name in after && FnKept(before[name], after[name]))
  }

  predicate FnsBreak(before: map<string, FnSig>, after: map<string, FnSig>) {
    exists name :: name in before && FnBroken(before, after, name)
  }

  predicate Adds<T>(before: map<string, T>, after: map<string, T>) {
    exists name :: name in after && name !in before
  }

  predicate FnRelaxed(before: map<string, FnSig>, after: map<string, FnSig>, name: string) {
    name in before && name in after && before[name].isUnsafe && !after[name].isUnsafe
  }

  predicate FnsGrow(before: map<string, FnSig>, after: map<string, FnSig>) {
    Adds(before, after) || exists name :: name in before && FnRelaxed(before, after, name)
  }

  // A struct or an enum is kept only as it is: new fields and variants break callers too.
  predicate ItemBroken<T(==)>(before: map<string, T>, after: map<string, T>, name: string) {
    name in before && !(name in after && before[name] == after[name])
  }

  predicate ItemsBreak<T(==)>(before: map<string, T>, after: map<string, T>) {
    exists name :: name in before && ItemBroken(before, after, name)
  }

  predicate Breaks(a: Interface, b: Interface) {
    FnsBreak(a.functions, b.functions) || FnsBreak(a.methods, b.methods) || ItemsBreak(a.structs, b.structs)
    || ItemsBreak(a.enums, b.enums)
  }

  predicate Grows(a: Interface, b: Interface) {
    FnsGrow(a.functions, b.functions) || FnsGrow(a.methods, b.methods) || Adds(a.structs, b.structs)
    || Adds(a.enums, b.enums)
  }

  // The bump of a release.
  function NeededBump(a: Interface, b: Interface): Bump {
    if Breaks(a, b) then Major else if Grows(a, b) then Minor else Patch
  }

  // ---- The comparison ----

  // The changes of a diff, by the bump each needs.
  type Changes = seq<Bump>

  // ApiDiff::bump
  method Largest(changes: Changes) returns (b: Bump)
    ensures b == if Major in changes then Major else if Minor in changes then Minor else Patch
  {
    b := Patch;
    var i := 0;
    while i < |changes|
      invariant 0 <= i <= |changes|
      invariant b == if Major in changes[..i] then Major else if Minor in changes[..i] then Minor else Patch
    {
      assert changes[..i + 1] == changes[..i] + [changes[i]];
      b := Max(b, changes[i]);
      i := i + 1;
    }
    assert changes[..i] == changes;
  }

  // The changes of one function that both versions have.
  function FnChanges(a: FnSig, b: FnSig): Changes {
    (if !SameShape(a, b) then [Major] else if a.provenance != b.provenance then [Major] else []) +
    (if !a.isUnsafe && b.isUnsafe then [Major] else if a.isUnsafe && !b.isUnsafe then [Minor] else [])
  }

  predicate SomeBroken(before: map<string, FnSig>, after: map<string, FnSig>, names: set<string>) {
    exists name :: name in names && FnBroken(before, after, name)
  }

  predicate SomeRelaxed(before: map<string, FnSig>, after: map<string, FnSig>, names: set<string>) {
    exists name :: name in names && FnRelaxed(before, after, name)
  }

  lemma OneMoreName(before: map<string, FnSig>, after: map<string, FnSig>, names: set<string>, name: string)
    ensures SomeBroken(before, after, names + {name})
       <==> SomeBroken(before, after, names) || FnBroken(before, after, name)
    ensures SomeRelaxed(before, after, names + {name})
       <==> SomeRelaxed(before, after, names) || FnRelaxed(before, after, name)
  {}

  // The changes of one old name.
  method CompareFunction(before: map<string, FnSig>, after: map<string, FnSig>, name: string) returns (changes: Changes)
    requires name in before
    ensures (Major in changes <==> FnBroken(before, after, name))
    ensures (Minor in changes <==> FnRelaxed(before, after, name))
  {
    if name !in after {
      return [Major];
    }
    changes := FnChanges(before[name], after[name]);
  }

  // compare_functions
  method CompareFunctions(before: map<string, FnSig>, after: map<string, FnSig>) returns (changes: Changes)
    ensures Major in changes <==> FnsBreak(before, after)
    ensures Minor in changes <==> FnsGrow(before, after)
  {
    hide FnBroken, FnRelaxed, SomeBroken, SomeRelaxed;
    changes := [];
    var todo, done := before.Keys, {};
    NoNames(before, after);
    while todo != {}
      invariant todo + done == before.Keys
      invariant (Major in changes <==> SomeBroken(before, after, done))
      invariant (Minor in changes <==> SomeRelaxed(before, after, done))
      decreases |todo|
    {
      var name :| name in todo;
      OneMoreName(before, after, done, name);
      var more := CompareFunction(before, after, name);
      changes := changes + more;
      todo, done := todo - {name}, done + {name};
    }
    assert done == before.Keys;
    AllNames(before, after);
    var added := Added(before, after);
    changes := changes + added;
  }

  lemma NoNames(before: map<string, FnSig>, after: map<string, FnSig>)
    ensures !SomeBroken(before, after, {}) && !SomeRelaxed(before, after, {})
  {}

  lemma AllNames(before: map<string, FnSig>, after: map<string, FnSig>)
    ensures SomeBroken(before, after, before.Keys) <==> FnsBreak(before, after)
    ensures FnsGrow(before, after) <==> Adds(before, after) || SomeRelaxed(before, after, before.Keys)
  {}

  // One minor change for each new name.
  method Added<T>(before: map<string, T>, after: map<string, T>) returns (changes: Changes)
    ensures Major !in changes && (Minor in changes <==> Adds(before, after))
  {
    changes := [];
    var todo := after.Keys - before.Keys;
    ghost var all := todo;
    while todo != {}
      invariant todo <= all && Major !in changes && (Minor in changes <==> todo != all)
      decreases |todo|
    {
      var name :| name in todo;
      assert name in after && name !in before;
      todo := todo - {name};
      changes := changes + [Minor];
    }
    if Adds(before, after) {
      var name :| name in after && name !in before;
      assert name in all;
    }
  }

  // compare_structs, for one struct: its type parameters, then its fields
  method CompareFields(a: StructDef, b: StructDef) returns (changes: Changes)
    ensures Minor !in changes && (Major in changes <==> a != b)
  {
    changes := if a.generics != b.generics then [Major] else [];
    var todo := a.fields.Keys;
    while todo != {}
      invariant todo <= a.fields.Keys && Minor !in changes
      invariant Major in changes <==> a.generics != b.generics || exists f ::
                  f in a.fields && f !in todo && !(f in b.fields && a.fields[f] == b.fields[f])
      decreases |todo|
    {
      var f :| f in todo;
      todo := todo - {f};
      if f !in b.fields || a.fields[f] != b.fields[f] {
        changes := changes + [Major];
      }
    }
    var added := b.fields.Keys - a.fields.Keys;
    ghost var sofar := changes;
    changes := changes + seq(|added|, i => Major);
    if added != {} {
      assert changes[|sofar|] == Major;
    } else {
      assert b.fields.Keys <= a.fields.Keys;
      if Major !in changes {
        assert a.fields.Keys == b.fields.Keys;
        assert a.fields == b.fields;
      }
    }
  }

  function Kept(a: seq<string>, b: seq<string>): (r: seq<string>) {
    if |a| == 0 then [] else Kept(a[..|a| - 1], b) + if a[|a| - 1] in b then [a[|a| - 1]] else []
  }

  lemma {:induction false} KeptAll(a: seq<string>, b: seq<string>)
    requires forall v :: v in a ==> v in b
    ensures Kept(a, b) == a
  {
    if |a| > 0 {
      var front := a[..|a| - 1];
      assert a == front + [a[|a| - 1]];
      KeptAll(front, b);
    }
  }

  // compare_enums, for one enum: removed variants, new ones, then the order of the rest
  method CompareVariants(a: seq<string>, b: seq<string>) returns (changes: Changes)
    ensures Minor !in changes && (Major in changes <==> a != b)
  {
    changes := [];
    var i := 0;
    while i < |a|
      invariant 0 <= i <= |a| && Minor !in changes && (Major in changes <==> exists k :: 0 <= k < i && a[k] !in b)
    {
      if a[i] !in b {
        changes := changes + [Major];
      }
      i := i + 1;
    }
    i := 0;
    while i < |b|
      invariant 0 <= i <= |b| && Minor !in changes
      invariant Major in changes <==> (exists k :: 0 <= k < |a| && a[k] !in b) || (exists k :: 0 <= k < i && b[k] !in a)
    {
      if b[i] !in a {
        changes := changes + [Major];
      }
      i := i + 1;
    }
    if Major !in changes {
      KeptAll(a, b);
      KeptAll(b, a);
    }
    if Kept(a, b) != Kept(b, a) {
      changes := changes + [Major];
    }
  }

  // compare_structs and compare_enums: an item of the old version breaks unless it is there as
  // it was.
  method CompareStructs(before: map<string, StructDef>, after: map<string, StructDef>) returns (changes: Changes)
    ensures (Major in changes <==> ItemsBreak(before, after)) && (Minor in changes <==> Adds(before, after))
  {
    hide SomeItemBroken, ItemsBreak, Adds;
    NoItems(before, after);
    changes := [];
    var todo, done := before.Keys, {};
    while todo != {}
      invariant todo + done == before.Keys && Minor !in changes
      invariant Major in changes <==> SomeItemBroken(before, after, done)
      decreases |todo|
    {
      var name :| name in todo;
      ItemStep(before, after, done, name);
      var more := [Major];
      if name in after {
        more := CompareFields(before[name], after[name]);
      }
      changes := changes + more;
      todo, done := todo - {name}, done + {name};
    }
    assert done == before.Keys;
    AllItems(before, after);
    var added := Added(before, after);
    changes := changes + added;
  }

  method CompareEnums(before: map<string, seq<string>>, after: map<string, seq<string>>) returns (changes: Changes)
    ensures (Major in changes <==> ItemsBreak(before, after)) && (Minor in changes <==> Adds(before, after))
  {
    hide SomeItemBroken, ItemsBreak, Adds;
    NoItems(before, after);
    changes := [];
    var todo, done := before.Keys, {};
    while todo != {}
      invariant todo + done == before.Keys && Minor !in changes
      invariant Major in changes <==> SomeItemBroken(before, after, done)
      decreases |todo|
    {
      var name :| name in todo;
      ItemStep(before, after, done, name);
      var more := [Major];
      if name in after {
        more := CompareVariants(before[name], after[name]);
      }
      changes := changes + more;
      todo, done := todo - {name}, done + {name};
    }
    assert done == before.Keys;
    AllItems(before, after);
    var added := Added(before, after);
    changes := changes + added;
  }

  predicate SomeItemBroken<T(==)>(before: map<string, T>, after: map<string, T>, names: set<string>) {
    exists name :: name in names && ItemBroken(before, after, name)
  }

  lemma ItemStep<T>(before: map<string, T>, after: map<string, T>, names: set<string>, name: string)
    ensures SomeItemBroken(before, after, names + {name})
       <==> SomeItemBroken(before, after, names) || ItemBroken(before, after, name)
  {}

  lemma NoItems<T>(before: map<string, T>, after: map<string, T>)
    ensures !SomeItemBroken(before, after, {})
  {}

  lemma AllItems<T>(before: map<string, T>, after: map<string, T>)
    ensures SomeItemBroken(before, after, before.Keys) <==> ItemsBreak(before, after)
  {}

  // diff, and the bump of the result
  method Diff(a: Interface, b: Interface) returns (changes: Changes, bump: Bump)
    ensures bump == NeededBump(a, b)
  {
    hide FnsBreak, FnsGrow, ItemsBreak, Adds;
    var f := CompareFunctions(a.functions, b.functions);
    var m := CompareFunctions(a.methods, b.methods);
    var s := CompareStructs(a.structs, b.structs);
    var e := CompareEnums(a.enums, b.enums);
    changes := f + m + s + e;
    bump := Largest(changes);
  }

  // ---- What a bump means ----

  // A patch is no change at all in what is compared.
  lemma PatchIsEqual(a: Interface, b: Interface)
    ensures NeededBump(a, b) == Patch <==> a == b
  {
    if NeededBump(a, b) == Patch {
      PatchFns(a.functions, b.functions);
      PatchFns(a.methods, b.methods);
      PatchItems(a.structs, b.structs);
      PatchItems(a.enums, b.enums);
    }
  }

  lemma PatchFns(a: map<string, FnSig>, b: map<string, FnSig>)
    requires !FnsBreak(a, b) && !FnsGrow(a, b)
    ensures a == b
  {
    forall name | name in a
      ensures name in b && a[name] == b[name]
    {
      assert !FnBroken(a, b, name) && !FnRelaxed(a, b, name);
    }
    assert forall name :: name in b ==> name in a;
  }

  lemma PatchItems<T>(a: map<string, T>, b: map<string, T>)
    requires !ItemsBreak(a, b) && !Adds(a, b)
    ensures a == b
  {
    forall name | name in a
      ensures name in b && a[name] == b[name]
    {
      assert !ItemBroken(a, b, name);
    }
    assert forall name :: name in b ==> name in a;
  }

  // Below major every old item is still there, as callers know it.
  predicate Survives(a: Interface, b: Interface) {
    && (forall n :: n in a.functions ==> n in b.functions && FnKept(a.functions[n], b.functions[n]))
    && (forall n :: n in a.methods ==> n in b.methods && FnKept(a.methods[n], b.methods[n]))
    && (forall n :: n in a.structs ==> n in b.structs && b.structs[n] == a.structs[n])
    && (forall n :: n in a.enums ==> n in b.enums && b.enums[n] == a.enums[n])
  }

  lemma BelowMajorIff(a: Interface, b: Interface)
    ensures NeededBump(a, b) != Major <==> Survives(a, b)
  {
    if NeededBump(a, b) != Major {
      assert forall n :: n in a.functions ==> !FnBroken(a.functions, b.functions, n);
      assert forall n :: n in a.methods ==> !FnBroken(a.methods, b.methods, n);
      assert forall n :: n in a.structs ==> !ItemBroken(a.structs, b.structs, n);
      assert forall n :: n in a.enums ==> !ItemBroken(a.enums, b.enums, n);
    }
  }

  // ---- What a release does to code that uses it ----

  // A piece of code that uses an interface. A call relies on a shape and on where a returned reference
  // comes from, and is made in an unsafe block or not. A struct literal gives every field. A match names
  // every variant.
  datatype Use =
    | Call(name: string, params: seq<string>, ret: string, provenance: int, inUnsafe: bool)
    | MethodCall(name: string, params: seq<string>, ret: string, provenance: int, inUnsafe: bool)
    | Literal(name: string, generics: seq<string>, fields: map<string, string>)
    | Match(name: string, variants: seq<string>)

  predicate CallFits(fns: map<string, FnSig>, name: string, params: seq<string>, ret: string, provenance: int,
                     inUnsafe: bool) {
    && name in fns && fns[name].params == params && fns[name].ret == ret && fns[name].provenance == provenance
    && (!inUnsafe ==> !fns[name].isUnsafe)
  }

  predicate Compiles(i: Interface, u: Use) {
    match u
    case Call(name, params, ret, provenance, inUnsafe) =>
      CallFits(i.functions, name, params, ret, provenance, inUnsafe)
    case MethodCall(name, params, ret, provenance, inUnsafe) =>
      CallFits(i.methods, name, params, ret, provenance, inUnsafe)
    case Literal(name, generics, fields) =>
      name in i.structs && i.structs[name].generics == generics && i.structs[name].fields == fields
    case Match(name, variants) => name in i.enums && i.enums[name] == variants
  }

  // Everything that compiles against `a` compiles against `b`.
  ghost predicate StillCompiles(a: Interface, b: Interface) {
    forall u :: Compiles(a, u) ==> Compiles(b, u)
  }

  // A release needs less than a major bump exactly when it breaks no code.
  lemma BreaksNothingIff(a: Interface, b: Interface)
    ensures NeededBump(a, b) != Major <==> StillCompiles(a, b)
  {
    hide NeededBump;
    BelowMajorIff(a, b);
    if StillCompiles(a, b) {
      forall n | n in a.functions
        ensures n in b.functions && FnKept(a.functions[n], b.functions[n])
      {
        var s := a.functions[n];
        assert Compiles(a, Call(n, s.params, s.ret, s.provenance, s.isUnsafe));
        assert Compiles(b, Call(n, s.params, s.ret, s.provenance, s.isUnsafe));
      }
      forall n | n in a.methods
        ensures n in b.methods && FnKept(a.methods[n], b.methods[n])
      {
        var s := a.methods[n];
        assert Compiles(a, MethodCall(n, s.params, s.ret, s.provenance, s.isUnsafe));
        assert Compiles(b, MethodCall(n, s.params, s.ret, s.provenance, s.isUnsafe));
      }
      forall n | n in a.structs
        ensures n in b.structs && b.structs[n] == a.structs[n]
      {
        assert Compiles(a, Literal(n, a.structs[n].generics, a.structs[n].fields));
        assert Compiles(b, Literal(n, a.structs[n].generics, a.structs[n].fields));
      }
      forall n | n in a.enums
        ensures n in b.enums && b.enums[n] == a.enums[n]
      {
        assert Compiles(a, Match(n, a.enums[n])) && Compiles(b, Match(n, a.enums[n]));
      }
    }
  }

  // And a patch exactly when it also allows no code that it did not before.
  lemma AllowsNothingIff(a: Interface, b: Interface)
    ensures NeededBump(a, b) == Patch <==> StillCompiles(a, b) && StillCompiles(b, a)
  {
    hide NeededBump, StillCompiles, Survives;
    BreaksNothingIff(a, b);
    BreaksNothingIff(b, a);
    PatchIsEqual(a, b);
    PatchIsEqual(b, a);
    BelowMajorIff(a, b);
    BelowMajorIff(b, a);
    if Survives(a, b) && Survives(b, a) {
      SurviveBoth(a, b);
    }
  }

  lemma SurviveBoth(a: Interface, b: Interface)
    requires Survives(a, b) && Survives(b, a)
    ensures a == b
  {
    assert a.functions == b.functions && a.methods == b.methods && a.structs == b.structs && a.enums == b.enums;
  }

  // A chain of releases cannot hide a break: the step from the first to the last needs no
  // more than the largest step between.
  lemma Chain(a: Interface, b: Interface, c: Interface)
    ensures AtMost(NeededBump(a, c), Max(NeededBump(a, b), NeededBump(b, c)))
  {
    hide Survives;
    BelowMajorIff(a, b);
    BelowMajorIff(b, c);
    BelowMajorIff(a, c);
    if Survives(a, b) && Survives(b, c) {
      SurvivesChain(a, b, c);
    }
    PatchIsEqual(a, b);
    PatchIsEqual(b, c);
  }

  lemma SurvivesChain(a: Interface, b: Interface, c: Interface)
    requires Survives(a, b) && Survives(b, c)
    ensures Survives(a, c)
  {}

  // The bump over any number of releases.
  function LargestStep(versions: seq<Interface>): Bump {
    if |versions| < 2 then Patch
    else Max(LargestStep(versions[..|versions| - 1]), NeededBump(versions[|versions| - 2], versions[|versions| - 1]))
  }

  lemma {:induction false} Releases(versions: seq<Interface>)
    requires |versions| >= 1
    ensures AtMost(NeededBump(versions[0], versions[|versions| - 1]), LargestStep(versions))
  {
    var n := |versions| - 1;
    if n == 0 {
      PatchIsEqual(versions[0], versions[0]);
    } else {
      Releases(versions[..n]);
      Chain(versions[0], versions[n - 1], versions[n]);
    }
  }
}
