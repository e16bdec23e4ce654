/**
 Expansion of local `$ref`s in OpenAPI schemas, over component graphs that may be cyclic.
 */
module RefExpansion {
  import opened Prelude
  import opened Json

  const REF_PREFIX := "#/components/schemas/"

  predicate StartsWith(s: string, prefix: string) {
    prefix <= s
  }

  /** `ref.rsplit("/", 1)[-1]`: what follows the last slash. */
  function LastSegment(s: string): string {
    if s == "" || s[|s| - 1] == '/' then "" else LastSegment(s[..|s| - 1]) + [s[|s| - 1]]
  }

  /** The component a schema object points at, if it is a local reference to one that exists. */
  function Target(fields: Fields, components: Fields): Option<Fields> {
    var ref, schemas := Lookup(fields, "$ref"), Lookup(components, "schemas");
    if ref.Str? && StartsWith(ref.s, REF_PREFIX) && schemas.Object? then
      var target := Lookup(schemas.fields, LastSegment(ref.s));
      if target.Object? then Some(target.fields) else None
    else None
  }

  predicate IsLocalRef(fields: Fields) {
    var ref := Lookup(fields, "$ref");
    ref.Str? && StartsWith(ref.s, REF_PREFIX)
  }

  // ---------------------------------------------------------------------------------------------
  // The finite supply of references
  // ---------------------------------------------------------------------------------------------

  /** Every string found under a "$ref" key anywhere in a value. */
  function RefsIn(v: Value): set<string> {
    match v
    case Object(fields) =>
      (if Lookup(fields, "$ref").Str? then {Lookup(fields, "$ref").s} else {})
      + (set k, r | k in fields && r in RefsIn(fields[k]) :: r)
    case List(items) => set i, r | 0 <= i < |items| && r in RefsIn(items[i]) :: r
    case _ => {}
  }

  function Supply(fields: Fields, components: Fields): set<string> {
    RefsIn(Object(fields)) + RefsIn(Object(components))
  }

  lemma RefsInChild(fields: Fields, k: string)
    requires k in fields
    ensures RefsIn(fields[k]) <= RefsIn(Object(fields))
  {
  }

  lemma RefsInItem(items: seq<Value>, i: nat)
    requires i < |items|
    ensures RefsIn(items[i]) <= RefsIn(List(items))
  {
  }

  lemma TargetIsSupplied(fields: Fields, components: Fields)
    requires Target(fields, components).Some?
    ensures Lookup(fields, "$ref").s in RefsIn(Object(fields))
    ensures RefsIn(Object(Target(fields, components).value)) <= RefsIn(Object(components))
  {
    var schemas := components["schemas"].fields;
    RefsInChild(components, "schemas");
    RefsInChild(schemas, LastSegment(fields["$ref"].s));
  }

  // ---------------------------------------------------------------------------------------------
  // Expansion
  // ---------------------------------------------------------------------------------------------

  /**
   `_resolve_local_refs`. It terminates on every graph: following a reference uses up one of the
   finitely many reference strings, and everything else descends into the schema.
   */
  function Resolve(fields: Fields, components: Fields, seen: set<string>): Fields
    decreases Supply(fields, components) - seen, Object(fields), 1
  {
    if IsLocalRef(fields) && fields["$ref"].s in seen then fields
    else
      var target := Target(fields, components);
      if target.Some? then
        TargetIsSupplied(fields, components);
        Resolve(target.value, components, seen + {fields["$ref"].s})
      else
        map k | k in fields :: (RefsInChild(fields, k); ResolveValue(fields[k], components, seen))
  }

  /** Objects are expanded, the objects of a list one by one; anything else, nested lists too, is copied. */
  function ResolveValue(v: Value, components: Fields, seen: set<string>): Value
    decreases RefsIn(v) + RefsIn(Object(components)) - seen, v, 2
  {
    match v
    case Object(fields) => Object(Resolve(fields, components, seen))
    case List(items) =>
      List(seq(|items|, i requires 0 <= i < |items| =>
        (RefsInItem(items, i);
         if items[i].Object? then Object(Resolve(items[i].fields, components, seen)) else items[i])))
    case _ => v
  }

  // ---------------------------------------------------------------------------------------------
  // Meaning: what a reader who follows every reference sees
  // ---------------------------------------------------------------------------------------------

  /** Following references from here ends after exactly `n` of them. */
  predicate Settles(fields: Fields, components: Fields, n: nat)
    decreases n
  {
    var target := Target(fields, components);
    if n == 0 then target.None? else target.Some? && Settles(target.value, components, n - 1)
  }

  function Follow(fields: Fields, components: Fields, n: nat): Fields
    requires Settles(fields, components, n)
    decreases n
  {
    if n == 0 then fields else Follow(Target(fields, components).value, components, n - 1)
  }

  ghost predicate Ends(fields: Fields, components: Fields) {
    exists n: nat :: Settles(fields, components, n)
  }

  /** The object that following references arrives at, if they do not go round for ever. */
  ghost function Deref(fields: Fields, components: Fields): Option<Fields> {
    if Ends(fields, components) then
      var n: nat :| Settles(fields, components, n);
      Some(Follow(fields, components, n))
    else None
  }

  lemma {:induction false} SettlesOnce(fields: Fields, components: Fields, m: nat, n: nat)
    requires Settles(fields, components, m) && Settles(fields, components, n)
    ensures m == n
    decreases m
  {
    if m > 0 && n > 0 { SettlesOnce(Target(fields, components).value, components, m - 1, n - 1); }
  }

  lemma {:induction false} DerefIsFollow(fields: Fields, components: Fields, n: nat)
    requires Settles(fields, components, n)
    ensures Deref(fields, components) == Some(Follow(fields, components, n))
  {
    var m: nat :| Settles(fields, components, m) && Deref(fields, components) == Some(Follow(fields, components, m));
    SettlesOnce(fields, components, m, n);
  }

  /** A reference and its target mean the same object. */
  lemma DerefStep(fields: Fields, components: Fields)
    requires Target(fields, components).Some?
    ensures Deref(fields, components) == Deref(Target(fields, components).value, components)
  {
    var target := Target(fields, components).value;
    if n: nat :| Settles(target, components, n) {
      assert Settles(fields, components, n + 1);
      DerefIsFollow(target, components, n);
      DerefIsFollow(fields, components, n + 1);
    } else {
      forall n: nat | Settles(fields, components, n) ensures n > 0 && Settles(target, components, n - 1) {
      }
    }
  }

  datatype Step = Key(k: string) | Index(i: nat)

  datatype Sight = Keys(names: set<string>) | Length(n: nat) | Leaf(v: Value) | Absent | Endless

  /** What is found at the end of a path, references being followed at every object on the way. */
  ghost function Observe(v: Value, components: Fields, path: seq<Step>): Sight
    decreases |path|
  {
    match v
    case Object(fields) =>
      var node := Deref(fields, components);
      if node.None? then Endless
      else if path == [] then Keys(node.value.Keys)
      else if path[0].Key? && path[0].k in node.value then Observe(node.value[path[0].k], components, path[1..])
      else Absent
    case List(items) =>
      if path == [] then Length(|items|)
      else if path[0].Index? && path[0].i < |items| then Observe(items[path[0].i], components, path[1..])
      else Absent
    case _ => if path == [] then Leaf(v) else Absent
  }

  /** An object whose reference leads nowhere stays one when its members are expanded. */
  lemma {:induction false} MembersKeepTarget(fields: Fields, components: Fields, seen: set<string>)
    requires Target(fields, components).None? && !(IsLocalRef(fields) && fields["$ref"].s in seen)
    ensures var r := Resolve(fields, components, seen);
      && r.Keys == fields.Keys && Target(r, components).None?
      && forall k :: k in fields ==> r[k] == ResolveValue(fields[k], components, seen)
  {
  }

  /**
   Expansion keeps the meaning of a schema on every component graph, cyclic ones included: at every
   path a reader who follows references finds the same thing before and after.
   */
  lemma {:induction false} ResolveKeepsMeaning(fields: Fields, components: Fields, seen: set<string>, path: seq<Step>)
    ensures Observe(Object(Resolve(fields, components, seen)), components, path) == Observe(Object(fields), components, path)
    decreases |path|, Supply(fields, components) - seen, Object(fields), 1
  {
    var target := Target(fields, components);
    if IsLocalRef(fields) && fields["$ref"].s in seen {
    } else if target.Some? {
      TargetIsSupplied(fields, components);
      ResolveKeepsMeaning(target.value, components, seen + {fields["$ref"].s}, path);
      DerefStep(fields, components);
    } else {
      MembersKeepTarget(fields, components, seen);
      var r := Resolve(fields, components, seen);
      DerefIsFollow(fields, components, 0);
      DerefIsFollow(r, components, 0);
      if path != [] && path[0].Key? && path[0].k in fields {
        ResolveValueKeepsMeaning(fields[path[0].k], components, seen, path[1..]);
      }
    }
  }

  lemma {:induction false} ResolveValueKeepsMeaning(v: Value, components: Fields, seen: set<string>, path: seq<Step>)
    ensures Observe(ResolveValue(v, components, seen), components, path) == Observe(v, components, path)
    decreases |path|, RefsIn(v) + RefsIn(Object(components)) - seen, v, 2
  {
    match v {
      case Object(fields) => ResolveKeepsMeaning(fields, components, seen, path);
      case List(items) =>
        if path != [] && path[0].Index? && path[0].i < |items| && items[path[0].i].Object? {
          ResolveKeepsMeaning(items[path[0].i].fields, components, seen, path[1..]);
        }
      case _ =>
    }
  }

  // ---------------------------------------------------------------------------------------------
  // What is left unexpanded
  // ---------------------------------------------------------------------------------------------

  /** The references that expansion would follow: those of resolvable reference objects in visited positions. */
  function Sites(fields: Fields, components: Fields): set<string>
    decreases Object(fields), 1
  {
    if Target(fields, components).Some? then {fields["$ref"].s}
    else set k, r | k in fields && r in ValueSites(fields[k], components) :: r
  }

  function ValueSites(v: Value, components: Fields): set<string>
    decreases v, 2
  {
    match v
    case Object(fields) => Sites(fields, components)
    case List(items) =>
      set i, r | 0 <= i < |items| && items[i].Object? && r in Sites(items[i].fields, components) :: r
    case _ => {}
  }

  lemma {:induction false} MemberSites(fields: Fields, components: Fields, k: string)
    requires Target(fields, components).None? && k in fields
    ensures ValueSites(fields[k], components) <= Sites(fields, components)
  {
  }

  lemma {:induction false} ItemSites(items: seq<Value>, components: Fields, i: nat)
    requires i < |items| && items[i].Object?
    ensures Sites(items[i].fields, components) <= ValueSites(List(items), components)
  {
  }

  /** The component a reference string names. */
  function Component(ref: string, components: Fields): Option<Fields> {
    Target(map["$ref" := Str(ref)], components)
  }

  /** `to` occurs in a visited position of the component that `from` names. */
  predicate Edge(from: string, to: string, components: Fields) {
    Component(from, components).Some? && to in Sites(Component(from, components).value, components)
  }

  ghost predicate IsChain(chain: seq<string>, components: Fields) {
    |chain| >= 2 && forall i :: 0 <= i < |chain| - 1 ==> Edge(chain[i], chain[i + 1], components)
  }

  ghost predicate Reaches(from: string, to: string, components: Fields) {
    exists chain :: IsChain(chain, components) && chain[0] == from && chain[|chain| - 1] == to
  }

  ghost predicate Recursive(ref: string, components: Fields) {
    Reaches(ref, ref, components)
  }

  /** Met on the way from a set of references. */
  ghost predicate Met(sites: set<string>, ref: string, components: Fields) {
    ref in sites || exists site :: site in sites && Reaches(site, ref, components)
  }

  lemma EdgeReaches(from: string, to: string, components: Fields)
    requires Edge(from, to, components)
    ensures Reaches(from, to, components)
  {
    var chain := [from, to];
    assert IsChain(chain, components) && chain[0] == from && chain[|chain| - 1] == to;
  }

  lemma ReachesThenEdge(from: string, mid: string, to: string, components: Fields)
    requires Reaches(from, mid, components) && Edge(mid, to, components)
    ensures Reaches(from, to, components)
  {
    var chain :| IsChain(chain, components) && chain[0] == from && chain[|chain| - 1] == mid;
    var longer := chain + [to];
    forall i | 0 <= i < |longer| - 1 ensures Edge(longer[i], longer[i + 1], components) {
      if i < |chain| - 1 { assert Edge(chain[i], chain[i + 1], components); }
    }
    assert IsChain(longer, components) && longer[0] == from && longer[|longer| - 1] == to;
  }

  /** Everything reached from a reference is met from its component's own references. */
  lemma {:induction false} ReachedIsMet(from: string, to: string, components: Fields)
    requires Reaches(from, to, components)
    ensures Component(from, components).Some? && Met(Sites(Component(from, components).value, components), to, components)
  {
    var chain :| IsChain(chain, components) && chain[0] == from && chain[|chain| - 1] == to;
    assert Edge(chain[0], chain[0 + 1], components);
    if |chain| > 2 {
      var rest := chain[1..];
      forall i | 0 <= i < |rest| - 1 ensures Edge(rest[i], rest[i + 1], components) {
        assert Edge(chain[i + 1], chain[i + 1 + 1], components);
      }
      assert IsChain(rest, components) && rest[0] == chain[1] && rest[|rest| - 1] == to;
      assert Reaches(chain[1], to, components);
    }
  }

  lemma {:induction false} MetThroughComponent(ref: string, to: string, components: Fields)
    requires Component(ref, components).Some?
    requires Met(Sites(Component(ref, components).value, components), to, components)
    ensures Reaches(ref, to, components)
  {
    var sites := Sites(Component(ref, components).value, components);
    if to in sites {
      EdgeReaches(ref, to, components);
    } else {
      var site :| site in sites && Reaches(site, to, components);
      var chain :| IsChain(chain, components) && chain[0] == site && chain[|chain| - 1] == to;
      var longer := [ref] + chain;
      forall i | 0 <= i < |longer| - 1 ensures Edge(longer[i], longer[i + 1], components) {
        if i > 0 { assert Edge(chain[i - 1], chain[i - 1 + 1], components); }
      }
      assert IsChain(longer, components) && longer[0] == ref && longer[|longer| - 1] == to;
    }
  }

  /** What expansion has on its stack when it visits an object. */
  ghost predicate OnPath(sites: set<string>, components: Fields, seen: set<string>) {
    forall q, r :: q in seen && r in sites ==> Reaches(q, r, components)
  }

  ghost predicate SeenResolve(components: Fields, seen: set<string>) {
    forall q :: q in seen ==> Component(q, components).Some?
  }

  lemma LocalRefComponent(fields: Fields, components: Fields)
    requires IsLocalRef(fields)
    ensures Component(fields["$ref"].s, components) == Target(fields, components)
  {
  }

  lemma {:induction false} OnPathInTarget(fields: Fields, components: Fields, seen: set<string>)
    requires Target(fields, components).Some? && OnPath(Sites(fields, components), components, seen)
    ensures OnPath(Sites(Target(fields, components).value, components), components, seen + {fields["$ref"].s})
  {
    var ref := fields["$ref"].s;
    LocalRefComponent(fields, components);
    forall q, r | q in seen + {ref} && r in Sites(Target(fields, components).value, components)
      ensures Reaches(q, r, components)
    {
      assert Edge(ref, r, components);
      EdgeReaches(ref, r, components);
      if q in seen { ReachesThenEdge(q, ref, r, components); }
    }
  }

  /** Every reference left in the result is one that its own component leads back to. */
  lemma {:induction false} OnlyRecursiveRefsRemain(fields: Fields, components: Fields, seen: set<string>, ref: string)
    requires SeenResolve(components, seen) && OnPath(Sites(fields, components), components, seen)
    requires ref in Sites(Resolve(fields, components, seen), components)
    ensures Recursive(ref, components) && Met(Sites(fields, components), ref, components)
    decreases Supply(fields, components) - seen, Object(fields), 1
  {
    var target := Target(fields, components);
    if IsLocalRef(fields) { LocalRefComponent(fields, components); }
    if IsLocalRef(fields) && fields["$ref"].s in seen {
    } else if target.Some? {
      TargetIsSupplied(fields, components);
      OnPathInTarget(fields, components, seen);
      OnlyRecursiveRefsRemain(target.value, components, seen + {fields["$ref"].s}, ref);
      MetThroughComponent(fields["$ref"].s, ref, components);
    } else {
      MembersKeepTarget(fields, components, seen);
      var r := Resolve(fields, components, seen);
      var k :| k in r && ref in ValueSites(r[k], components);
      RefsInChild(fields, k);
      MemberSites(fields, components, k);
      OnlyRecursiveRefsRemainIn(fields[k], components, seen, ref);
    }
  }

  lemma {:induction false} OnlyRecursiveRefsRemainIn(v: Value, components: Fields, seen: set<string>, ref: string)
    requires SeenResolve(components, seen) && OnPath(ValueSites(v, components), components, seen)
    requires ref in ValueSites(ResolveValue(v, components, seen), components)
    ensures Recursive(ref, components) && Met(ValueSites(v, components), ref, components)
    decreases RefsIn(v) + RefsIn(Object(components)) - seen, v, 2
  {
    match v {
      case Object(fields) => OnlyRecursiveRefsRemain(fields, components, seen, ref);
      case List(items) =>
        var resolved := ResolveValue(v, components, seen).items;
        var i :| 0 <= i < |resolved| && resolved[i].Object? && ref in Sites(resolved[i].fields, components);
        RefsInItem(items, i);
        assert items[i].Object?;
        ItemSites(items, components, i);
        OnlyRecursiveRefsRemain(items[i].fields, components, seen, ref);
      case _ =>
    }
  }

  /** If nothing is left to expand, nothing that was met is on the stack or recursive. */
  lemma {:induction false} CompleteMeansAcyclic(fields: Fields, components: Fields, seen: set<string>, ref: string)
    requires SeenResolve(components, seen) && Sites(Resolve(fields, components, seen), components) == {}
    requires Met(Sites(fields, components), ref, components)
    ensures ref !in seen && !Recursive(ref, components)
    decreases Supply(fields, components) - seen, Object(fields), 1
  {
    var target := Target(fields, components);
    if IsLocalRef(fields) { LocalRefComponent(fields, components); }
    if IsLocalRef(fields) && fields["$ref"].s in seen {
    } else if target.Some? {
      var own := fields["$ref"].s;
      TargetIsSupplied(fields, components);
      if Reaches(own, ref, components) {
        ReachedIsMet(own, ref, components);
        CompleteMeansAcyclic(target.value, components, seen + {own}, ref);
      } else {
        assert ref == own;
      }
    } else {
      MembersKeepTarget(fields, components, seen);
      var r := Resolve(fields, components, seen);
      var site :| site in Sites(fields, components) && (ref == site || Reaches(site, ref, components));
      var k :| k in fields && site in ValueSites(fields[k], components);
      RefsInChild(fields, k);
      MemberSites(r, components, k);
      CompleteMeansAcyclicIn(fields[k], components, seen, ref);
    }
  }

  lemma {:induction false} CompleteMeansAcyclicIn(v: Value, components: Fields, seen: set<string>, ref: string)
    requires SeenResolve(components, seen) && ValueSites(ResolveValue(v, components, seen), components) == {}
    requires Met(ValueSites(v, components), ref, components)
    ensures ref !in seen && !Recursive(ref, components)
    decreases RefsIn(v) + RefsIn(Object(components)) - seen, v, 2
  {
    match v {
      case Object(fields) => CompleteMeansAcyclic(fields, components, seen, ref);
      case List(items) =>
        var resolved := ResolveValue(v, components, seen).items;
        var site :| site in ValueSites(v, components) && (ref == site || Reaches(site, ref, components));
        var i :| 0 <= i < |items| && items[i].Object? && site in Sites(items[i].fields, components);
        RefsInItem(items, i);
        ItemSites(resolved, components, i);
        CompleteMeansAcyclic(items[i].fields, components, seen, ref);
      case _ =>
    }
  }

  // ---------------------------------------------------------------------------------------------
  // Path by path
  // ---------------------------------------------------------------------------------------------

  /** Plain navigation, no reference followed. */
  function At(v: Value, path: seq<Step>): Option<Value>
    decreases |path|
  {
    if path == [] then Some(v)
    else
      match v
      case Object(fields) => if path[0].Key? && path[0].k in fields then At(fields[path[0].k], path[1..]) else None
      case List(items) => if path[0].Index? && path[0].i < |items| then At(items[path[0].i], path[1..]) else None
      case _ => None
  }

  /** The references being expanded where a path of the result leads, if expansion visits an object there. */
  function Expanding(fields: Fields, components: Fields, seen: set<string>, path: seq<Step>): Option<set<string>>
    decreases Supply(fields, components) - seen, Object(fields), 1
  {
    var target := Target(fields, components);
    if IsLocalRef(fields) && fields["$ref"].s in seen then if path == [] then Some(seen) else None
    else if target.Some? then
      TargetIsSupplied(fields, components);
      Expanding(target.value, components, seen + {fields["$ref"].s}, path)
    else if path == [] then Some(seen)
    else if path[0].Key? && path[0].k in fields then
      RefsInChild(fields, path[0].k);
      ExpandingIn(fields[path[0].k], components, seen, path[1..])
    else None
  }

  function ExpandingIn(v: Value, components: Fields, seen: set<string>, path: seq<Step>): Option<set<string>>
    decreases RefsIn(v) + RefsIn(Object(components)) - seen, v, 2
  {
    match v
    case Object(fields) => Expanding(fields, components, seen, path)
    case List(items) =>
      if path != [] && path[0].Index? && path[0].i < |items| && items[path[0].i].Object? then
        RefsInItem(items, path[0].i);
        Expanding(items[path[0].i].fields, components, seen, path[1..])
      else None
    case _ => None
  }

  /** A visited position of the result holds an object, and a reference left there is unresolvable or being expanded. */
  ghost predicate Settled(v: Value, components: Fields, stack: set<string>, path: seq<Step>) {
    && At(v, path).Some? && At(v, path).value.Object?
    && (Target(At(v, path).value.fields, components).Some? ==> At(v, path).value.fields["$ref"].s in stack)
  }

  lemma {:induction false} LeftRefsAreBeingExpanded(fields: Fields, components: Fields, seen: set<string>, path: seq<Step>)
    requires Expanding(fields, components, seen, path).Some?
    ensures Settled(Object(Resolve(fields, components, seen)), components, Expanding(fields, components, seen, path).value, path)
    decreases Supply(fields, components) - seen, Object(fields), 1
  {
    var target := Target(fields, components);
    if IsLocalRef(fields) && fields["$ref"].s in seen {
    } else if target.Some? {
      TargetIsSupplied(fields, components);
      LeftRefsAreBeingExpanded(target.value, components, seen + {fields["$ref"].s}, path);
    } else {
      MembersKeepTarget(fields, components, seen);
      if path != [] {
        RefsInChild(fields, path[0].k);
        LeftRefsAreBeingExpandedIn(fields[path[0].k], components, seen, path[1..]);
      }
    }
  }

  lemma {:induction false} LeftRefsAreBeingExpandedIn(v: Value, components: Fields, seen: set<string>, path: seq<Step>)
    requires ExpandingIn(v, components, seen, path).Some?
    ensures Settled(ResolveValue(v, components, seen), components, ExpandingIn(v, components, seen, path).value, path)
    decreases RefsIn(v) + RefsIn(Object(components)) - seen, v, 2
  {
    match v {
      case Object(fields) => LeftRefsAreBeingExpanded(fields, components, seen, path);
      case List(items) =>
        RefsInItem(items, path[0].i);
        LeftRefsAreBeingExpanded(items[path[0].i].fields, components, seen, path[1..]);
      case _ =>
    }
  }

  /** Expanding a schema that has nothing left to expand changes nothing. */
  lemma {:induction false} NothingLeftNothingChanges(fields: Fields, components: Fields, seen: set<string>)
    requires Sites(fields, components) == {}
    ensures Resolve(fields, components, seen) == fields
    decreases Supply(fields, components) - seen, Object(fields), 1
  {
    if !(IsLocalRef(fields) && fields["$ref"].s in seen) {
      forall k | k in fields ensures ResolveValue(fields[k], components, seen) == fields[k] {
        RefsInChild(fields, k);
        MemberSites(fields, components, k);
        NothingLeftNothingChangesIn(fields[k], components, seen);
      }
    }
  }

  lemma {:induction false} NothingLeftNothingChangesIn(v: Value, components: Fields, seen: set<string>)
    requires ValueSites(v, components) == {}
    ensures ResolveValue(v, components, seen) == v
    decreases RefsIn(v) + RefsIn(Object(components)) - seen, v, 2
  {
    match v {
      case Object(fields) => NothingLeftNothingChanges(fields, components, seen);
      case List(items) =>
        forall i | 0 <= i < |items| && items[i].Object?
          ensures Resolve(items[i].fields, components, seen) == items[i].fields
        {
          RefsInItem(items, i);
          ItemSites(items, components, i);
          NothingLeftNothingChanges(items[i].fields, components, seen);
        }
        assert ResolveValue(v, components, seen).items == items;
      case _ =>
    }
  }

  /** The schema as the dispatcher expands it. */
  function Expanded(fields: Fields, components: Fields): Fields {
    Resolve(fields, components, {})
  }

  /** No recursive component can be met from the schema. */
  ghost predicate Acyclic(fields: Fields, components: Fields) {
    forall ref :: Met(Sites(fields, components), ref, components) ==> !Recursive(ref, components)
  }

  /**
   Expansion is complete exactly when no recursive component can be met from the schema; then the
   result is the full expansion, and expanding it again changes nothing.
   */
  lemma {:induction false} ExpansionIsCompleteIffAcyclic(fields: Fields, components: Fields)
    ensures Sites(Expanded(fields, components), components) == {} <==> Acyclic(fields, components)
    ensures Acyclic(fields, components) ==>
      Expanded(Expanded(fields, components), components) == Expanded(fields, components)
  {
    if Acyclic(fields, components) {
      if ref :| ref in Sites(Expanded(fields, components), components) {
        OnlyRecursiveRefsRemain(fields, components, {}, ref);
      }
      NothingLeftNothingChanges(Expanded(fields, components), components, {});
    }
    if Sites(Expanded(fields, components), components) == {} {
      forall ref | Met(Sites(fields, components), ref, components) ensures !Recursive(ref, components) {
        CompleteMeansAcyclic(fields, components, {}, ref);
      }
    }
  }

  // ---------------------------------------------------------------------------------------------
  // Which component a reference names
  // ---------------------------------------------------------------------------------------------

  /** The reference is local, and `name` is the part behind its last slash. */
  ghost predicate Names(ref: string, name: string) {
    '/' !in name && exists front: string ::
      ref == "#/components/schemas/" + front + name && (front == "" || front[|front| - 1] == '/')
  }

  /** The component schema of that name, where the document has one. */
  predicate IsSchema(components: Fields, name: string, schema: Fields) {
    "schemas" in components && components["schemas"].Object? && name in components["schemas"].fields
      && components["schemas"].fields[name] == Object(schema)
  }

  lemma {:induction false} LastSegmentIs(front: string, name: string)
    requires '/' !in name && (front == "" || front[|front| - 1] == '/')
    ensures LastSegment(front + name) == name
  {
    var s := front + name;
    if name != "" {
      assert s[..|s| - 1] == front + name[..|name| - 1] && s[|s| - 1] == name[|name| - 1];
      LastSegmentIs(front, name[..|name| - 1]);
    } else {
      assert s == front;
    }
  }

  lemma {:induction false} LastSegmentSplits(s: string)
    ensures '/' !in LastSegment(s) && |LastSegment(s)| <= |s|
    ensures var front := s[..|s| - |LastSegment(s)|];
      s == front + LastSegment(s) && (front == "" || front[|front| - 1] == '/')
  {
    if s != "" && s[|s| - 1] != '/' {
      LastSegmentSplits(s[..|s| - 1]);
      assert s == s[..|s| - 1] + [s[|s| - 1]];
    }
  }

  lemma {:induction false} NamesIsLocal(ref: string, name: string)
    requires Names(ref, name)
    ensures StartsWith(ref, REF_PREFIX) && LastSegment(ref) == name
  {
    var front :| ref == "#/components/schemas/" + front + name && (front == "" || front[|front| - 1] == '/');
    var before := "#/components/schemas/" + front;
    assert ref == before + name && REF_PREFIX <= before;
    LastSegmentIs(before, name);
  }

  lemma NoSlashInName(before: string, name: string, i: nat)
    requires '/' !in name && i < |before| + |name|
    ensures i < |before| || (before + name)[i] != '/'
  {
    if i >= |before| { assert (before + name)[i] == name[i - |before|]; }
  }

  /** The prefix ends in a slash, so the last segment cannot reach into it. */
  lemma {:induction false} LocalIsNamed(ref: string)
    requires StartsWith(ref, REF_PREFIX)
    ensures Names(ref, LastSegment(ref))
  {
    var name, n := LastSegment(ref), |REF_PREFIX|;
    LastSegmentSplits(ref);
    var before := ref[..|ref| - |name|];
    assert n == 21 && ref[20] == REF_PREFIX[20] == '/';
    NoSlashInName(before, name, 20);
    var front := before[n..];
    assert before == REF_PREFIX + front;
    assert ref == "#/components/schemas/" + front + name;
  }

  /** Every local reference names exactly one component: what stands behind its last slash. */
  lemma {:induction false} LocalRefNames(ref: string, name: string)
    ensures Names(ref, name) <==> StartsWith(ref, REF_PREFIX) && LastSegment(ref) == name
  {
    if Names(ref, name) { NamesIsLocal(ref, name); }
    if StartsWith(ref, REF_PREFIX) { LocalIsNamed(ref); }
  }

  lemma TargetIsNamed(fields: Fields, components: Fields, ref: string, name: string, schema: Fields)
    requires "$ref" in fields && fields["$ref"] == Str(ref) && Names(ref, name)
    ensures Target(fields, components) == Some(schema) <==> IsSchema(components, name, schema)
  {
    LocalRefNames(ref, name);
  }

  /**
   A reference is expanded into the schema that the part behind its last slash names, whatever else stands beside
   it, unless it is being expanded already.
   */
  lemma {:induction false} NamedSchemaIsExpanded(
    fields: Fields, components: Fields, seen: set<string>, ref: string, name: string, schema: Fields)
    requires "$ref" in fields && fields["$ref"] == Str(ref) && Names(ref, name) && IsSchema(components, name, schema)
    ensures Resolve(fields, components, seen) == if ref in seen then fields else Resolve(schema, components, seen + {ref})
  {
    TargetIsNamed(fields, components, ref, name, schema);
  }

  /** A reference to a schema that is not there, or to anything but a component schema, stays. */
  lemma {:induction false} UnnamedRefStays(components: Fields, seen: set<string>, ref: string)
    requires forall name, schema :: !(Names(ref, name) && IsSchema(components, name, schema))
    ensures Resolve(map["$ref" := Str(ref)], components, seen) == map["$ref" := Str(ref)]
  {
    var fields: Fields := map["$ref" := Str(ref)];
    if Target(fields, components).Some? {
      LocalRefNames(ref, LastSegment(ref));
      assert IsSchema(components, LastSegment(ref), Target(fields, components).value);
    }
  }

  /** No "$ref" key anywhere. */
  predicate RefFree(v: Value) {
    match v
    case Object(fields) => "$ref" !in fields && forall k :: k in fields ==> RefFree(fields[k])
    case List(items) => forall i :: 0 <= i < |items| ==> RefFree(items[i])
    case _ => true
  }

  lemma {:induction false} RefFreeHasNoSites(v: Value, components: Fields)
    requires RefFree(v)
    ensures ValueSites(v, components) == {}
    decreases v
  {
    match v {
      case Object(fields) =>
        forall k | k in fields ensures ValueSites(fields[k], components) == {} { RefFreeHasNoSites(fields[k], components); }
      case List(items) =>
        forall i | 0 <= i < |items| && items[i].Object? ensures Sites(items[i].fields, components) == {} {
          RefFreeHasNoSites(items[i], components);
        }
      case _ =>
    }
  }

  /** A reference to a schema without references is replaced by that schema. */
  lemma PlainSchemaIsInlined(components: Fields, ref: string, name: string, schema: Fields)
    requires Names(ref, name) && IsSchema(components, name, schema) && RefFree(Object(schema))
    ensures Expanded(map["$ref" := Str(ref)], components) == schema
  {
    NamedSchemaIsExpanded(map["$ref" := Str(ref)], components, {}, ref, name, schema);
    RefFreeHasNoSites(Object(schema), components);
    NothingLeftNothingChanges(schema, components, {} + {ref});
  }

  /** A reference left where expansion has been, to a schema that is there, is one being expanded on that path. */
  lemma {:induction false} NamedRefsLeftAreBeingExpanded(
    fields: Fields, components: Fields, path: seq<Step>, left: Fields, ref: string, name: string, schema: Fields)
    requires Expanding(fields, components, {}, path).Some?
    requires At(Object(Expanded(fields, components)), path) == Some(Object(left))
    requires "$ref" in left && left["$ref"] == Str(ref) && Names(ref, name) && IsSchema(components, name, schema)
    ensures ref in Expanding(fields, components, {}, path).value
  {
    LeftRefsAreBeingExpanded(fields, components, {}, path);
    TargetIsNamed(left, components, ref, name, schema);
  }

  /** The object positions that expansion visits: members, and the objects of a list, but not of a list in a list. */
  predicate Visited(v: Value, path: seq<Step>)
    decreases |path|
  {
    match v
    case Object(fields) => path == [] || (path[0].Key? && path[0].k in fields && Visited(fields[path[0].k], path[1..]))
    case List(items) =>
      path != [] && path[0].Index? && path[0].i < |items| && items[path[0].i].Object? && Visited(items[path[0].i], path[1..])
    case _ => false
  }

  lemma {:induction false} NamedRefIsASite(
    v: Value, components: Fields, path: seq<Step>, left: Fields, ref: string, name: string, schema: Fields)
    requires Visited(v, path) && At(v, path) == Some(Object(left))
    requires "$ref" in left && left["$ref"] == Str(ref) && Names(ref, name) && IsSchema(components, name, schema)
    ensures ValueSites(v, components) != {}
    decreases |path|
  {
    TargetIsNamed(left, components, ref, name, schema);
    match v {
      case Object(fields) =>
        if Target(fields, components).Some? {
          assert fields["$ref"].s in Sites(fields, components);
        } else if path != [] {
          NamedRefIsASite(fields[path[0].k], components, path[1..], left, ref, name, schema);
          MemberSites(fields, components, path[0].k);
        }
      case List(items) =>
        NamedRefIsASite(items[path[0].i], components, path[1..], left, ref, name, schema);
        ItemSites(items, components, path[0].i);
      case _ =>
    }
  }

  /** When no recursive component can be met, no position that expansion visits still refers to a schema that is there. */
  lemma {:induction false} AcyclicLeavesNoNamedRef(
    fields: Fields, components: Fields, path: seq<Step>, left: Fields, ref: string, name: string, schema: Fields)
    requires Acyclic(fields, components)
    requires Visited(Object(Expanded(fields, components)), path)
    requires At(Object(Expanded(fields, components)), path) == Some(Object(left))
    requires "$ref" in left && left["$ref"] == Str(ref) && Names(ref, name)
    ensures !IsSchema(components, name, schema)
  {
    ExpansionIsCompleteIffAcyclic(fields, components);
    if IsSchema(components, name, schema) {
      NamedRefIsASite(Object(Expanded(fields, components)), components, path, left, ref, name, schema);
    }
  }
}
