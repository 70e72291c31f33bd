/**
 * The part of .NET reflection the loader relies on: runtime types, their
 * methods and instance fields, `GetMethod` with its ambiguity rule, and objects.
 */
module Reflection {
  import opened Optional

  type TypeId = nat
  /** Identifies one method, as its metadata token and handle do. */
  type MethodToken = nat

  /** A value held by a field or passed as an argument; `Null` is `null`. */
  datatype Value = Null | Boxed(id: nat)

  /** `[Hook(typeof(T), "Name")]`: either argument may be `null`. */
  datatype HookAttribute = HookAttribute(targetType: Option<RuntimeType>, targetMethod: Option<string>)

  /** The number of types from a type up to `System.Object`, both counted: never zero. */
  type Depth = d: nat | 1 <= d witness 1

  /**
   * A method as reflection reports it: its parameter types, the hierarchy depth of
   * the type that declares it, and the `HookAttribute` it carries, if any.
   */
  datatype MethodInfo = MethodInfo(
    token: MethodToken,
    declaringType: TypeId,
    depth: Depth,
    name: string,
    parameters: seq<TypeId>,
    isStatic: bool,
    hook: Option<HookAttribute>)

  /**
   * A runtime type: `methods` are the methods a public-and-non-public lookup sees
   * (its own and those it inherits), `instanceFields` the names of its instance fields.
   */
  datatype RuntimeType = RuntimeType(
    id: TypeId,
    fullName: string,
    name: string,
    /** What `ToString()` prints; for a closed generic type it differs from `fullName`. */
    displayName: string,
    methods: seq<MethodInfo>,
    instanceFields: set<string>)

  /** What `GetMethod` reports: no match, the one match, or `AmbiguousMatchException`. */
  datatype Lookup = NotFound | Found(info: MethodInfo) | Ambiguous

  /**
   * A method is seen by a lookup for `name` on the type `owner` that includes its kind: an
   * instance method wherever it is declared, a static one only when `owner` declares it
   * (the lookup does not ask for `FlattenHierarchy`).
   */
  predicate Matches(m: MethodInfo, owner: TypeId, name: string, includeStatic: bool, includeInstance: bool)
  {
    m.name == name && (if m.isStatic then includeStatic && m.declaringType == owner else includeInstance)
  }

  /** The methods of `methods` a lookup sees, in order. */
  function Matching(methods: seq<MethodInfo>, owner: TypeId, name: string, includeStatic: bool, includeInstance: bool): (r: seq<MethodInfo>)
    ensures |r| <= |methods|
    ensures forall m :: m in r <==> m in methods && Matches(m, owner, name, includeStatic, includeInstance)
  {
    if |methods| == 0 then []
    else
      var rest := Matching(methods[1..], owner, name, includeStatic, includeInstance);
      if Matches(methods[0], owner, name, includeStatic, includeInstance) then [methods[0]] + rest else rest
  }

  /** Two distinct positions of `methods` are both seen by the lookup. */
  predicate SeveralMatch(methods: seq<MethodInfo>, owner: TypeId, name: string, includeStatic: bool, includeInstance: bool)
  {
    exists i, j ::
      && 0 <= i < j < |methods|
      && Matches(methods[i], owner, name, includeStatic, includeInstance)
      && Matches(methods[j], owner, name, includeStatic, includeInstance)
  }

  /** The lookup sees at least two methods exactly when two positions match. */
  lemma {:induction false} TwoMatches(methods: seq<MethodInfo>, owner: TypeId, name: string, includeStatic: bool, includeInstance: bool)
    ensures 2 <= |Matching(methods, owner, name, includeStatic, includeInstance)| <==>
      SeveralMatch(methods, owner, name, includeStatic, includeInstance)
  {
    if |methods| != 0 {
      var rest := methods[1..];
      TwoMatches(rest, owner, name, includeStatic, includeInstance);
      var r := Matching(rest, owner, name, includeStatic, includeInstance);
      if Matches(methods[0], owner, name, includeStatic, includeInstance) {
        if 1 <= |r| {
          assert r[0] in r;
          var j :| 0 <= j < |rest| && rest[j] == r[0];
          assert methods[j + 1] == rest[j];
        }
      }
      if SeveralMatch(methods, owner, name, includeStatic, includeInstance) {
        var i, j :| 0 <= i < j < |methods| &&
          Matches(methods[i], owner, name, includeStatic, includeInstance) && Matches(methods[j], owner, name, includeStatic, includeInstance);
        assert methods[j] == rest[j - 1];
        if i == 0 {
          assert rest[j - 1] in r;
        } else {
          assert methods[i] == rest[i - 1];
        }
      }
    }
  }

  /** Two methods seen by the lookup differ in their parameter types. */
  predicate Overloaded(methods: seq<MethodInfo>, owner: TypeId, name: string, includeStatic: bool, includeInstance: bool)
  {
    exists i, j ::
      && 0 <= i < |methods| && 0 <= j < |methods|
      && Matches(methods[i], owner, name, includeStatic, includeInstance)
      && Matches(methods[j], owner, name, includeStatic, includeInstance)
      && methods[i].parameters != methods[j].parameters
  }

  /** Every candidate has the first candidate's parameter types. */
  predicate SameSignatures(candidates: seq<MethodInfo>)
  {
    forall k :: 0 <= k < |candidates| ==> candidates[k].parameters == candidates[0].parameters
  }

  /**
   * The scan that picks the most derived of candidates with one signature, from position `i`
   * on, with `deepest` the greatest depth so far and `best` its method: a candidate exactly as
   * deep as the deepest so far means `AmbiguousMatchException`.
   */
  function MostDerivedFrom(candidates: seq<MethodInfo>, i: nat, deepest: nat, best: Option<MethodInfo>): Lookup
    requires i <= |candidates|
    decreases |candidates| - i
  {
    if i == |candidates| then (if best.Some? then Found(best.value) else NotFound)
    else if candidates[i].depth == deepest then Ambiguous
    else if candidates[i].depth > deepest then MostDerivedFrom(candidates, i + 1, candidates[i].depth, Some(candidates[i]))
    else MostDerivedFrom(candidates, i + 1, deepest, best)
  }

  function MostDerived(candidates: seq<MethodInfo>): Lookup
  {
    MostDerivedFrom(candidates, 0, 0, None)
  }

  /** No two candidates are declared at the same depth. */
  predicate DistinctDepths(candidates: seq<MethodInfo>)
  {
    forall k, l :: 0 <= k < l < |candidates| ==> candidates[k].depth != candidates[l].depth
  }

  /** The scan from `i` on, when `best` (at `b`) is strictly the deepest candidate before `i`. */
  lemma {:induction false} MostDerivedFromFacts(candidates: seq<MethodInfo>, i: nat, deepest: nat, best: Option<MethodInfo>, b: nat)
    requires i <= |candidates|
    requires i == 0 ==> deepest == 0 && best.None?
    requires i != 0 ==>
      && b < i && best == Some(candidates[b]) && deepest == candidates[b].depth
      && forall k :: 0 <= k < i && k != b ==> candidates[k].depth < deepest
    ensures var r := MostDerivedFrom(candidates, i, deepest, best);
      && (|candidates| != 0 ==> !r.NotFound?)
      && (r.Found? ==>
            exists c :: 0 <= c < |candidates| && r.info == candidates[c] &&
              forall k :: 0 <= k < |candidates| && k != c ==> candidates[k].depth < candidates[c].depth)
      && (DistinctDepths(candidates) && |candidates| != 0 ==> r.Found?)
    decreases |candidates| - i
  {
    if i < |candidates| {
      var d := candidates[i].depth;
      if d > deepest {
        MostDerivedFromFacts(candidates, i + 1, d, Some(candidates[i]), i);
      } else if d < deepest {
        MostDerivedFromFacts(candidates, i + 1, deepest, best, b);
      }
    }
  }

  /**
   * `FindMostDerivedNewSlotMeth`: the result, when there is one, is strictly deeper than every
   * other candidate; and candidates at pairwise different depths always give one.
   */
  lemma MostDerivedFacts(candidates: seq<MethodInfo>)
    requires |candidates| != 0
    ensures !MostDerived(candidates).NotFound?
    ensures MostDerived(candidates).Found? ==>
      exists c :: 0 <= c < |candidates| && MostDerived(candidates).info == candidates[c] &&
        forall k :: 0 <= k < |candidates| && k != c ==> candidates[k].depth < candidates[c].depth
    ensures DistinctDepths(candidates) ==> MostDerived(candidates).Found?
  {
    MostDerivedFromFacts(candidates, 0, 0, None, 0);
  }

  /**
   * `Type.GetMethod(name, flags)`: null when nothing matches, the method when exactly one does;
   * several candidates throw `AmbiguousMatchException` unless they share their parameter types,
   * in which case the most derived one is returned (a method hidden with `new`).
   */
  function GetMethod(t: RuntimeType, name: string, includeStatic: bool, includeInstance: bool): (r: Lookup)
    ensures r.NotFound? <==> forall i :: 0 <= i < |t.methods| ==> !Matches(t.methods[i], t.id, name, includeStatic, includeInstance)
    ensures r.Found? ==> r.info in t.methods && Matches(r.info, t.id, name, includeStatic, includeInstance)
    ensures r.Found? && r.info.isStatic ==> r.info.declaringType == t.id
    ensures r.Found? ==> forall m :: m in t.methods && Matches(m, t.id, name, includeStatic, includeInstance) && m != r.info ==>
      m.parameters == r.info.parameters && m.depth < r.info.depth
    ensures !SeveralMatch(t.methods, t.id, name, includeStatic, includeInstance) ==> !r.Ambiguous?
    ensures Overloaded(t.methods, t.id, name, includeStatic, includeInstance) ==> r.Ambiguous?
    ensures r.Ambiguous? ==>
      Overloaded(t.methods, t.id, name, includeStatic, includeInstance) ||
      !DistinctDepths(Matching(t.methods, t.id, name, includeStatic, includeInstance))
  {
    var found := Matching(t.methods, t.id, name, includeStatic, includeInstance);
    TwoMatches(t.methods, t.id, name, includeStatic, includeInstance);
    if |found| == 0 then
      assert forall i :: 0 <= i < |t.methods| ==> !Matches(t.methods[i], t.id, name, includeStatic, includeInstance) by {
        forall i | 0 <= i < |t.methods| ensures !Matches(t.methods[i], t.id, name, includeStatic, includeInstance) {
          assert t.methods[i] in t.methods;
        }
      }
      NotFound
    else if |found| == 1 then
      assert found[0] in found;
      assert forall m :: m in found ==> m == found[0];
      OneCandidate(t.methods, t.id, name, includeStatic, includeInstance, found);
      Found(found[0])
    else if !SameSignatures(found) then
      DifferingCandidates(t.methods, t.id, name, includeStatic, includeInstance, found);
      Ambiguous
    else
      MostDerivedFacts(found);
      SignaturesOfCandidates(t.methods, t.id, name, includeStatic, includeInstance, found);
      var r := MostDerived(found);
      assert r.Found? ==> r.info in found;
      r
  }

  /** A lookup of a name that only static methods inherited from base types carry finds nothing. */
  lemma InheritedStaticUnseen(t: RuntimeType, name: string, includeStatic: bool, includeInstance: bool)
    requires forall i :: 0 <= i < |t.methods| && t.methods[i].name == name ==>
      t.methods[i].isStatic && t.methods[i].declaringType != t.id
    ensures GetMethod(t, name, includeStatic, includeInstance).NotFound?
  {
  }

  /** A single candidate is the only method the lookup sees, so no two of them differ. */
  lemma OneCandidate(methods: seq<MethodInfo>, owner: TypeId, name: string, includeStatic: bool, includeInstance: bool, found: seq<MethodInfo>)
    requires found == Matching(methods, owner, name, includeStatic, includeInstance) && |found| == 1
    ensures !Overloaded(methods, owner, name, includeStatic, includeInstance)
  {
    forall i, j | 0 <= i < |methods| && 0 <= j < |methods|
      && Matches(methods[i], owner, name, includeStatic, includeInstance)
      && Matches(methods[j], owner, name, includeStatic, includeInstance)
      ensures methods[i].parameters == methods[j].parameters
    {
      assert methods[i] in found && methods[j] in found;
    }
  }

  /** Two candidates with different parameter types are two methods the lookup sees that differ. */
  lemma DifferingCandidates(methods: seq<MethodInfo>, owner: TypeId, name: string, includeStatic: bool, includeInstance: bool, found: seq<MethodInfo>)
    requires found == Matching(methods, owner, name, includeStatic, includeInstance) && |found| != 0 && !SameSignatures(found)
    ensures Overloaded(methods, owner, name, includeStatic, includeInstance)
  {
    var k :| 0 <= k < |found| && found[k].parameters != found[0].parameters;
    assert found[k] in found && found[0] in found;
    var i :| 0 <= i < |methods| && methods[i] == found[k];
    var j :| 0 <= j < |methods| && methods[j] == found[0];
    assert Matches(methods[i], owner, name, includeStatic, includeInstance) && Matches(methods[j], owner, name, includeStatic, includeInstance);
  }

  /** Candidates that share one signature: no two methods the lookup sees differ. */
  lemma SignaturesOfCandidates(methods: seq<MethodInfo>, owner: TypeId, name: string, includeStatic: bool, includeInstance: bool, found: seq<MethodInfo>)
    requires found == Matching(methods, owner, name, includeStatic, includeInstance) && |found| != 0 && SameSignatures(found)
    ensures !Overloaded(methods, owner, name, includeStatic, includeInstance)
    ensures forall m :: m in methods && Matches(m, owner, name, includeStatic, includeInstance) ==> m.parameters == found[0].parameters
  {
    forall m | m in methods && Matches(m, owner, name, includeStatic, includeInstance)
      ensures m.parameters == found[0].parameters
    {
      assert m in found;
    }
    forall i, j | 0 <= i < |methods| && 0 <= j < |methods|
      && Matches(methods[i], owner, name, includeStatic, includeInstance)
      && Matches(methods[j], owner, name, includeStatic, includeInstance)
      ensures methods[i].parameters == methods[j].parameters
    {
      assert methods[i] in methods && methods[j] in methods;
    }
  }

  /** `type.GetMethods(Static | Public | NonPublic)`: the static methods the type declares itself. */
  function StaticMethods(t: RuntimeType): (r: seq<MethodInfo>)
    ensures forall m :: m in r <==> m in t.methods && m.isStatic && m.declaringType == t.id
  {
    DeclaredStatic(t.methods, t.id)
  }

  function DeclaredStatic(methods: seq<MethodInfo>, id: TypeId): (r: seq<MethodInfo>)
    ensures forall m :: m in r <==> m in methods && m.isStatic && m.declaringType == id
  {
    if |methods| == 0 then []
    else
      var rest := DeclaredStatic(methods[1..], id);
      if methods[0].isStatic && methods[0].declaringType == id then [methods[0]] + rest else rest
  }

  /**
   * An object: its runtime type never changes, its fields do. It is created holding a value for
   * every instance field its type declares: the field's initialiser, or the type's default
   * (`null` for a reference, a boxed zero or `false` for a value type).
   */
  class Instance {
    const runtimeType: RuntimeType
    var fields: map<string, Value>

    /** Every declared instance field, and nothing else, holds a value. */
    predicate Valid()
      reads this
    {
      fields.Keys == runtimeType.instanceFields
    }

    constructor (runtimeType: RuntimeType, initial: map<string, Value>)
      requires initial.Keys == runtimeType.instanceFields
      ensures this.runtimeType == runtimeType && fields == initial
      ensures Valid()
    {
      this.runtimeType := runtimeType;
      fields := initial;
    }
  }

  /** A reflective call `info.Invoke(receiver, args)`; what it does is not modelled. */
  datatype Invocation = Invocation(info: MethodInfo, receiver: Instance, args: seq<Value>)
}
