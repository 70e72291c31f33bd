/**
 * `AssemblyCSharpPatcher`: on first start, make the game's own scripts in
 * Assembly-CSharp.dll public, keep a backup, and mark the assembly as patched.
 */
module AssemblyPatcher {
  import opened Optional
  import opened WideText
  import opened Logging

  const MarkerAttributeName: string := "ModLoaderPatchedAttribute"
  const MonoBehaviourName: string := "UnityEngine.MonoBehaviour"
  const ScriptableObjectName: string := "UnityEngine.ScriptableObject"
  /** The argument the marker attribute carries. */
  const GameName: string := "Iron Lung"

  const MessageCaption: string := "ModLoader.Core.Managed"
  const PatchingMessage: string := "Patching Assembly-CSharp.dll!\nMay take a while.\nRestart when done."
  const PatchedMessage: string := "Patched Assembly-CSharp!\nRestart to ensure mods work."

  // ---------------- the type graph ----------------

  /** The access level of a method (the member-access bits of its attributes). */
  datatype MemberAccess = CompilerControlled | Private | FamAndAssem | Assembly | Family | FamOrAssem | Public

  /** The visibility of a type (the visibility bits of its attributes). */
  datatype TypeVisibility =
    | NotPublic | TypePublic
    | NestedPublic | NestedPrivate | NestedFamily | NestedAssembly | NestedFamAndAssem | NestedFamOrAssem

  datatype MethodDef = MethodDef(name: string, access: MemberAccess)

  /** A property with its optional accessors. */
  datatype PropertyDef = PropertyDef(name: string, getMethod: Option<MethodDef>, setMethod: Option<MethodDef>)

  /** The outcome of resolving a base-type reference: a definition, `null`, or an exception. */
  datatype Resolution = Resolved(definition: TypeDef) | Unresolved | ResolutionThrows

  /** A type's base-type reference, named by its full name. */
  datatype BaseType = NoBase | BaseRef(fullName: string, resolution: Resolution)

  /**
   * A type definition. `isNested` says whether it has a declaring type, which for types read
   * from a file agrees with where the type sits (`NestingAgrees`); the base type carries its
   * resolution, so a chain of bases is always finite.
   */
  datatype TypeDef = TypeDef(
    namespace: string,
    name: string,
    isInterface: bool,
    isEnum: bool,
    baseType: BaseType,
    visibility: TypeVisibility,
    isNested: bool,
    methods: seq<MethodDef>,
    properties: seq<PropertyDef>,
    nestedTypes: seq<TypeDef>)

  /** The full name of a top-level type. */
  function FullName(t: TypeDef): string
  {
    if t.namespace == "" then t.name else t.namespace + "." + t.name
  }

  // ---------------- inheritance ----------------

  /** Some type on the resolved base chain of `t` names `baseTypeName` as its direct base. */
  predicate Inherits(t: TypeDef, baseTypeName: string)
    decreases t
  {
    match t.baseType
    case NoBase => false
    case BaseRef(fullName, resolution) =>
      fullName == baseTypeName || (resolution.Resolved? && Inherits(resolution.definition, baseTypeName))
  }

  /** `t`, then its base as far as the bases resolve. */
  function ResolvedChain(t: TypeDef): (chain: seq<TypeDef>)
    ensures 1 <= |chain| && chain[0] == t
    decreases t
  {
    match t.baseType
    case BaseRef(_, Resolved(d)) => [t] + ResolvedChain(d)
    case _ => [t]
  }

  function DirectBaseName(t: TypeDef): Option<string>
  {
    if t.baseType.BaseRef? then Some(t.baseType.fullName) else None
  }

  /** Some type of `chain` names `baseTypeName` as its direct base. */
  predicate ChainNames(chain: seq<TypeDef>, baseTypeName: string)
  {
    exists i :: 0 <= i < |chain| && DirectBaseName(chain[i]) == Some(baseTypeName)
  }

  lemma ChainNamesCons(t: TypeDef, rest: seq<TypeDef>, baseTypeName: string)
    ensures ChainNames([t] + rest, baseTypeName) <==>
      DirectBaseName(t) == Some(baseTypeName) || ChainNames(rest, baseTypeName)
  {
    var chain := [t] + rest;
    assert chain[0] == t;
    if ChainNames(rest, baseTypeName) {
      var j :| 0 <= j < |rest| && DirectBaseName(rest[j]) == Some(baseTypeName);
      assert chain[j + 1] == rest[j];
    }
    if ChainNames(chain, baseTypeName) && DirectBaseName(t) != Some(baseTypeName) {
      var i :| 0 <= i < |chain| && DirectBaseName(chain[i]) == Some(baseTypeName);
      assert i != 0;
      assert rest[i - 1] == chain[i];
    }
  }

  /** `Inherits` is exactly a search of the resolved chain for a direct base of that name. */
  lemma {:induction false} InheritsAlongChain(t: TypeDef, baseTypeName: string)
    ensures Inherits(t, baseTypeName) <==> ChainNames(ResolvedChain(t), baseTypeName)
    decreases t
  {
    match t.baseType
    case NoBase =>
      assert ResolvedChain(t) == [t] + [];
      ChainNamesCons(t, [], baseTypeName);
    case BaseRef(fullName, resolution) =>
      if resolution.Resolved? {
        var d := resolution.definition;
        InheritsAlongChain(d, baseTypeName);
        assert ResolvedChain(t) == [t] + ResolvedChain(d);
        ChainNamesCons(t, ResolvedChain(d), baseTypeName);
      } else {
        assert ResolvedChain(t) == [t] + [];
        ChainNamesCons(t, [], baseTypeName);
      }
  }

  /** `InheritsFrom`: walk the base chain; a resolution that throws ends the walk with false. */
  method InheritsFrom(t: TypeDef, baseTypeName: string) returns (b: bool)
    ensures b == Inherits(t, baseTypeName)
  {
    var current: Option<TypeDef> := Some(t);
    while current.Some?
      invariant current.Some? ==> Inherits(current.value, baseTypeName) == Inherits(t, baseTypeName)
      invariant current.None? ==> !Inherits(t, baseTypeName)
      decreases if current.Some? then |ResolvedChain(current.value)| else 0
    {
      var ty := current.value;
      if ty.baseType.BaseRef? && ty.baseType.fullName == baseTypeName {
        return true;
      }
      match ty.baseType
      case NoBase =>
        current := None;
      case BaseRef(_, resolution) =>
        match resolution
        case Resolved(d) =>
          current := Some(d);
        case Unresolved =>
          current := None;
        case ResolutionThrows =>
          return false;
    }
    return false;
  }

  /** The types the patcher may touch: global-namespace, non-generated scripts of Unity. */
  predicate GameScript(t: TypeDef)
  {
    && t.namespace == ""
    && !(0 < |t.name| && t.name[0] == '<')
    && !t.isInterface
    && !t.isEnum
    && (Inherits(t, MonoBehaviourName) || Inherits(t, ScriptableObjectName))
  }

  /** A game script is exactly a plain global type with a Unity object base on its resolved chain. */
  lemma GameScriptIff(t: TypeDef)
    ensures GameScript(t) <==>
      && t.namespace == ""
      && !(0 < |t.name| && t.name[0] == '<')
      && !t.isInterface && !t.isEnum
      && (ChainNames(ResolvedChain(t), MonoBehaviourName) || ChainNames(ResolvedChain(t), ScriptableObjectName))
  {
    InheritsAlongChain(t, MonoBehaviourName);
    InheritsAlongChain(t, ScriptableObjectName);
  }

  /** `IsGameScript`: the filter, with its base checks done by `InheritsFrom`. */
  method IsGameScript(t: TypeDef) returns (b: bool)
    ensures b == GameScript(t)
  {
    if t.namespace != "" {
      return false;
    }
    if 0 < |t.name| && t.name[0] == '<' {
      return false;
    }
    if t.isInterface || t.isEnum {
      return false;
    }
    b := InheritsFrom(t, MonoBehaviourName);
    if !b {
      b := InheritsFrom(t, ScriptableObjectName);
    }
  }

  // ---------------- patching a type ----------------

  function PatchedMethod(m: MethodDef): MethodDef
  {
    if m.access == Private then m.(access := Public) else m
  }

  function PatchedAccessor(accessor: Option<MethodDef>): Option<MethodDef>
  {
    match accessor
    case None => None
    case Some(m) => Some(PatchedMethod(m))
  }

  function PatchedProperty(p: PropertyDef): PropertyDef
  {
    p.(getMethod := PatchedAccessor(p.getMethod), setMethod := PatchedAccessor(p.setMethod))
  }

  function PatchedVisibility(t: TypeDef): TypeVisibility
  {
    if t.visibility == NotPublic && !t.isNested then TypePublic else t.visibility
  }

  /** The type as patching leaves it; nested types are patched only when they are game scripts. */
  function PatchedType(t: TypeDef): TypeDef
    decreases t
  {
    t.(visibility := PatchedVisibility(t),
       methods := seq(|t.methods|, i requires 0 <= i < |t.methods| => PatchedMethod(t.methods[i])),
       properties := seq(|t.properties|, i requires 0 <= i < |t.properties| => PatchedProperty(t.properties[i])),
       nestedTypes := seq(|t.nestedTypes|, i requires 0 <= i < |t.nestedTypes| =>
         if GameScript(t.nestedTypes[i]) then PatchedType(t.nestedTypes[i]) else t.nestedTypes[i]))
  }

  /** `PatchType`: rewrite the access flags of a type and of its game-script nested types. */
  method PatchType(t: TypeDef) returns (p: TypeDef)
    ensures p == PatchedType(t)
    decreases t
  {
    var visibility := t.visibility;
    if t.visibility == NotPublic && !t.isNested {
      visibility := TypePublic;
    }

    var methods := t.methods;
    var i := 0;
    while i < |methods|
      invariant i <= |methods| == |t.methods|
      invariant forall k :: 0 <= k < i ==> methods[k] == PatchedMethod(t.methods[k])
      invariant forall k :: i <= k < |methods| ==> methods[k] == t.methods[k]
    {
      if methods[i].access == Private {
        methods := methods[i := methods[i].(access := Public)];
      }
      i := i + 1;
    }

    var properties := t.properties;
    i := 0;
    while i < |properties|
      invariant i <= |properties| == |t.properties|
      invariant forall k :: 0 <= k < i ==> properties[k] == PatchedProperty(t.properties[k])
      invariant forall k :: i <= k < |properties| ==> properties[k] == t.properties[k]
    {
      var prop := properties[i];
      if prop.getMethod.Some? && prop.getMethod.value.access == Private {
        prop := prop.(getMethod := Some(prop.getMethod.value.(access := Public)));
      }
      if prop.setMethod.Some? && prop.setMethod.value.access == Private {
        prop := prop.(setMethod := Some(prop.setMethod.value.(access := Public)));
      }
      properties := properties[i := prop];
      i := i + 1;
    }

    var nestedTypes := t.nestedTypes;
    i := 0;
    while i < |nestedTypes|
      invariant i <= |nestedTypes| == |t.nestedTypes|
      invariant forall k :: 0 <= k < i ==>
        nestedTypes[k] == if GameScript(t.nestedTypes[k]) then PatchedType(t.nestedTypes[k]) else t.nestedTypes[k]
      invariant forall k :: i <= k < |nestedTypes| ==> nestedTypes[k] == t.nestedTypes[k]
    {
      var script := IsGameScript(t.nestedTypes[i]);
      if script {
        var q := PatchType(t.nestedTypes[i]);
        nestedTypes := nestedTypes[i := q];
      }
      i := i + 1;
    }

    p := t.(visibility := visibility, methods := methods, properties := properties, nestedTypes := nestedTypes);
  }

  // ---------------- what patching promises ----------------

  function ErasedMethod(m: MethodDef): MethodDef
  {
    m.(access := CompilerControlled)
  }

  function ErasedAccessor(accessor: Option<MethodDef>): Option<MethodDef>
  {
    match accessor
    case None => None
    case Some(m) => Some(ErasedMethod(m))
  }

  /** A type with every access level and visibility forgotten, at every depth of nesting. */
  function Erased(t: TypeDef): TypeDef
    decreases t
  {
    t.(visibility := NotPublic,
       methods := seq(|t.methods|, i requires 0 <= i < |t.methods| => ErasedMethod(t.methods[i])),
       properties := seq(|t.properties|, i requires 0 <= i < |t.properties| =>
         t.properties[i].(getMethod := ErasedAccessor(t.properties[i].getMethod),
                          setMethod := ErasedAccessor(t.properties[i].setMethod))),
       nestedTypes := seq(|t.nestedTypes|, i requires 0 <= i < |t.nestedTypes| => Erased(t.nestedTypes[i])))
  }

  /** Patching changes access levels and visibilities only: everything else of the type tree is kept. */
  lemma {:induction false} PatchKeepsShape(t: TypeDef)
    ensures Erased(PatchedType(t)) == Erased(t)
    decreases t
  {
    var p := PatchedType(t);
    forall i | 0 <= i < |t.nestedTypes|
      ensures Erased(p.nestedTypes[i]) == Erased(t.nestedTypes[i])
    {
      if GameScript(t.nestedTypes[i]) {
        PatchKeepsShape(t.nestedTypes[i]);
      }
    }
    assert Erased(p).methods == Erased(t).methods;
    assert Erased(p).properties == Erased(t).properties;
    assert Erased(p).nestedTypes == Erased(t).nestedTypes;
  }

  predicate AccessorExposed(accessor: Option<MethodDef>)
  {
    accessor.Some? ==> accessor.value.access != Private
  }

  /**
   * Nothing private is left on `t`: no private method or accessor, no non-public
   * top-level type, and the same for every game-script nested type.
   */
  predicate Exposed(t: TypeDef)
    decreases t
  {
    && (!t.isNested ==> t.visibility != NotPublic)
    && (forall i :: 0 <= i < |t.methods| ==> t.methods[i].access != Private)
    && (forall i :: 0 <= i < |t.properties| ==>
          AccessorExposed(t.properties[i].getMethod) && AccessorExposed(t.properties[i].setMethod))
    && (forall i :: 0 <= i < |t.nestedTypes| ==> GameScript(t.nestedTypes[i]) ==> Exposed(t.nestedTypes[i]))
  }

  /** A private accessor becomes public, any other accessor is kept, and a missing one stays missing. */
  predicate AccessorPublished(before: Option<MethodDef>, after: Option<MethodDef>)
  {
    && after.Some? == before.Some?
    && (before.Some? && before.value.access == Private ==> after.value.access == Public)
    && (before.Some? && before.value.access != Private ==> after == before)
  }

  /**
   * `p` is `t` with its access flags published: a top-level non-public type becomes public,
   * a private method or accessor becomes public, everything else keeps its access, and the
   * same holds of every game-script nested type, while any other nested type is kept as it is.
   */
  predicate Published(t: TypeDef, p: TypeDef)
    decreases t
  {
    && (!t.isNested && t.visibility == NotPublic ==> p.visibility == TypePublic)
    && (t.isNested || t.visibility != NotPublic ==> p.visibility == t.visibility)
    && |p.methods| == |t.methods|
    && (forall i :: 0 <= i < |t.methods| ==>
          if t.methods[i].access == Private then p.methods[i].access == Public else p.methods[i] == t.methods[i])
    && |p.properties| == |t.properties|
    && (forall i :: 0 <= i < |t.properties| ==>
          && AccessorPublished(t.properties[i].getMethod, p.properties[i].getMethod)
          && AccessorPublished(t.properties[i].setMethod, p.properties[i].setMethod))
    && |p.nestedTypes| == |t.nestedTypes|
    && (forall i :: 0 <= i < |t.nestedTypes| ==>
          if GameScript(t.nestedTypes[i]) then Published(t.nestedTypes[i], p.nestedTypes[i])
          else p.nestedTypes[i] == t.nestedTypes[i])
  }

  /**
   * After patching nothing private is left, what was private or a non-public top-level type is public,
   * every member that was not private keeps its access,
   * a nested type keeps its visibility, and a nested type that is not a game script is untouched.
   */
  lemma {:induction false} PatchExposes(t: TypeDef)
    ensures Exposed(PatchedType(t))
    ensures Published(t, PatchedType(t))
    ensures var p := PatchedType(t);
      && (forall i :: 0 <= i < |t.methods| && t.methods[i].access != Private ==> p.methods[i] == t.methods[i])
      && (forall i :: 0 <= i < |t.properties| ==>
            (AccessorExposed(t.properties[i].getMethod) && AccessorExposed(t.properties[i].setMethod)) ==>
            p.properties[i] == t.properties[i])
      && (t.isNested || t.visibility != NotPublic ==> p.visibility == t.visibility)
      && (forall i :: 0 <= i < |t.nestedTypes| && !GameScript(t.nestedTypes[i]) ==> p.nestedTypes[i] == t.nestedTypes[i])
    decreases t
  {
    var p := PatchedType(t);
    forall i | 0 <= i < |p.nestedTypes|
      ensures GameScript(p.nestedTypes[i]) ==> Exposed(p.nestedTypes[i])
      ensures GameScript(t.nestedTypes[i]) ==> Published(t.nestedTypes[i], p.nestedTypes[i])
    {
      if GameScript(t.nestedTypes[i]) {
        PatchExposes(t.nestedTypes[i]);
      }
    }
  }

  /** Patching never changes what makes a type a game script. */
  lemma PatchKeepsGameScript(t: TypeDef)
    ensures GameScript(PatchedType(t)) == GameScript(t)
  {
  }

  /** Patching an already patched type changes nothing. */
  lemma {:induction false} PatchIdempotent(t: TypeDef)
    ensures PatchedType(PatchedType(t)) == PatchedType(t)
    decreases t
  {
    var p := PatchedType(t);
    var pp := PatchedType(p);
    forall i | 0 <= i < |t.nestedTypes|
      ensures pp.nestedTypes[i] == p.nestedTypes[i]
    {
      var n := t.nestedTypes[i];
      if GameScript(n) {
        PatchKeepsGameScript(n);
        PatchIdempotent(n);
      }
    }
    assert pp.methods == p.methods;
    assert pp.properties == p.properties;
    assert pp.nestedTypes == p.nestedTypes;
  }

  /** `t`'s flag says `nested`, and every type nested in it, at any depth, is flagged nested. */
  predicate NestingAgrees(t: TypeDef, nested: bool)
    decreases t
  {
    t.isNested == nested && forall i :: 0 <= i < |t.nestedTypes| ==> NestingAgrees(t.nestedTypes[i], true)
  }

  /** Patching moves no type and flips no nesting flag. */
  lemma {:induction false} PatchKeepsNesting(t: TypeDef, nested: bool)
    requires NestingAgrees(t, nested)
    ensures NestingAgrees(PatchedType(t), nested)
    decreases t
  {
    var p := PatchedType(t);
    forall i | 0 <= i < |p.nestedTypes|
      ensures NestingAgrees(p.nestedTypes[i], true)
    {
      if GameScript(t.nestedTypes[i]) {
        PatchKeepsNesting(t.nestedTypes[i], true);
      }
    }
  }

  // ---------------- the assembly ----------------

  datatype CustomAttribute = CustomAttribute(typeName: string, arguments: seq<string>)

  datatype ModuleDef = ModuleDef(types: seq<TypeDef>)

  /** An assembly as it is stored in a file. */
  datatype Image = Image(customAttributes: seq<CustomAttribute>, modules: seq<ModuleDef>)

  /** The attribute a patched assembly carries. */
  const Marker: CustomAttribute := CustomAttribute(MarkerAttributeName, [GameName])

  predicate HasMarker(attributes: seq<CustomAttribute>)
  {
    exists i :: 0 <= i < |attributes| && attributes[i].typeName == MarkerAttributeName
  }

  /** The top-level types of a module after the scan: game scripts patched, the rest kept. */
  function PatchedTypes(types: seq<TypeDef>): (r: seq<TypeDef>)
    ensures |r| == |types|
  {
    seq(|types|, i requires 0 <= i < |types| => if GameScript(types[i]) then PatchedType(types[i]) else types[i])
  }

  function PatchedModules(modules: seq<ModuleDef>): (r: seq<ModuleDef>)
    ensures |r| == |modules|
  {
    seq(|modules|, i requires 0 <= i < |modules| => ModuleDef(PatchedTypes(modules[i].types)))
  }

  function PatchedImage(image: Image): Image
  {
    Image(image.customAttributes + [Marker], PatchedModules(image.modules))
  }

  /** The types of `image` sit where their flags say: module types are top-level, the rest nested. */
  predicate WellNested(image: Image)
  {
    forall m, i :: 0 <= m < |image.modules| && 0 <= i < |image.modules[m].types| ==>
      NestingAgrees(image.modules[m].types[i], false)
  }

  /**
   * Patching a well-nested image gives a well-nested one, in which no top-level game script
   * is left non-public.
   */
  lemma PatchedImageWellNested(image: Image)
    requires WellNested(image)
    ensures WellNested(PatchedImage(image))
    ensures forall m, i :: 0 <= m < |image.modules| && 0 <= i < |image.modules[m].types| ==>
      GameScript(image.modules[m].types[i]) ==> PatchedImage(image).modules[m].types[i].visibility != NotPublic
  {
    var p := PatchedImage(image);
    forall m, i | 0 <= m < |image.modules| && 0 <= i < |image.modules[m].types|
      ensures NestingAgrees(p.modules[m].types[i], false)
      ensures GameScript(image.modules[m].types[i]) ==> p.modules[m].types[i].visibility != NotPublic
    {
      var t := image.modules[m].types[i];
      if GameScript(t) {
        PatchKeepsNesting(t, false);
        PatchExposes(t);
      }
    }
  }

  /**
   * The patched image carries the marker as its one new attribute, keeps the shape of every type,
   * leaves every type that is not a game script alone and exposes and publishes every one that is.
   */
  lemma PatchedImageProperties(image: Image)
    ensures var p := PatchedImage(image);
      && HasMarker(p.customAttributes)
      && p.customAttributes[..|image.customAttributes|] == image.customAttributes
      && |p.customAttributes| == |image.customAttributes| + 1
      && |p.modules| == |image.modules|
      && forall m, i :: 0 <= m < |image.modules| && 0 <= i < |image.modules[m].types| ==>
           var t := image.modules[m].types[i];
           && |p.modules[m].types| == |image.modules[m].types|
           && Erased(p.modules[m].types[i]) == Erased(t)
           && (GameScript(t) ==> Exposed(p.modules[m].types[i]) && Published(t, p.modules[m].types[i]))
           && (!GameScript(t) ==> p.modules[m].types[i] == t)
  {
    var p := PatchedImage(image);
    assert p.customAttributes[|image.customAttributes|] == Marker;
    forall m, i | 0 <= m < |image.modules| && 0 <= i < |image.modules[m].types|
      ensures Erased(p.modules[m].types[i]) == Erased(image.modules[m].types[i])
      ensures GameScript(image.modules[m].types[i]) ==> Exposed(p.modules[m].types[i])
      ensures GameScript(image.modules[m].types[i]) ==> Published(image.modules[m].types[i], p.modules[m].types[i])
    {
      PatchKeepsShape(image.modules[m].types[i]);
      PatchExposes(image.modules[m].types[i]);
    }
  }

  /** The loaded assembly, whose attribute list and modules are changed in place. */
  class AssemblyDefinition {
    var customAttributes: seq<CustomAttribute>
    var modules: seq<ModuleDef>

    constructor (image: Image)
      ensures customAttributes == image.customAttributes && modules == image.modules
    {
      customAttributes := image.customAttributes;
      modules := image.modules;
    }

    /** The assembly as `Write` would store it. */
    function Snapshot(): Image
      reads this
    {
      Image(customAttributes, modules)
    }
  }

  /**
   * `InjectMarker`: append the marker attribute to the assembly. `resolves` is whether the
   * assembly resolver finds the loader's own assembly, which defines the attribute; when it
   * does not, `Resolve()` fails, the method throws before adding anything, and `threw` is true.
   */
  method InjectMarker(asm: AssemblyDefinition, resolves: bool) returns (threw: bool)
    modifies asm
    ensures threw == !resolves
    ensures asm.customAttributes == if threw then old(asm.customAttributes) else old(asm.customAttributes) + [Marker]
    ensures asm.modules == old(asm.modules)
  {
    if !resolves {
      return true;
    }
    asm.customAttributes := asm.customAttributes + [Marker];
    return false;
  }

  // ---------------- the whole run ----------------

  /** What a file holds: a readable assembly, or something the reader rejects. */
  datatype FileData = AssemblyFile(image: Image) | NotAnAssembly

  /** What the patcher does outside its own memory. */
  datatype Effect =
    | MessageBox(text: string, caption: string)
    | CopiedFile(source: seq<CodeUnit>, destination: seq<CodeUnit>)
    | Logged(entry: LogEntry)
    | WroteAssembly(path: seq<CodeUnit>)

  /**
   * How `PatchIfNeeded` ends; `ReadThrew` is the reader's exception leaving it, `MarkerThrew`
   * the exception of `InjectMarker` leaving it.
   */
  datatype PatchOutcome = AssemblyMissing | ReadThrew | AlreadyPatched | MarkerThrew | Patched

  datatype PatchRun = PatchRun(files: map<seq<CodeUnit>, FileData>, effects: seq<Effect>, outcome: PatchOutcome)

  /** `<base>\Iron Lung_Data\Managed\Assembly-CSharp.dll`. */
  function AssemblyPath(baseDirectory: seq<CodeUnit>): seq<CodeUnit>
  {
    Combine(Combine(Combine(baseDirectory, Ascii("Iron Lung_Data")), Ascii("Managed")), Ascii("Assembly-CSharp.dll"))
  }

  function BackupPath(path: seq<CodeUnit>): (backup: seq<CodeUnit>)
    ensures backup != path
  {
    var backup := path + Ascii(".backup");
    assert |backup| == |path| + 7;
    backup
  }

  /** The log lines of a scan over `types`, in order. */
  function TypesLog(types: seq<TypeDef>): seq<Effect>
  {
    if |types| == 0 then []
    else
      var t := types[|types| - 1];
      TypesLog(types[..|types| - 1]) +
      (if GameScript(t) then [Logged(LogEntry(LoaderName, "Patching " + FullName(t)))] else [])
  }

  function ModulesLog(modules: seq<ModuleDef>): seq<Effect>
  {
    if |modules| == 0 then [] else ModulesLog(modules[..|modules| - 1]) + TypesLog(modules[|modules| - 1].types)
  }

  /**
   * The run of `PatchIfNeeded` on a file system `files`: what the files become,
   * what is shown, copied, logged and written, and how it ends. `markerResolves` is
   * whether the marker attribute's type resolves (see `InjectMarker`).
   */
  function PatchRunSpec(files: map<seq<CodeUnit>, FileData>, path: seq<CodeUnit>, markerResolves: bool): PatchRun
  {
    if path !in files then PatchRun(files, [], AssemblyMissing)
    else match files[path]
      case NotAnAssembly => PatchRun(files, [], ReadThrew)
      case AssemblyFile(image) =>
        if HasMarker(image.customAttributes) then PatchRun(files, [], AlreadyPatched)
        else
          var backedUp := files[BackupPath(path) := files[path]];
          var scanned := [MessageBox(PatchingMessage, MessageCaption), CopiedFile(path, BackupPath(path))]
            + ModulesLog(image.modules);
          if !markerResolves then PatchRun(backedUp, scanned, MarkerThrew)
          else
            PatchRun(
              backedUp[path := AssemblyFile(PatchedImage(image))],
              scanned + [WroteAssembly(path), MessageBox(PatchedMessage, MessageCaption)],
              Patched)
  }

  /** What a run of `PatchIfNeeded` does, case by case. */
  lemma PatchRunFacts(files: map<seq<CodeUnit>, FileData>, path: seq<CodeUnit>, markerResolves: bool)
    ensures var r := PatchRunSpec(files, path, markerResolves);
      // a missing file: nothing read, copied or written
      && (r.outcome == AssemblyMissing <==> path !in files)
      // every run that stops before the first message leaves the files alone and does nothing visible
      && (r.outcome in {AssemblyMissing, ReadThrew, AlreadyPatched} ==> r.files == files && r.effects == [])
      && (r.outcome == AlreadyPatched <==>
            path in files && files[path].AssemblyFile? && HasMarker(files[path].image.customAttributes))
      && (r.outcome == ReadThrew <==> path in files && files[path].NotAnAssembly?)
      // an unmarked assembly is patched exactly when the marker's type resolves
      && (r.outcome == MarkerThrew <==>
            path in files && files[path].AssemblyFile? && !HasMarker(files[path].image.customAttributes)
            && !markerResolves)
      // a failed marker leaves the backup, the original assembly, and the effects up to the scan's log
      && (r.outcome == MarkerThrew ==>
            && r.files == files[BackupPath(path) := files[path]]
            && r.effects == [MessageBox(PatchingMessage, MessageCaption), CopiedFile(path, BackupPath(path))]
              + ModulesLog(files[path].image.modules))
      // a patching run keeps the original as the backup and stores the patched image under the path
      && (r.outcome == Patched ==>
            && path in files && files[path].AssemblyFile?
            && r.files == files[BackupPath(path) := files[path]][path := AssemblyFile(PatchedImage(files[path].image))])
      // the first message and the backup precede every patch, the write and the last message follow them
      && (r.outcome == Patched ==>
            r.effects == [MessageBox(PatchingMessage, MessageCaption), CopiedFile(path, BackupPath(path))]
              + ModulesLog(files[path].image.modules)
              + [WroteAssembly(path), MessageBox(PatchedMessage, MessageCaption)])
  {
  }

  /**
   * Patching is idempotent: a second run on what the first left changes nothing and does
   * nothing visible, and after a patching run it finds the marker.
   */
  lemma SecondRunChangesNothing(files: map<seq<CodeUnit>, FileData>, path: seq<CodeUnit>, markerResolves: bool)
    ensures var first := PatchRunSpec(files, path, markerResolves);
      var second := PatchRunSpec(first.files, path, markerResolves);
      && second.files == first.files
      && (first.outcome != MarkerThrew ==> second.effects == [])
      // a failed marker leaves the assembly unmarked, so the next run repeats the same steps
      && (first.outcome == MarkerThrew ==> second == first)
      && (first.outcome == Patched ==> second.outcome == AlreadyPatched)
      && (first.outcome != Patched ==> second.outcome == first.outcome)
  {
    var first := PatchRunSpec(files, path, markerResolves);
    PatchRunFacts(files, path, markerResolves);
    PatchRunFacts(first.files, path, markerResolves);
    if first.outcome == Patched {
      var image := PatchedImage(files[path].image);
      assert first.files[path] == AssemblyFile(image);
      assert image.customAttributes[|image.customAttributes| - 1] == Marker;
    }
  }

  /** The machine the patcher runs on: its file system, and the trace of what it shows and logs. */
  class Host {
    var files: map<seq<CodeUnit>, FileData>
    var effects: seq<Effect>
    /** Whether the assembly resolver finds the type of the marker attribute. */
    const markerResolves: bool

    constructor (files: map<seq<CodeUnit>, FileData>, markerResolves: bool)
      ensures this.files == files && effects == [] && this.markerResolves == markerResolves
    {
      this.files := files;
      effects := [];
      this.markerResolves := markerResolves;
    }

    /** `File.Exists`. */
    predicate Exists(path: seq<CodeUnit>)
      reads this
    {
      path in files
    }

    /** `AssemblyDefinition.ReadAssembly`; `null` stands for the exception on an unreadable file. */
    method ReadAssembly(path: seq<CodeUnit>) returns (asm: AssemblyDefinition?)
      requires path in files
      ensures asm == null <==> files[path].NotAnAssembly?
      ensures asm != null ==> fresh(asm) && asm.Snapshot() == files[path].image
    {
      match files[path]
      case NotAnAssembly =>
        asm := null;
      case AssemblyFile(image) =>
        asm := new AssemblyDefinition(image);
    }

    method ShowMessage(text: string, caption: string)
      modifies this
      ensures files == old(files) && effects == old(effects) + [MessageBox(text, caption)]
    {
      effects := effects + [MessageBox(text, caption)];
    }

    /** `File.Copy` with overwrite. */
    method Copy(source: seq<CodeUnit>, destination: seq<CodeUnit>)
      requires source in files
      modifies this
      ensures files == old(files)[destination := old(files)[source]]
      ensures effects == old(effects) + [CopiedFile(source, destination)]
    {
      files := files[destination := files[source]];
      effects := effects + [CopiedFile(source, destination)];
    }

    /** `API.Log`. */
    method Log(modName: string, message: string)
      modifies this
      ensures files == old(files) && effects == old(effects) + [Logged(LogEntry(modName, message))]
    {
      effects := effects + [Logged(LogEntry(modName, message))];
    }

    /** `AssemblyDefinition.Write`, back to the file the assembly was read from. */
    method Write(path: seq<CodeUnit>, asm: AssemblyDefinition)
      modifies this
      ensures files == old(files)[path := AssemblyFile(asm.Snapshot())]
      ensures effects == old(effects) + [WroteAssembly(path)]
    {
      files := files[path := AssemblyFile(asm.Snapshot())];
      effects := effects + [WroteAssembly(path)];
    }
  }

  lemma TypesLogStep(types: seq<TypeDef>, j: nat)
    requires j < |types|
    ensures TypesLog(types[..j + 1]) == TypesLog(types[..j]) +
      (if GameScript(types[j]) then [Logged(LogEntry(LoaderName, "Patching " + FullName(types[j])))] else [])
  {
    assert types[..j + 1][..j] == types[..j];
  }

  lemma ModulesLogStep(modules: seq<ModuleDef>, m: nat)
    requires m < |modules|
    ensures ModulesLog(modules[..m + 1]) == ModulesLog(modules[..m]) + TypesLog(modules[m].types)
  {
    assert modules[..m + 1][..m] == modules[..m];
  }

  /** The scan of one module's top-level types, patching and logging every game script. */
  method PatchModule(host: Host, asm: AssemblyDefinition, m: nat)
    requires m < |asm.modules|
    modifies host, asm
    ensures host.files == old(host.files)
    ensures host.effects == old(host.effects) + TypesLog(old(asm.modules[m].types))
    ensures asm.modules == old(asm.modules)[m := ModuleDef(PatchedTypes(old(asm.modules[m].types)))]
    ensures asm.customAttributes == old(asm.customAttributes)
  {
    var types := asm.modules[m].types;
    var j := 0;
    while j < |types|
      invariant j <= |types| == |old(asm.modules[m].types)|
      invariant forall k :: 0 <= k < j ==> types[k] == PatchedTypes(old(asm.modules[m].types))[k]
      invariant forall k :: j <= k < |types| ==> types[k] == old(asm.modules[m].types)[k]
      invariant asm.modules == old(asm.modules)[m := ModuleDef(types)]
      invariant asm.customAttributes == old(asm.customAttributes)
      invariant host.files == old(host.files)
      invariant host.effects == old(host.effects) + TypesLog(old(asm.modules[m].types)[..j])
    {
      var ty := types[j];
      TypesLogStep(old(asm.modules[m].types), j);
      var script := IsGameScript(ty);
      if script {
        host.Log(LoaderName, "Patching " + FullName(ty));
        var patched := PatchType(ty);
        types := types[j := patched];
        asm.modules := asm.modules[m := ModuleDef(types)];
      }
      j := j + 1;
    }
    assert old(asm.modules[m].types)[..j] == old(asm.modules[m].types);
    assert types == PatchedTypes(old(asm.modules[m].types));
  }

  /** The scan over every module of the assembly. */
  method PatchModules(host: Host, asm: AssemblyDefinition)
    modifies host, asm
    ensures host.files == old(host.files)
    ensures host.effects == old(host.effects) + ModulesLog(old(asm.modules))
    ensures asm.modules == PatchedModules(old(asm.modules))
    ensures asm.customAttributes == old(asm.customAttributes)
  {
    ghost var modules := asm.modules;
    var m := 0;
    while m < |asm.modules|
      invariant m <= |asm.modules| == |modules|
      invariant forall k :: 0 <= k < m ==> asm.modules[k] == PatchedModules(modules)[k]
      invariant forall k :: m <= k < |asm.modules| ==> asm.modules[k] == modules[k]
      invariant asm.customAttributes == old(asm.customAttributes)
      invariant host.files == old(host.files)
      invariant host.effects == old(host.effects) + ModulesLog(modules[..m])
    {
      ModulesLogStep(modules, m);
      PatchModule(host, asm, m);
      m := m + 1;
    }
    assert modules[..m] == modules;
    assert asm.modules == PatchedModules(modules);
  }

  /**
   * The patching half of `PatchIfNeeded`, once the assembly at `asmPath` is read and
   * found unmarked: announce, back up, scan, mark, write, announce. `threw` is the
   * exception of `InjectMarker`, which ends the run before the write.
   */
  method PatchAndWrite(host: Host, asm: AssemblyDefinition, asmPath: seq<CodeUnit>) returns (threw: bool)
    requires asmPath in host.files
    modifies host, asm
    ensures threw == !host.markerResolves
    ensures var backedUp := old(host.files)[BackupPath(asmPath) := old(host.files)[asmPath]];
      host.files == if threw then backedUp else backedUp[asmPath := AssemblyFile(PatchedImage(old(asm.Snapshot())))]
    ensures var scanned := old(host.effects)
      + [MessageBox(PatchingMessage, MessageCaption), CopiedFile(asmPath, BackupPath(asmPath))]
      + ModulesLog(old(asm.modules));
      host.effects == if threw then scanned else scanned + [WroteAssembly(asmPath), MessageBox(PatchedMessage, MessageCaption)]
  {
    ghost var image := asm.Snapshot();
    host.ShowMessage(PatchingMessage, MessageCaption);
    host.Copy(asmPath, BackupPath(asmPath));
    PatchModules(host, asm);
    threw := InjectMarker(asm, host.markerResolves);
    if threw {
      return;
    }
    assert asm.Snapshot() == PatchedImage(image);
    host.Write(asmPath, asm);
    host.ShowMessage(PatchedMessage, MessageCaption);
  }

  /** `PatchIfNeeded`, on the assembly under `baseDirectory`. */
  method PatchIfNeeded(host: Host, baseDirectory: seq<CodeUnit>) returns (outcome: PatchOutcome)
    modifies host
    ensures var r := PatchRunSpec(old(host.files), AssemblyPath(baseDirectory), host.markerResolves);
      host.files == r.files && host.effects == old(host.effects) + r.effects && outcome == r.outcome
  {
    var asmPath := AssemblyPath(baseDirectory);
    if !host.Exists(asmPath) {
      return AssemblyMissing;
    }
    outcome := PatchExisting(host, asmPath);
  }

  /** The rest of `PatchIfNeeded`, once the file is known to exist. */
  method PatchExisting(host: Host, asmPath: seq<CodeUnit>) returns (outcome: PatchOutcome)
    requires asmPath in host.files
    modifies host
    ensures var r := PatchRunSpec(old(host.files), asmPath, host.markerResolves);
      host.files == r.files && host.effects == old(host.effects) + r.effects && outcome == r.outcome
  {
    var asm := host.ReadAssembly(asmPath);
    if asm == null {
      return ReadThrew;
    }
    if HasMarker(asm.customAttributes) {
      return AlreadyPatched;
    }
    var threw := PatchAndWrite(host, asm, asmPath);
    return if threw then MarkerThrew else Patched;
  }
}
