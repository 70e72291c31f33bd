/**
 * `Hook.cs`: the registry of hooked originals, the installer that scans an
 * assembly for `[Hook]` methods, and the `Hooks.Original` callers.
 */
module Hooking {
  import opened Optional
  import opened Reflection
  import opened Logging

  /** The registry key: the declaring type of a hooked method and its name. */
  datatype HookKey = HookKey(declaringType: TypeId, methodName: string)

  function KeyOf(m: MethodInfo): HookKey
  {
    HookKey(m.declaringType, m.name)
  }

  /** The code a method's entry point leads to, named by the method whose body it is. */
  datatype Code = BodyOf(owner: MethodToken)

  /** Where a method's entry point leads: its own body until a hook rewrites it. */
  function EntryOf(entry: map<MethodToken, Code>, token: MethodToken): Code
  {
    if token in entry then entry[token] else BodyOf(token)
  }

  /** What installation does, in order: log lines, registry writes and entry-point rewrites. */
  datatype HookEvent =
    | Logged(line: LogEntry)
    | Registered(key: HookKey, original: MethodInfo)
    | Swapped(target: MethodToken, replacement: MethodToken)

  const InvalidAttributeMessage: string := "[Hook] Invalid HookAttribute!"

  /** `{attr.TargetType}` in the messages prints the type's `ToString()`. */
  function NotFoundMessage(targetMethod: string, targetType: RuntimeType): string
  {
    "[Hook] Could not find method " + targetMethod + " on " + targetType.displayName
  }

  function PatchedMessage(targetType: RuntimeType, targetMethod: string): string
  {
    "[Hook] Patched " + targetType.displayName + "." + targetMethod
  }

  /** The installer's whole state: the registry, the entry points and the trace. */
  datatype HookState = HookState(originals: map<HookKey, MethodInfo>, entry: map<MethodToken, Code>, events: seq<HookEvent>)

  /** One `InstallHook` call; `threw` is an `AmbiguousMatchException` leaving it. */
  datatype Step = Step(state: HookState, threw: bool)

  /** A usable attribute names a type and a non-empty method name. */
  predicate ValidAttribute(attr: HookAttribute)
  {
    attr.targetType.Some? && attr.targetMethod.Some? && attr.targetMethod.value != ""
  }

  /** The effect of `InstallHook(hookMethod, attr)` on the state `s`. */
  function InstallStep(s: HookState, hookMethod: MethodInfo, attr: HookAttribute): Step
  {
    if !ValidAttribute(attr) then
      Step(s.(events := s.events + [Logged(LogEntry(LoaderName, InvalidAttributeMessage))]), false)
    else
      var targetType := attr.targetType.value;
      var name := attr.targetMethod.value;
      match GetMethod(targetType, name, true, true)
      case Ambiguous => Step(s, true)
      case NotFound =>
        Step(s.(events := s.events + [Logged(LogEntry(LoaderName, NotFoundMessage(name, targetType)))]), false)
      case Found(target) =>
        Step(HookState(
          s.originals[KeyOf(target) := target],
          s.entry[target.token := EntryOf(s.entry, hookMethod.token)],
          s.events + [Registered(KeyOf(target), target), Swapped(target.token, hookMethod.token),
                      Logged(LogEntry(LoaderName, PatchedMessage(targetType, name)))]),
          false)
  }

  /**
   * `InstallHook` throws only on an ambiguous target name, and then changes nothing; an unusable
   * attribute or a missing target adds one log line and nothing else; a found target is registered
   * as its own original, then its entry is made to lead where the hook's does, then it is logged.
   */
  lemma InstallStepEffect(s: HookState, hookMethod: MethodInfo, attr: HookAttribute)
    ensures var r := InstallStep(s, hookMethod, attr);
      && (r.threw <==>
        ValidAttribute(attr) && GetMethod(attr.targetType.value, attr.targetMethod.value, true, true).Ambiguous?)
      && (r.threw ==> r.state == s)
      && (!ValidAttribute(attr) ==>
        r.state == s.(events := s.events + [Logged(LogEntry(LoaderName, InvalidAttributeMessage))]))
      && (ValidAttribute(attr) && GetMethod(attr.targetType.value, attr.targetMethod.value, true, true).NotFound? ==>
        r.state == s.(events := s.events + [Logged(LogEntry(LoaderName,
          NotFoundMessage(attr.targetMethod.value, attr.targetType.value)))]))
      && (ValidAttribute(attr) && GetMethod(attr.targetType.value, attr.targetMethod.value, true, true).Found? ==>
        var target := GetMethod(attr.targetType.value, attr.targetMethod.value, true, true).info;
        && r.state.originals == s.originals[KeyOf(target) := target]
        && r.state.entry == s.entry[target.token := EntryOf(s.entry, hookMethod.token)]
        && r.state.events == s.events + [
             Registered(KeyOf(target), target),
             Swapped(target.token, hookMethod.token),
             Logged(LogEntry(LoaderName, PatchedMessage(attr.targetType.value, attr.targetMethod.value)))])
  {
  }

  /** A hook method found by the scan, with its attribute. */
  datatype HookSite = HookSite(info: MethodInfo, attr: HookAttribute)

  /** The hook sites among `methods`, in order. */
  function MethodSites(methods: seq<MethodInfo>): seq<HookSite>
  {
    if |methods| == 0 then []
    else
      var m := methods[|methods| - 1];
      MethodSites(methods[..|methods| - 1]) + (if m.hook.Some? then [HookSite(m, m.hook.value)] else [])
  }

  /** The hook sites of an assembly: type by type, each type's own static methods in order. */
  function HookSites(types: seq<RuntimeType>): seq<HookSite>
  {
    if |types| == 0 then [] else HookSites(types[..|types| - 1]) + MethodSites(StaticMethods(types[|types| - 1]))
  }

  lemma {:induction false} MethodSitesExact(methods: seq<MethodInfo>)
    ensures forall site :: site in MethodSites(methods) <==> site.info in methods && site.info.hook == Some(site.attr)
  {
    if |methods| != 0 {
      var init := methods[..|methods| - 1];
      MethodSitesExact(init);
      assert methods == init + [methods[|methods| - 1]];
    }
  }

  /** `t` declares the hook method of `site`, static and carrying that attribute. */
  predicate Declares(t: RuntimeType, site: HookSite)
  {
    site.info in StaticMethods(t) && site.info.hook == Some(site.attr)
  }

  /** Some type of `types` declares the hook method of `site`. */
  predicate DeclaredIn(types: seq<RuntimeType>, site: HookSite)
  {
    exists i :: 0 <= i < |types| && Declares(types[i], site)
  }

  lemma DeclaredInSnoc(types: seq<RuntimeType>, site: HookSite)
    requires |types| != 0
    ensures DeclaredIn(types, site) <==>
      DeclaredIn(types[..|types| - 1], site) || Declares(types[|types| - 1], site)
  {
    var init := types[..|types| - 1];
    if DeclaredIn(types, site) {
      var i :| 0 <= i < |types| && Declares(types[i], site);
      if i < |init| {
        assert init[i] == types[i];
      }
    }
    if DeclaredIn(init, site) {
      var i :| 0 <= i < |init| && Declares(init[i], site);
      assert types[i] == init[i];
    }
  }

  /**
   * The scan visits exactly the static methods that each type declares and that
   * carry a `HookAttribute`, with that attribute.
   */
  lemma {:induction false} HookSitesExact(types: seq<RuntimeType>)
    ensures forall site :: site in HookSites(types) <==> DeclaredIn(types, site)
  {
    if |types| != 0 {
      var n := |types| - 1;
      HookSitesExact(types[..n]);
      MethodSitesExact(StaticMethods(types[n]));
      forall site
        ensures site in HookSites(types) <==> DeclaredIn(types, site)
      {
        DeclaredInSnoc(types, site);
      }
    }
  }

  /** `InstallHook` over `sites` in order, stopping at the first exception. */
  function InstallAll(s: HookState, sites: seq<HookSite>): Step
  {
    if |sites| == 0 then Step(s, false)
    else
      var before := InstallAll(s, sites[..|sites| - 1]);
      if before.threw then before
      else InstallStep(before.state, sites[|sites| - 1].info, sites[|sites| - 1].attr)
  }

  /** Once an installation has thrown, later sites are never reached. */
  lemma {:induction false} ThrowEndsScan(s: HookState, sites: seq<HookSite>, later: seq<HookSite>)
    requires InstallAll(s, sites).threw
    ensures InstallAll(s, sites + later) == InstallAll(s, sites)
    decreases |later|
  {
    if |later| == 0 {
      assert sites + later == sites;
    } else {
      var init := later[..|later| - 1];
      ThrowEndsScan(s, sites, init);
      var all := sites + later;
      assert all[..|all| - 1] == sites + init;
      assert InstallAll(s, all[..|all| - 1]).threw;
    }
  }

  /** A scan without an exception only adds events: the earlier trace is kept as a prefix. */
  lemma {:induction false} InstallAllExtendsTrace(s: HookState, sites: seq<HookSite>)
    ensures s.events <= InstallAll(s, sites).state.events
  {
    if |sites| != 0 {
      InstallAllExtendsTrace(s, sites[..|sites| - 1]);
    }
  }

  /**
   * `Hooks.Original(self, methodName, args)`: the call it makes, if any. The key uses
   * the receiver's runtime type, not the type that declares the method.
   */
  function Original(originals: map<HookKey, MethodInfo>, self: Instance?, methodName: Option<string>, args: seq<Value>): (call: Option<Invocation>)
    ensures self == null || methodName.None? || methodName == Some("") ==> call.None?
    ensures call.Some? <==>
      self != null && methodName.Some? && methodName.value != "" && HookKey(self.runtimeType.id, methodName.value) in originals
    ensures call.Some? ==> call.value == Invocation(originals[HookKey(self.runtimeType.id, methodName.value)], self, args)
  {
    if self == null || methodName.None? || methodName.value == "" then None
    else
      var key := HookKey(self.runtimeType.id, methodName.value);
      if key in originals then Some(Invocation(originals[key], self, args)) else None
  }

  /** `Hooks.Original<TReturn>`: the invocation's result, or `default` whenever no call is made. */
  function OriginalOf<R>(originals: map<HookKey, MethodInfo>, self: Instance?, methodName: Option<string>, args: seq<Value>,
                         invoke: Invocation -> R, default: R): (r: R)
    ensures Original(originals, self, methodName, args).None? ==> r == default
    ensures Original(originals, self, methodName, args).Some? ==> r == invoke(Original(originals, self, methodName, args).value)
  {
    match Original(originals, self, methodName, args)
    case None => default
    case Some(call) => invoke(call)
  }

  /**
   * Calling `Original` for a hooked method, on an object of the type that declares it, after
   * the hook is installed, invokes the target, and the target's entry leads to the hook's code.
   */
  lemma OriginalAfterInstall(s: HookState, hookMethod: MethodInfo, attr: HookAttribute, self: Instance, args: seq<Value>)
    requires ValidAttribute(attr)
    requires GetMethod(attr.targetType.value, attr.targetMethod.value, true, true).Found?
    requires self.runtimeType.id == GetMethod(attr.targetType.value, attr.targetMethod.value, true, true).info.declaringType
    ensures var target := GetMethod(attr.targetType.value, attr.targetMethod.value, true, true).info;
      var after := InstallStep(s, hookMethod, attr).state;
      && Original(after.originals, self, attr.targetMethod, args) == Some(Invocation(target, self, args))
      && EntryOf(after.entry, target.token) == EntryOf(s.entry, hookMethod.token)
  {
  }

  /** `HookRegistry`: the originals of hooked methods, by declaring type and name. */
  class HookRegistry {
    var originals: map<HookKey, MethodInfo>

    constructor ()
      ensures originals == map[]
    {
      originals := map[];
    }

    /** Store `original` under `target`'s key, replacing whatever was there. */
    method RegisterOriginal(target: MethodInfo, original: MethodInfo)
      modifies this
      ensures originals == old(originals)[KeyOf(target) := original]
    {
      originals := originals[KeyOf(target) := original];
    }

    /** `GetOriginal`: `null` exactly when nothing is stored under the key. */
    function GetOriginal(declaringType: TypeId, methodName: string): (r: Option<MethodInfo>)
      reads this
      ensures r.None? <==> HookKey(declaringType, methodName) !in originals
      ensures r.Some? ==> r.value == originals[HookKey(declaringType, methodName)]
    {
      var key := HookKey(declaringType, methodName);
      if key in originals then Some(originals[key]) else None
    }
  }

  /** A registration is read back under its own key, and no other key changes: the last write wins. */
  lemma RegisterThenGet(originals: map<HookKey, MethodInfo>, target: MethodInfo, original: MethodInfo, key: HookKey)
    ensures key == KeyOf(target) ==> originals[KeyOf(target) := original][key] == original
    ensures key != KeyOf(target) ==>
      (key in originals[KeyOf(target) := original] <==> key in originals) &&
      (key in originals ==> originals[KeyOf(target) := original][key] == originals[key])
  {
  }

  /** `HookInstaller`, with the registry it writes and the entry points it rewrites. */
  class HookInstaller {
    const registry: HookRegistry
    var entry: map<MethodToken, Code>
    var events: seq<HookEvent>

    constructor (registry: HookRegistry)
      ensures this.registry == registry && entry == map[] && events == []
    {
      this.registry := registry;
      entry := map[];
      events := [];
    }

    function State(): HookState
      reads this, registry
    {
      HookState(registry.originals, entry, events)
    }

    /** `API.Log("ModLoader", message)`. */
    method Log(message: string)
      modifies this
      ensures entry == old(entry) && events == old(events) + [Logged(LogEntry(LoaderName, message))]
    {
      events := events + [Logged(LogEntry(LoaderName, message))];
    }

    /** `RuntimeHook`: the target's entry now leads where the replacement's does; nothing else changes. */
    method RuntimeHook(target: MethodInfo, replacement: MethodInfo)
      modifies this
      ensures entry == old(entry)[target.token := EntryOf(old(entry), replacement.token)]
      ensures events == old(events) + [Swapped(target.token, replacement.token)]
    {
      entry := entry[target.token := EntryOf(entry, replacement.token)];
      events := events + [Swapped(target.token, replacement.token)];
    }

    /** `InstallHook`; `threw` reports the `AmbiguousMatchException` of the target lookup. */
    method InstallHook(hookMethod: MethodInfo, attr: HookAttribute) returns (threw: bool)
      modifies this, registry
      ensures Step(State(), threw) == InstallStep(old(State()), hookMethod, attr)
    {
      if attr.targetType.None? || attr.targetMethod.None? || attr.targetMethod.value == "" {
        Log(InvalidAttributeMessage);
        return false;
      }
      var targetType := attr.targetType.value;
      var name := attr.targetMethod.value;
      var lookup := GetMethod(targetType, name, true, true);
      if lookup.Ambiguous? {
        return true;
      }
      if lookup.NotFound? {
        Log(NotFoundMessage(name, targetType));
        return false;
      }
      var target := lookup.info;
      registry.RegisterOriginal(target, target);
      events := events + [Registered(KeyOf(target), target)];
      RuntimeHook(target, hookMethod);
      Log(PatchedMessage(targetType, name));
      threw := false;
    }

    /**
     * The inner loop of `RegisterHooksFromAssembly`: install every hook method of one
     * type, after the sites `done` have been installed from `s0`.
     */
    method InstallTypeHooks(methods: seq<MethodInfo>, ghost s0: HookState, ghost done: seq<HookSite>) returns (threw: bool)
      requires InstallAll(s0, done) == Step(State(), false)
      modifies this, registry
      ensures InstallAll(s0, done + MethodSites(methods)) == Step(State(), threw)
    {
      var j := 0;
      assert done + MethodSites(methods[..0]) == done;
      while j < |methods|
        invariant j <= |methods|
        invariant InstallAll(s0, done + MethodSites(methods[..j])) == Step(State(), false)
      {
        var m := methods[j];
        MethodSitesStep(done, methods, j);
        if m.hook.Some? {
          InstallAllSnoc(s0, done + MethodSites(methods[..j]), HookSite(m, m.hook.value));
          threw := InstallHook(m, m.hook.value);
          if threw {
            SitesAfterThrow(s0, done, methods, j);
            return;
          }
        }
        j := j + 1;
      }
      assert methods[..j] == methods;
      threw := false;
    }

    /** `RegisterHooksFromAssembly` over the assembly's types; `threw` as for `InstallHook`. */
    method RegisterHooksFromAssembly(types: seq<RuntimeType>) returns (threw: bool)
      modifies this, registry
      ensures Step(State(), threw) == InstallAll(old(State()), HookSites(types))
    {
      ghost var s0 := State();
      var i := 0;
      while i < |types|
        invariant i <= |types|
        invariant InstallAll(s0, HookSites(types[..i])) == Step(State(), false)
      {
        HookSitesStep(types, i);
        threw := InstallTypeHooks(StaticMethods(types[i]), s0, HookSites(types[..i]));
        if threw {
          HookSitesAppend(types[..i + 1], types[i + 1..]);
          SplitAt(types, i + 1);
          ThrowEndsScan(s0, HookSites(types[..i + 1]), HookSites(types[i + 1..]));
          return;
        }
        i := i + 1;
      }
      assert types[..i] == types;
      threw := false;
    }
  }

  lemma MethodSitesStep(done: seq<HookSite>, methods: seq<MethodInfo>, j: nat)
    requires j < |methods|
    ensures methods[j].hook.Some? ==>
      done + MethodSites(methods[..j + 1]) == done + MethodSites(methods[..j]) + [HookSite(methods[j], methods[j].hook.value)]
    ensures methods[j].hook.None? ==> done + MethodSites(methods[..j + 1]) == done + MethodSites(methods[..j])
  {
    assert methods[..j + 1][..j] == methods[..j];
  }

  lemma SplitAt<T>(s: seq<T>, k: nat)
    requires k <= |s|
    ensures s[..k] + s[k..] == s
  {
  }

  lemma HookSitesStep(types: seq<RuntimeType>, i: nat)
    requires i < |types|
    ensures HookSites(types[..i + 1]) == HookSites(types[..i]) + MethodSites(StaticMethods(types[i]))
  {
    assert types[..i + 1][..i] == types[..i];
  }

  /** A throw at method `j` ends the scan of the whole type. */
  lemma SitesAfterThrow(s0: HookState, done: seq<HookSite>, methods: seq<MethodInfo>, j: nat)
    requires j < |methods|
    requires InstallAll(s0, done + MethodSites(methods[..j + 1])).threw
    ensures InstallAll(s0, done + MethodSites(methods)) == InstallAll(s0, done + MethodSites(methods[..j + 1]))
  {
    SitesSplit(done, methods, j + 1);
    ThrowEndsScan(s0, done + MethodSites(methods[..j + 1]), MethodSites(methods[j + 1..]));
  }

  lemma SitesSplit(done: seq<HookSite>, methods: seq<MethodInfo>, k: nat)
    requires k <= |methods|
    ensures done + MethodSites(methods) == done + MethodSites(methods[..k]) + MethodSites(methods[k..])
  {
    SplitAt(methods, k);
    MethodSitesAppend(methods[..k], methods[k..]);
  }

  /** One more site: `InstallAll` is the step after the earlier ones, unless they threw. */
  lemma InstallAllSnoc(s: HookState, sites: seq<HookSite>, site: HookSite)
    ensures InstallAll(s, sites + [site]) ==
      if InstallAll(s, sites).threw then InstallAll(s, sites)
      else InstallStep(InstallAll(s, sites).state, site.info, site.attr)
  {
    var all := sites + [site];
    assert all[..|all| - 1] == sites;
  }

  lemma {:induction false} MethodSitesAppend(a: seq<MethodInfo>, b: seq<MethodInfo>)
    ensures MethodSites(a + b) == MethodSites(a) + MethodSites(b)
    decreases |b|
  {
    if |b| == 0 {
      assert a + b == a;
    } else {
      var init := b[..|b| - 1];
      MethodSitesAppend(a, init);
      assert (a + b)[..|a + b| - 1] == a + init;
    }
  }

  lemma {:induction false} HookSitesAppend(a: seq<RuntimeType>, b: seq<RuntimeType>)
    ensures HookSites(a + b) == HookSites(a) + HookSites(b)
    decreases |b|
  {
    if |b| == 0 {
      assert a + b == a;
    } else {
      var init := b[..|b| - 1];
      var last := b[|b| - 1];
      var all := a + b;
      calc {
        HookSites(all);
      == { assert all[..|all| - 1] == a + init; assert all[|all| - 1] == last; }
        HookSites(a + init) + MethodSites(StaticMethods(last));
      == { HookSitesAppend(a, init); }
        HookSites(a) + HookSites(init) + MethodSites(StaticMethods(last));
      }
    }
  }
}
