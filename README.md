# ILML mod loader, modelled in Dafny

ILML loads mods into the Unity game *Iron Lung*. It works in three stages.

1. The launcher (`Program.cs`) starts the game suspended.
2. The injector (`ILML/Injector.cs`) writes the path of the native loader into the game's address space. It then starts a remote thread at `LoadLibraryW` on that path, and the launcher resumes the game.
3. The managed core runs inside the game:
   - `AssemblyCSharpPatcher` makes the game's own scripts public on first start. It keeps a backup and marks the assembly so that the next start leaves it alone.
   - `HookInstaller` scans a mod assembly for `[Hook]` methods. It records each target as its own original and redirects the target's entry point to the hook. `Hooks.Original` later calls the recorded original.
   - `API` gives mods:
     - a main-thread action queue;
     - update callbacks and scene-loaded callbacks;
     - a search for game types;
     - reflection helpers for private members.

The model has one module per source file, plus shared ones.

- **Shared modules**
  - `Optional`: `null` as `None`.
  - `WideText`: .NET strings as UTF-16 code units, and the `Encoding.Unicode` byte encoding.
  - `Reflection`: runtime types, `GetMethod` with its ambiguity rule, and objects.
  - `Logging`: log entries.
  - `Win32`: the Windows calls. It is an abstract operating system that records every call and answers from a fixed table.
- **One module per source file**
  - `Launcher` models `Program.cs`.
  - `Injector` models `Injector.cs`.
  - `AssemblyPatcher` models `AssemblyCSharpPatcher.cs`.
  - `Hooking` models `Hook.cs`.
  - `ModApi` models `API.cs`.

Where the source changes state step by step, the model is imperative:
- classes whose methods update their fields (`Api`, `HookRegistry`, `HookInstaller`, `AssemblyDefinition`, `Host`, `Kernel`);
- loops with invariants.

Each such method is proved against a specification function:
- `LaunchSpec`, `InjectSpec` and `PatchRunSpec`;
- `InstallStep` and `InstallAll`;
- `Drain`, `AllEdited` and `SceneReached`;
- `PatchedType` and `TypeFromGame`.

Lemmas then prove what the source promises about those functions.

Everything outside the program is a parameter:
- The file system is a map from full paths to file contents.
- The Windows API is answered from an `OsAnswers` table.
- What a mod callback does when it runs is a function argument. It gives the exception the callback throws and the actions or registrations it adds through the API.
- Message boxes, copies, log lines and writes are recorded in order in a trace.

## Model

| member | source | states |
|---|---|---|
| `WideText.Sanitized` | ILML/Injector.cs:12 | the code units `Encoding.Unicode` emits: the same length, well-formed, and a well-formed string kept unchanged |
| `WideText.SanitizedReplacesUnpaired` | ILML/Injector.cs:12 | position by position, a code unit becomes U+FFFD exactly when it is an unpaired surrogate (a high one not followed by a low one, or a low one not preceded by a high one), and is kept otherwise |
| `WideText.CodeUnitsOfBytes` | ILML/Injector.cs:12 | decoding the little-endian bytes of any code-unit sequence gives the sequence back |
| `WideText.UnicodeBytes` | ILML/Injector.cs:12 | `GetBytes` yields two bytes per code unit, and those bytes decode to the sanitized string (to the string itself when it is well-formed) |
| `WideText.Combine` | ModLoader.Core.Managed/AssemblyCSharpPatcher.cs:18-23 | `Path.Combine` for a relative name: the directory is the head of the result and the name its tail; between them is one `\` exactly when the directory is non-empty and does not already end in `\`, `/` or `:` |
| `Win32.ToUInt32` | ILML/Injector.cs:17 | the `(uint)` cast lands below 2^32, and leaves a value that already fits unchanged |
| `Win32.Kernel.CallCreateProcessW` | Native.cs:37-49 | records the call; succeeds exactly when the system answers with a process; returns that process's information |
| `Win32.Kernel.CallVirtualAllocEx` | Native.cs:51-58 | records the call and returns the system's region base (zero on failure) |
| `Win32.Kernel.CallWriteProcessMemory` | Native.cs:60-67 | records the call with the buffer and size written |
| `Win32.Kernel.CallGetModuleHandle` | Native.cs:86-87 | records the call and returns the module handle |
| `Win32.Kernel.CallGetProcAddress` | Native.cs:80-84 | records the call and returns the procedure address (zero when missing) |
| `Win32.Kernel.CallCreateRemoteThread` | Native.cs:69-78 | records the call with its start address and parameter |
| `Win32.Kernel.CallResumeThread` | Native.cs:89-90 | records the call on the given thread |
| `Win32.Kernel.WriteLine` | Program.cs:13 | `Console.WriteLine` appends one line to standard output and makes no system call |
| `Win32.Kernel.constructor` | Native.cs:4-9 | a fresh system with the given answers, working directory and files, and empty traces |
| `Injector.Payload` | ILML/Injector.cs:12 | the payload is `2 * (length + 1)` bytes and ends in a zero code unit; it decodes to the sanitized path followed by the terminator, and to the path itself when the path is well-formed |
| `Injector.TerminatedSanitized` | ILML/Injector.cs:12 | sanitizing commutes with appending the terminator |
| `Injector.LittleEndianSplit` | ILML/Injector.cs:12 | the byte encoding of a concatenation is the concatenation of the encodings |
| `Injector.LastBytesOfTerminated` | ILML/Injector.cs:12 | the last two payload bytes are zero |
| `Injector.InjectRunFacts` | ILML/Injector.cs:12-49 | the region is sized exactly to the payload, committed and read-write; a zero allocation throws with no further call; the whole payload goes to the region base; a missing `LoadLibraryW` throws before any thread is started; otherwise the fifth and last call starts a thread at `LoadLibraryW` with the region as its argument |
| `Injector.IgnoredResults` | ILML/Injector.cs:25-49 | the result of `WriteProcessMemory` and the handle from `CreateRemoteThread` change nothing the injector does |
| `Injector.Inject` | ILML/Injector.cs:7-50 | the calls made and the outcome are exactly those of `InjectSpec`; nothing is printed |
| `Launcher.LaunchRunFacts` | Program.cs:8-48 | a missing game or missing loader prints one message and makes no system call; otherwise the first call creates the game suspended with the log-file argument; a failed start prints one message and injects nothing; the loader's full path is injected, and only a successful injection is followed by `ResumeThread` on the primary thread and the success message; an injection that throws leaves the game suspended and prints nothing |
| `Launcher.LaunchedIff` | Program.cs:11-48 | a launch succeeds exactly when both files exist, the process starts, the allocation succeeds and `LoadLibraryW` is found |
| `Launcher.Launch` | Program.cs:6-49 | the calls, the printed lines and the outcome are those of `LaunchSpec` |
| `Launcher.StartAndInject` | Program.cs:28-48 | once both files exist: the calls, the printed lines and the outcome are those of `LaunchSpec` |
| `Launcher.InjectAndResume` | Program.cs:45-48 | the injection's calls, then `ResumeThread` and the success message exactly when the injection returned normally |
| `AssemblyPatcher.ResolvedChain` | ModLoader.Core.Managed/AssemblyCSharpPatcher.cs:91-105 | the chain the base walk visits starts at the type itself |
| `AssemblyPatcher.ChainNamesCons` | ModLoader.Core.Managed/AssemblyCSharpPatcher.cs:93 | a chain names a base exactly when its head or its tail does |
| `AssemblyPatcher.InheritsAlongChain` | ModLoader.Core.Managed/AssemblyCSharpPatcher.cs:89-106 | inheritance holds exactly when some type on the resolved base chain names the base type directly |
| `AssemblyPatcher.InheritsFrom` | ModLoader.Core.Managed/AssemblyCSharpPatcher.cs:89-106 | the loop answers exactly whether the type inherits from the named base; a resolution that throws ends the walk with false |
| `AssemblyPatcher.GameScriptIff` | ModLoader.Core.Managed/AssemblyCSharpPatcher.cs:70-87 | a game script is exactly a global-namespace, non-generated, non-interface, non-enum type whose resolved chain names `MonoBehaviour` or `ScriptableObject` |
| `AssemblyPatcher.IsGameScript` | ModLoader.Core.Managed/AssemblyCSharpPatcher.cs:70-87 | the filter's answer is exactly `GameScript` |
| `AssemblyPatcher.PatchType` | ModLoader.Core.Managed/AssemblyCSharpPatcher.cs:110-144 | the three loops produce exactly `PatchedType`: private methods and accessors become public, a non-nested non-public type becomes public, and nested game scripts are patched recursively |
| `AssemblyPatcher.PatchKeepsShape` | ModLoader.Core.Managed/AssemblyCSharpPatcher.cs:110-144 | patching changes access levels and visibilities only: names, kinds, bases and the member and nesting structure are kept at every depth |
| `AssemblyPatcher.PatchExposes` | ModLoader.Core.Managed/AssemblyCSharpPatcher.cs:110-144 | after patching, no private method or accessor and no non-public top-level type is left in the type or in its game-script nested types; `Published`: each private method and each private accessor is now public, a non-public top-level type is now public, at every depth of game-script nesting; a member that was not private keeps its access; a nested or already public type keeps its visibility; a nested type that is not a game script is untouched |
| `AssemblyPatcher.PatchKeepsGameScript` | ModLoader.Core.Managed/AssemblyCSharpPatcher.cs:70-87 | patching never changes whether a type is a game script |
| `AssemblyPatcher.PatchIdempotent` | ModLoader.Core.Managed/AssemblyCSharpPatcher.cs:110-144 | patching a patched type changes nothing |
| `AssemblyPatcher.PatchedTypes` | ModLoader.Core.Managed/AssemblyCSharpPatcher.cs:47-54 | the scan of a module keeps its number of types |
| `AssemblyPatcher.PatchedModules` | ModLoader.Core.Managed/AssemblyCSharpPatcher.cs:45-55 | the scan keeps the number of modules |
| `AssemblyPatcher.PatchedImageProperties` | ModLoader.Core.Managed/AssemblyCSharpPatcher.cs:45-58 | the written image has the marker as its one new, last attribute; every type keeps its shape; every top-level game script is exposed and published: its private methods and accessors are public, and it is public itself if it was not; every other type is unchanged |
| `AssemblyPatcher.AssemblyDefinition.constructor` | ModLoader.Core.Managed/AssemblyCSharpPatcher.cs:28-31 | the loaded assembly holds the file's attributes and modules |
| `AssemblyPatcher.PatchKeepsNesting` | ModLoader.Core.Managed/AssemblyCSharpPatcher.cs:110-144 | patching keeps every nesting flag in agreement with where the type sits |
| `AssemblyPatcher.PatchedImageWellNested` | ModLoader.Core.Managed/AssemblyCSharpPatcher.cs:45-55 | the patched image of a well-nested image is well nested, and none of its top-level game scripts is non-public |
| `AssemblyPatcher.InjectMarker` | ModLoader.Core.Managed/AssemblyCSharpPatcher.cs:148-163 | throws exactly when the attribute's type does not resolve, and then adds nothing; otherwise appends the marker attribute, carrying "Iron Lung"; the modules are left alone either way |
| `AssemblyPatcher.BackupPath` | ModLoader.Core.Managed/AssemblyCSharpPatcher.cs:43 | the backup never overwrites the assembly itself |
| `AssemblyPatcher.PatchRunFacts` | ModLoader.Core.Managed/AssemblyCSharpPatcher.cs:16-66 | a missing file, an unreadable file and an already marked assembly each end the run with no file change and no visible effect; on an unmarked assembly the marker throws exactly when its type does not resolve, and that run leaves the backup and the unchanged assembly, after the first message, the copy and the scan's log; a patching run keeps the original as `.backup`, stores the patched image under the path, and shows the first message, copies, logs each game script, writes and shows the second message, in that order |
| `AssemblyPatcher.SecondRunChangesNothing` | ModLoader.Core.Managed/AssemblyCSharpPatcher.cs:33-34 | a second run on what any first run left changes no file; it does nothing visible unless the first run's marker threw, and then it repeats the first run exactly; after a patching run it finds the marker |
| `AssemblyPatcher.Host.constructor` | ModLoader.Core.Managed/AssemblyCSharpPatcher.cs:25 | a host with the given files, the given answer to whether the marker's type resolves, and an empty trace |
| `AssemblyPatcher.Host.ReadAssembly` | ModLoader.Core.Managed/AssemblyCSharpPatcher.cs:28-31 | reading fails exactly on a file that is not an assembly, and otherwise gives a fresh assembly holding the file's image |
| `AssemblyPatcher.Host.ShowMessage` | ModLoader.Core.Managed/AssemblyCSharpPatcher.cs:36-41 | records one message box and changes no file |
| `AssemblyPatcher.Host.Copy` | ModLoader.Core.Managed/AssemblyCSharpPatcher.cs:43 | the destination now holds the source's contents, overwriting any old file |
| `AssemblyPatcher.Host.Log` | ModLoader.Core.Managed/AssemblyCSharpPatcher.cs:52 | records one log line and changes no file |
| `AssemblyPatcher.Host.Write` | ModLoader.Core.Managed/AssemblyCSharpPatcher.cs:58 | the assembly's file now holds the assembly as it is in memory |
| `AssemblyPatcher.PatchModule` | ModLoader.Core.Managed/AssemblyCSharpPatcher.cs:47-54 | one module's types become `PatchedTypes` of the old ones, with one log line per game script in order; nothing else changes |
| `AssemblyPatcher.PatchModules` | ModLoader.Core.Managed/AssemblyCSharpPatcher.cs:45-55 | every module becomes its patched form; the log lines are those of the whole scan; the attributes and files are untouched |
| `AssemblyPatcher.PatchAndWrite` | ModLoader.Core.Managed/AssemblyCSharpPatcher.cs:36-65 | the backup holds the original file; the run throws exactly when the marker's type does not resolve, and then the path keeps the original and the effects end with the scan's log; otherwise the path holds the patched, marked image and the effects are the first message, the copy, the scan's log, the write and the second message |
| `AssemblyPatcher.PatchIfNeeded` | ModLoader.Core.Managed/AssemblyCSharpPatcher.cs:16-66 | the files, effects and outcome are exactly those of `PatchRunSpec` on the path under the base directory |
| `AssemblyPatcher.PatchExisting` | ModLoader.Core.Managed/AssemblyCSharpPatcher.cs:28-65 | once the file exists: the files, effects and outcome are those of `PatchRunSpec` |
| `Reflection.Matching` | ModLoader.Core.Managed/Hook.cs:67-68 | the methods a lookup on a type sees are exactly those of the right name and kind, where a static method is seen only when that type declares it (no `FlattenHierarchy`) |
| `Reflection.TwoMatches` | ModLoader.Core.Managed/Hook.cs:67-68 | a lookup sees at least two methods exactly when two positions of the method list match |
| `Reflection.MostDerivedFacts` | ModLoader.Core.Managed/Hook.cs:67-68 | among candidates with one signature, a non-empty list never gives `null`; the method picked is strictly deeper in the hierarchy than every other candidate; candidates at pairwise different depths always give one |
| `Reflection.GetMethod` | ModLoader.Core.Managed/Hook.cs:67-68 | `null` exactly when nothing matches; a found method matches, a found static method is declared by the type itself, and every other match has the same parameter types and is declared higher in the hierarchy; two matches with different parameter types throw `AmbiguousMatchException`; it is thrown only when several methods match, and then only for such an overload or for two candidates at the same depth |
| `Reflection.InheritedStaticUnseen` | ModLoader.Core.Managed/Hook.cs:67-68 | a name carried only by static methods of base types is not found |
| `Reflection.StaticMethods` | ModLoader.Core.Managed/Hook.cs:49 | a method is listed exactly when it is static and declared by the type itself |
| `Reflection.DeclaredStatic` | ModLoader.Core.Managed/Hook.cs:49 | the static methods declared by one type, with membership exactly as for `StaticMethods` |
| `Reflection.Instance.constructor` | ModLoader.Core.Managed/API.cs:124 | a new object with its runtime type, holding the given initial value of each declared instance field and no other field |
| `Hooking.InstallStepEffect` | ModLoader.Core.Managed/Hook.cs:59-83 | `InstallHook` throws exactly when `GetMethod` reports an ambiguous target and then changes nothing; an invalid attribute or a missing target adds one log line only, naming the target type by its `ToString()` text; a found target is registered as its own original, then its entry is made to lead to the hook's code, then "Patched" is logged |
| `Hooking.MethodSitesExact` | ModLoader.Core.Managed/Hook.cs:49-54 | the sites found among a method list are exactly its methods that carry a hook attribute |
| `Hooking.DeclaredInSnoc` | ModLoader.Core.Managed/Hook.cs:47 | a site is declared in a list of types extended by one type exactly when it is declared in the list or in that type |
| `Hooking.HookSitesExact` | ModLoader.Core.Managed/Hook.cs:45-57 | the scan finds exactly the hook-carrying static methods declared by the assembly's types |
| `Hooking.ThrowEndsScan` | ModLoader.Core.Managed/Hook.cs:45-57 | once an installation throws, no later site is installed |
| `Hooking.InstallAllExtendsTrace` | ModLoader.Core.Managed/Hook.cs:45-57 | a scan only adds to the trace of events |
| `Hooking.Original` | ModLoader.Core.Managed/Hook.cs:113-124 | no call for a `null` receiver or an empty name; otherwise a call exactly when the receiver's runtime type and the name are registered, invoking the registered original on the receiver with the arguments |
| `Hooking.OriginalOf` | ModLoader.Core.Managed/Hook.cs:126-137 | the default value whenever `Original` makes no call, and otherwise the result of the call |
| `Hooking.OriginalAfterInstall` | ModLoader.Core.Managed/Hook.cs:77-80 | after a successful install, `Original` on an object of the declaring type invokes the target itself, whose entry now leads to the hook's code |
| `Hooking.HookRegistry.constructor` | ModLoader.Core.Managed/Hook.cs:26-28 | the registry starts empty |
| `Hooking.HookRegistry.RegisterOriginal` | ModLoader.Core.Managed/Hook.cs:30-33 | stores the original under the target's declaring type and name, replacing any earlier entry |
| `Hooking.HookRegistry.GetOriginal` | ModLoader.Core.Managed/Hook.cs:35-39 | `null` exactly when nothing is stored under the key, otherwise the stored method |
| `Hooking.RegisterThenGet` | ModLoader.Core.Managed/Hook.cs:30-39 | a registration is read back under its key and leaves every other key alone: the last write wins |
| `Hooking.HookInstaller.constructor` | ModLoader.Core.Managed/Hook.cs:43 | an installer over the given registry with no entry rewritten and no event |
| `Hooking.HookInstaller.Log` | ModLoader.Core.Managed/Hook.cs:63 | appends one log line under the loader's name |
| `Hooking.HookInstaller.RuntimeHook` | ModLoader.Core.Managed/Hook.cs:85-107 | the target's entry now leads where the replacement's does; no other entry changes |
| `Hooking.HookInstaller.InstallHook` | ModLoader.Core.Managed/Hook.cs:59-83 | the new state and the exception are exactly those of `InstallStep` |
| `Hooking.HookInstaller.InstallTypeHooks` | ModLoader.Core.Managed/Hook.cs:49-55 | one type's methods are installed in order as `InstallAll` prescribes, stopping at an exception |
| `Hooking.HookInstaller.RegisterHooksFromAssembly` | ModLoader.Core.Managed/Hook.cs:45-57 | the state and the exception are exactly those of `InstallAll` over the assembly's hook sites |
| `ModApi.DrainTurn` | ModLoader.Core.Managed/API.cs:40-42 | while a drain that ends still has a queue, the head runs first, and what it enqueues joins the tail |
| `ModApi.ConservesTurn` | ModLoader.Core.Managed/API.cs:40-42 | one turn moves the head from the queue to what ran and its enqueued actions into the queue, losing and adding nothing |
| `ModApi.DrainConserves` | ModLoader.Core.Managed/API.cs:37-45 | after any number of turns, what was queued plus what the actions run enqueued is, as a multiset, what ran plus what is still queued |
| `ModApi.DrainQueuedFirst` | ModLoader.Core.Managed/API.cs:37-45 | a drain that ends runs the actions already queued first, in queue order |
| `ModApi.DrainFifo` | ModLoader.Core.Managed/API.cs:37-45 | after any number of turns, what ran followed by what is still queued is the starting queue followed by everything the actions that ran enqueued, in order |
| `ModApi.DrainRunsAll` | ModLoader.Core.Managed/API.cs:37-45 | a drain that ends runs, in exactly this order, the queued actions and then everything the actions that ran enqueued, in the order they enqueued it; so each runs once, with multiplicity, and the queued ones first |
| `ModApi.DrainFuelIrrelevant` | ModLoader.Core.Managed/API.cs:40 | once the queue is empty, more turns change nothing: the result does not depend on the bound |
| `ModApi.SelfEnqueueNeverEnds` | ModLoader.Core.Managed/API.cs:40-44 | a queued action that enqueues itself is still queued after any number of turns, so the loop never returns |
| `ModApi.RunAllActions` | ModLoader.Core.Managed/API.cs:40-44 | the loop runs exactly the actions of `Drain` of the queue, in order, and logs the exception of each action that throws, in order |
| `ModApi.RemoveFirst` | ModLoader.Core.Managed/API.cs:60 | `List.Remove`: the list is unchanged when the callback is absent; otherwise it gets one shorter and gains nothing |
| `ModApi.RemoveFromDistinct` | ModLoader.Core.Managed/API.cs:60 | in a duplicate-free list, removal deletes exactly the one entry, keeps the order of the rest, and leaves it duplicate-free |
| `ModApi.RegisterKeepsDistinct` | ModLoader.Core.Managed/API.cs:54 | registration keeps the list duplicate-free, leaves the callback in it, and keeps the list as a prefix |
| `ModApi.EditKeepsDistinct` | ModLoader.Core.Managed/API.cs:51-61 | any single registration or removal keeps the list duplicate-free |
| `ModApi.AllEditedKeepsDistinct` | ModLoader.Core.Managed/API.cs:51-61 | any series of edits keeps the list duplicate-free |
| `ModApi.AllEditedAppend` | ModLoader.Core.Managed/API.cs:63-73 | editing by two series in turn is editing by their concatenation |
| `ModApi.UpdateStep` | ModLoader.Core.Managed/API.cs:67-71 | running one more callback of the snapshot applies its edits, records its run and logs its exception |
| `ModApi.FirstRegistering` | ModLoader.Core.Managed/API.cs:169-173 | the first callback from a position on that registers another while it runs; none before it does |
| `ModApi.SceneReached` | ModLoader.Core.Managed/API.cs:167-174 | the callbacks reached are a prefix of the list; all of them when none registers another; and only the last reached one can register |
| `ModApi.SceneStopsAt` | ModLoader.Core.Managed/API.cs:169-173 | when the first registering callback is at position `i`, a run reaches exactly the callbacks up to and including `i` |
| `ModApi.SceneRunsAll` | ModLoader.Core.Managed/API.cs:169-173 | when no callback registers another, a run reaches all of them |
| `ModApi.ActionRuns` | ModLoader.Core.Managed/API.cs:42 | one run record per action run, naming the action, in order |
| `ModApi.Api.constructor` | ModLoader.Core.Managed/API.cs:28-48 | the static state starts with an empty queue, no callbacks, no subscription, and nothing run or logged |
| `ModApi.Api.Log` | ModLoader.Core.Managed/API.cs:14-19 | appends one entry under the given mod name; nothing else changes |
| `ModApi.Api.LogFor` | ModLoader.Core.Managed/API.cs:21-24 | logs under the name of the mod's runtime type; a `null` mod throws and logs nothing |
| `ModApi.Api.RunOnMainThread` | ModLoader.Core.Managed/API.cs:30-34 | `null` is ignored; any other action joins the tail of the queue; nothing else changes |
| `ModApi.Api.DrainMainThreadQueue` | ModLoader.Core.Managed/API.cs:37-45 | for a drain that ends: the queue ends empty; the actions run are exactly those of `Drain` of the old queue, in order; one log line for each that threw |
| `ModApi.Api.RegisterUpdate` | ModLoader.Core.Managed/API.cs:51-55 | `null` is ignored; a callback is appended unless already present; the list stays duplicate-free |
| `ModApi.Api.UnregisterUpdate` | ModLoader.Core.Managed/API.cs:57-61 | `null` is ignored; otherwise the callback's entry, if any, is removed; the list stays duplicate-free |
| `ModApi.Api.ApplyEdits` | ModLoader.Core.Managed/API.cs:51-61 | a callback's registrations and removals made through the API, in order |
| `ModApi.Api.RunUpdateCallback` | ModLoader.Core.Managed/API.cs:69-70 | one callback runs, makes its edits, and has its exception logged |
| `ModApi.Api.RunUpdateCallbacks` | ModLoader.Core.Managed/API.cs:63-73 | a snapshot of the list runs in order however the callbacks edit the list; every exception is logged and the rest still run; the list ends edited by all their edits in order |
| `ModApi.Api.OnSceneLoaded` | ModLoader.Core.Managed/API.cs:154-165 | `null` is ignored; the handler is attached only when the list was empty, so it is attached once exactly while the list is non-empty; the callback is always appended, even a repeat |
| `ModApi.Api.RegisterAll` | ModLoader.Core.Managed/API.cs:154-165 | a callback's registrations append to the list in order |
| `ModApi.Api.RunSceneCallback` | ModLoader.Core.Managed/API.cs:171-172 | one scene callback runs, makes its registrations, and has its exception logged |
| `ModApi.Api.SceneLoadedHandler` | ModLoader.Core.Managed/API.cs:167-174 | the enumerator throws exactly when some callback registers another while it runs; the callbacks reached are `SceneReached`, in order with their exceptions logged; the list gains only the registrations of the last one reached |
| `ModApi.Api.EnumerateSceneCallbacks` | ModLoader.Core.Managed/API.cs:169-173 | the enumeration stops right after the first callback that adds to the list, or reaches the end with the list unchanged |
| `ModApi.TypeNamed` | ModLoader.Core.Managed/API.cs:109 | `Assembly.GetType`: `null` exactly when no type has the full name, otherwise the first type of the assembly with that name |
| `ModApi.FirstNamed` | ModLoader.Core.Managed/API.cs:106 | `FirstOrDefault`: `null` exactly when no assembly has the name, otherwise the first assembly of that name |
| `ModApi.FirstDefining` | ModLoader.Core.Managed/API.cs:113-118 | `null` exactly when no assembly defines the name, otherwise the definition from the first assembly, in load order, that has one |
| `ModApi.FirstNamedGame` | ModLoader.Core.Managed/API.cs:106 | the game assembly found is the first one named Assembly-CSharp, and there is none exactly when no assembly has that name |
| `ModApi.TypeFromGameFacts` | ModLoader.Core.Managed/API.cs:103-119 | the search returns `null` exactly when no loaded assembly defines the name; a result always has that full name and comes from a loaded assembly |
| `ModApi.TypeFromGameFirst` | ModLoader.Core.Managed/API.cs:103-119 | a definition in the first assembly named Assembly-CSharp wins; without one, the result is the definition from the first assembly, in load order, that has one |
| `ModApi.GetTypeFromGame` | ModLoader.Core.Managed/API.cs:103-119 | the two searches return exactly `TypeFromGame` |
| `ModApi.GetPrivateField` | ModLoader.Core.Managed/API.cs:121-127 | `null` for a `null` instance or a missing field, otherwise the field's current value, which an object holds for every declared field from its creation on |
| `ModApi.SetPrivateField` | ModLoader.Core.Managed/API.cs:129-137 | false exactly for a `null` instance or a missing field, and then no field changes; otherwise only that field is set, and it reads back as the value |
| `ModApi.CallPrivateMethod` | ModLoader.Core.Managed/API.cs:139-145 | `null` for a `null` instance or no matching instance method; `AmbiguousMatchException` for two instance methods of that name with different parameter types, and only when several match; otherwise it invokes, on the instance with the arguments, an instance method of that name, the most derived of those sharing its parameter types |

## Left out

- Concurrency is not modelled. This covers the `ConcurrentQueue` and the `lock` around the update list; every operation is atomic.
- The time of day in each log line is not modelled, because it comes from the clock. Log lines are not written to `modloader.log`; a log is a sequence of entries.
- `MessageBoxA`, `File.Copy`, `File.Exists`, `Path.GetFullPath` and Cecil's reader and writer are abstract. They work on a map from full paths to file contents, or on a set of full paths.
- `Path.GetFullPath` is modelled only for a plain relative name. It is `Combine` with the working directory.
- `Launcher.Launch` requires the loader's full path to fit in a .NET string. A longer path would make `GetFullPath` throw, which the model does not capture.
- `Host.ReadAssembly` throws only for a file that is not an assembly. I/O errors, and exceptions from `asm.Write` and `File.Copy`, are not modelled.
- `TypeDefinition` is a value, and `PatchType` returns the patched value. Cecil lists property accessors among the type's methods, so in the source they are the same objects; the model keeps them separate and does not capture that aliasing.
- A base chain is finite because each base carries its resolved definition. Cecil could in principle resolve a base back to a type it came from; the model cannot express that.
- `IsGameScript`: `Name.StartsWith("<")` is culture-sensitive in .NET. It is modelled as a check of the first character.
- `InjectMarker` imports the attribute's type and constructor into the main module. The model only records the added attribute: its type name and the argument "Iron Lung". Whether `Resolve()` finds the attribute's type is a parameter of the host (`markerResolves`). `First` cannot fail once it does, because the attribute declares a one-parameter constructor (`AssemblyCSharpPatcher.cs:170`).
- `Hooking.HookSites` assumes `asm.GetTypes()` (`Hook.cs:47`) returns. It can throw `ReflectionTypeLoadException` when a type of the assembly fails to load; that ends `RegisterHooksFromAssembly` before any hook is installed, and is not modelled.
- `RuntimeHook` is not modelled as .NET code. `PrepareMethod` and the overwriting of the machine word depend on the pointer size and the runtime. They are modelled as one rewrite of the target's entry point, which then leads to the replacement's code.
- `Original` and `CallPrivateMethod` give the invocation they make; what the invoked method does is not modelled. For the same reason, `OriginalOf` takes the result and the `(TReturn)` cast as a parameter.
- `GetField`, `GetMethod` and `GetType` throw `ArgumentNullException` for a `null` name. Names are never `null` in the model, so this is not modelled.
- `ModApi.GetPrivateField` reads what the object holds. The initial value of each field, from its initialiser or the default of its type, is given when the object is created (`Reflection.Instance.constructor`); the model does not compute it.
- `SetPrivateField`: `SetValue` can throw for a value of the wrong type, which is not modelled. Fields are untyped `Value`s.
- `STARTUPINFO` and its `cb` field are not modelled, nor are the handles the launcher never closes. Their contents change nothing the program does.
- `ModApi.Api.DrainMainThreadQueue` and `ModApi.RunAllActions` require a number of turns after which the queue is empty, and `ModApi.DrainRunsAll` states its promise for such drains only. A drain whose actions keep enqueuing never returns in the source. The model does not run it; `ModApi.SelfEnqueueNeverEnds` shows that for an action that enqueues itself, no bound empties the queue.
- In `DrainMainThreadQueue`, the queue's contents are copied into a local sequence, the loop runs on that copy, and the field is emptied at the end. Actions enqueued while the drain runs are the ones the copy gains. An enqueue from another thread during the drain is covered by the concurrency gap above.
- `ModApi.Api.DrainMainThreadQueue`, `ModApi.Api.RunUpdateCallbacks` and `ModApi.Api.SceneLoadedHandler` give a callback only some of the API. An action may enqueue actions, an update callback may register and unregister update callbacks, a scene callback may register scene callbacks, and each may throw. In the source a callback can call any API member, or anything else. So "nothing else changes" in these methods' contracts holds because the model gives callbacks no other effect.
- `Reflection.GetMethod` models .NET's rule only for overloads and for methods hidden by a more derived one with the same signature. Two candidates with one signature at the same depth are reported as ambiguous. The binder's treatment of generic methods and of by-ref parameter types is not modelled.
- `SpawnPrimitive`, `SpawnPrefab`, `FindObject` and `FindByName` wrap Unity engine calls and are not modelled.
- `ModLoader.Core.Native/dllmain.cpp` and `ModLoader.Core.Managed/Class1.cs` are not part of this model. They hold the native bootstrap and the behaviour that calls into the core.

## Behaviour worth noting

- **Repeated hooks.** The registry is written through a dictionary indexer (`Hook.cs:32`). A second hook on the same target overwrites the entry, so the last registration is the one kept (`Hooking.RegisterThenGet`).
- **Injector failures.** Only the failed allocation and the missing `LoadLibraryW` throw. The results of `WriteProcessMemory` and `CreateRemoteThread` are ignored (`Injector.cs:25-49`); `Injector.IgnoredResults` states this.
- **Ambiguous hook targets.** When the target name has overloads with different parameter types, `GetMethod` throws `AmbiguousMatchException`. The exception leaves `InstallHook` and ends the whole scan (`Hook.cs:67-68`, `Hooking.ThrowEndsScan`). A method hidden by a more derived one with the same signature is not ambiguous: the most derived one is found.
- **Scene callbacks that register more.** The scene handler enumerates the live list, so a callback that registers another scene callback makes the enumerator throw before the next callback runs (`API.cs:169`, `ModApi.Api.SceneLoadedHandler`).
- **Unpaired surrogates.** `Encoding.Unicode` replaces an unpaired surrogate in the loader's path with U+FFFD, so the path written into the game can differ from the path given (`WideText.SanitizedReplacesUnpaired`).
- **Actions that keep enqueuing.** The drain loop dequeues until the queue is empty, and actions enqueued meanwhile run in the same drain (`API.cs:40-44`). An action that enqueues itself keeps the queue non-empty forever, so the drain never returns (`ModApi.SelfEnqueueNeverEnds`).
- **A marker that does not resolve.** `InjectMarker` runs after the backup and the scan, and before `asm.Write()` (`AssemblyCSharpPatcher.cs:43-58`). If it throws, the assembly on disk stays unpatched and unmarked, so every later start repeats the message, the backup and the scan, and throws again (`AssemblyPatcher.SecondRunChangesNothing`).
- **What `Original` calls.** `HookRegistry` stores the target method itself as its "original", and `Hooks.Original` invokes that method (`Hook.cs:77`, `Hooking.OriginalAfterInstall`). Once the entry point is rewritten, that invocation reaches the hook's code, not the original body. The model states this and goes no further, because what `Invoke` does after the rewrite depends on the runtime.
