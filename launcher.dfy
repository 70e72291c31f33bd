/**
 * `Program.Main`: start the game suspended, inject the native loader, resume it.
 */
module Launcher {
  import opened WideText
  import opened Win32
  import opened Injector

  /** The game executable, looked up relative to the working directory. */
  const GameExe: seq<CodeUnit> := Ascii("Iron Lung.exe")
  /** The native loader module that is injected. */
  const CoreDllName: seq<CodeUnit> := Ascii("ModLoader.Core.Native.dll")
  /** The command line passed to the game: its Unity log goes to log.txt. */
  const CommandLine: seq<CodeUnit> := Ascii(" -logFile log.txt")

  const GameMissingMessage := "Iron Lung.exe not found"
  const CoreDllMissingMessage := "Core native DLL not found"
  const StartFailedMessage := "Failed to start game"
  const SuccessMessage := "Injected successfully"

  /** How the launcher ends; `InjectThrew` is an exception that leaves `Main`. */
  datatype LaunchOutcome = GameMissing | CoreDllMissing | StartFailed | InjectThrew(reason: InjectOutcome) | Launched

  datatype LaunchRun = LaunchRun(calls: seq<OsCall>, stdout: seq<string>, outcome: LaunchOutcome)

  /**
   * What `Main` does on a system that answers `answers`, with working
   * directory `cwd` and the files `files` present.
   */
  function LaunchSpec(answers: OsAnswers, cwd: seq<CodeUnit>, files: set<seq<CodeUnit>>): LaunchRun
    requires |Combine(cwd, CoreDllName)| <= MaxStringLength
  {
    var gameExePath := Combine(cwd, GameExe);
    var coreDll := Combine(cwd, CoreDllName);
    if gameExePath !in files then
      LaunchRun([], [GameMissingMessage], GameMissing)
    else if coreDll !in files then
      LaunchRun([], [CoreDllMissingMessage], CoreDllMissing)
    else
      var create := CreateProcessW(GameExe, CommandLine, false, CreateSuspended);
      match answers.createProcess
      case None => LaunchRun([create], [StartFailedMessage], StartFailed)
      case Some(pi) =>
        var inject := InjectSpec(answers, pi, coreDll);
        if inject.outcome == Injected then
          LaunchRun([create] + inject.calls + [ResumeThread(pi.hThread)], [SuccessMessage], Launched)
        else
          LaunchRun([create] + inject.calls, [], InjectThrew(inject.outcome))
  }

  /** What `Main` does, case by case. */
  lemma LaunchRunFacts(answers: OsAnswers, cwd: seq<CodeUnit>, files: set<seq<CodeUnit>>)
    requires |Combine(cwd, CoreDllName)| <= MaxStringLength
    ensures var r := LaunchSpec(answers, cwd, files);
      // a missing game: one message, no system call at all
      && (Combine(cwd, GameExe) !in files ==> r == LaunchRun([], [GameMissingMessage], GameMissing))
      // a missing loader: one message, no process
      && (Combine(cwd, GameExe) in files && Combine(cwd, CoreDllName) !in files ==>
            r == LaunchRun([], [CoreDllMissingMessage], CoreDllMissing))
      // otherwise the first call creates the game process, suspended, with the log-file argument
      && (r.outcome !in {GameMissing, CoreDllMissing} ==>
            1 <= |r.calls| && r.calls[0] == CreateProcessW(GameExe, CommandLine, false, CreateSuspended))
      // a failed start: nothing is injected or resumed
      && (r.outcome == StartFailed <==> r.outcome !in {GameMissing, CoreDllMissing} && answers.createProcess.None?)
      && (r.outcome == StartFailed ==> |r.calls| == 1 && r.stdout == [StartFailedMessage])
      // the loader's full path is injected into the new process, and the primary thread is
      // resumed after it only if it did not throw
      && (answers.createProcess.Some? && r.outcome !in {GameMissing, CoreDllMissing} ==>
            var inject := InjectSpec(answers, answers.createProcess.value, Combine(cwd, CoreDllName));
            if inject.outcome == Injected
            then r.outcome == Launched && r.stdout == [SuccessMessage]
              && r.calls == [r.calls[0]] + inject.calls + [ResumeThread(answers.createProcess.value.hThread)]
            else r.outcome == InjectThrew(inject.outcome) && r.calls == [r.calls[0]] + inject.calls && r.stdout == [])
  {
  }

  /** A launch ends in `Launched` exactly when the process started and both injection steps succeeded. */
  lemma LaunchedIff(answers: OsAnswers, cwd: seq<CodeUnit>, files: set<seq<CodeUnit>>)
    requires |Combine(cwd, CoreDllName)| <= MaxStringLength
    ensures LaunchSpec(answers, cwd, files).outcome == Launched <==>
      && Combine(cwd, GameExe) in files && Combine(cwd, CoreDllName) in files
      && answers.createProcess.Some? && answers.remoteMemory != 0 && answers.loadLibraryW != 0
  {
  }

  /** `Program.Main`, with the system it runs on as a parameter. */
  method Launch(os: Kernel) returns (outcome: LaunchOutcome)
    requires |os.FullPath(CoreDllName)| <= MaxStringLength
    modifies os
    ensures var r := LaunchSpec(os.answers, os.currentDirectory, os.existingFiles);
      os.calls == old(os.calls) + r.calls && os.stdout == old(os.stdout) + r.stdout && outcome == r.outcome
  {
    var coreDll: NetString := os.FullPath(CoreDllName);
    if !os.FileExists(os.FullPath(GameExe)) {
      os.WriteLine(GameMissingMessage);
      return GameMissing;
    }
    if !os.FileExists(coreDll) {
      os.WriteLine(CoreDllMissingMessage);
      return CoreDllMissing;
    }
    outcome := StartAndInject(os, coreDll);
  }

  /** The rest of `Main`, once both files are known to exist. */
  method StartAndInject(os: Kernel, coreDll: NetString) returns (outcome: LaunchOutcome)
    requires coreDll == os.FullPath(CoreDllName) && |coreDll| <= MaxStringLength
    requires os.FileExists(os.FullPath(GameExe)) && os.FileExists(coreDll)
    modifies os
    ensures var r := LaunchSpec(os.answers, os.currentDirectory, os.existingFiles);
      os.calls == old(os.calls) + r.calls && os.stdout == old(os.stdout) + r.stdout && outcome == r.outcome
  {
    var started, pi := os.CallCreateProcessW(GameExe, CommandLine, CreateSuspended);
    if !started {
      os.WriteLine(StartFailedMessage);
      return StartFailed;
    }
    outcome := InjectAndResume(os, pi, coreDll);
  }

  /** The end of `Main`, once the game process exists: inject, then resume its primary thread. */
  method InjectAndResume(os: Kernel, pi: ProcessInformation, coreDll: NetString) returns (outcome: LaunchOutcome)
    modifies os
    ensures var inject := InjectSpec(os.answers, pi, coreDll);
      && os.calls == old(os.calls) + inject.calls + (if inject.outcome == Injected then [ResumeThread(pi.hThread)] else [])
      && os.stdout == old(os.stdout) + (if inject.outcome == Injected then [SuccessMessage] else [])
      && outcome == (if inject.outcome == Injected then Launched else InjectThrew(inject.outcome))
  {
    var injected := Inject(os, pi, coreDll);
    if injected != Injected {
      return InjectThrew(injected);
    }
    var _ := os.CallResumeThread(pi.hThread);
    os.WriteLine(SuccessMessage);
    outcome := Launched;
  }
}
