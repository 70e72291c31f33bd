/**
 * The part of the Windows API the launcher and the injector call, as an
 * abstract operating system: each call is recorded in `calls` and answered
 * from `answers`, which stand for whatever the real system would return.
 */
module Win32 {
  import opened Optional
  import opened WideText

  /** `CREATE_SUSPENDED`: the primary thread does not run until `ResumeThread`. */
  const CreateSuspended: bv32 := 0x0000_0004
  /** `MEM_COMMIT`. */
  const MemCommit: bv32 := 0x1000
  /** `MEM_RESERVE`. */
  const MemReserve: bv32 := 0x2000
  /** `PAGE_READWRITE`. */
  const PageReadWrite: bv32 := 0x04

  /** An `IntPtr`: an address or a handle; zero is the null pointer. */
  type Address = nat

  /** A `uint` argument: the C# cast `(uint)n` keeps the low 32 bits. */
  function ToUInt32(n: nat): (r: nat)
    ensures r < 0x1_0000_0000
    ensures n < 0x1_0000_0000 ==> r == n
  {
    n % 0x1_0000_0000
  }

  /** `PROCESS_INFORMATION`. */
  datatype ProcessInformation = ProcessInformation(hProcess: Address, hThread: Address, processId: nat, threadId: nat)

  /** One call into the system, with the arguments that matter to the model. */
  datatype OsCall =
    | CreateProcessW(applicationName: seq<CodeUnit>, commandLine: seq<CodeUnit>, inheritHandles: bool, creationFlags: bv32)
    | VirtualAllocEx(process: Address, address: Address, size: nat, allocationType: bv32, protect: bv32)
    | WriteProcessMemory(process: Address, baseAddress: Address, buffer: seq<Byte>, size: nat)
    | GetModuleHandle(moduleName: seq<CodeUnit>)
    | GetProcAddress(moduleHandle: Address, procName: seq<CodeUnit>)
    | CreateRemoteThread(process: Address, threadAttributes: Address, stackSize: nat, startAddress: Address, parameter: Address, creationFlags: bv32)
    | ResumeThread(thread: Address)

  /** What the system answers to each call; `None` is a failed `CreateProcessW`. */
  datatype OsAnswers = OsAnswers(
    createProcess: Option<ProcessInformation>,
    remoteMemory: Address,
    writeSucceeds: bool,
    kernel32: Address,
    loadLibraryW: Address,
    remoteThread: Address,
    suspendCount: nat)

  class Kernel {
    const answers: OsAnswers
    /** The working directory that relative paths are resolved against. */
    const currentDirectory: seq<CodeUnit>
    /** Full paths of the files that exist. */
    const existingFiles: set<seq<CodeUnit>>
    /** Every system call made so far, in order. */
    var calls: seq<OsCall>
    /** Lines written with `Console.WriteLine`. */
    var stdout: seq<string>

    constructor (answers: OsAnswers, currentDirectory: seq<CodeUnit>, existingFiles: set<seq<CodeUnit>>)
      ensures this.answers == answers && this.currentDirectory == currentDirectory
      ensures this.existingFiles == existingFiles
      ensures calls == [] && stdout == []
    {
      this.answers := answers;
      this.currentDirectory := currentDirectory;
      this.existingFiles := existingFiles;
      calls := [];
      stdout := [];
    }

    /** `Path.GetFullPath(name)` for a plain relative file name. */
    function FullPath(name: seq<CodeUnit>): seq<CodeUnit>
    {
      Combine(currentDirectory, name)
    }

    /** `File.Exists(path)` for a full path. */
    predicate FileExists(path: seq<CodeUnit>)
    {
      path in existingFiles
    }

    method WriteLine(line: string)
      modifies this
      ensures stdout == old(stdout) + [line] && calls == old(calls)
    {
      stdout := stdout + [line];
    }

    method CallCreateProcessW(applicationName: seq<CodeUnit>, commandLine: seq<CodeUnit>, creationFlags: bv32)
      returns (ok: bool, pi: ProcessInformation)
      modifies this
      ensures calls == old(calls) + [CreateProcessW(applicationName, commandLine, false, creationFlags)]
      ensures stdout == old(stdout)
      ensures ok == answers.createProcess.Some?
      ensures ok ==> pi == answers.createProcess.value
    {
      calls := calls + [CreateProcessW(applicationName, commandLine, false, creationFlags)];
      ok := answers.createProcess.Some?;
      pi := answers.createProcess.GetOr(ProcessInformation(0, 0, 0, 0));
    }

    method CallVirtualAllocEx(process: Address, address: Address, size: nat, allocationType: bv32, protect: bv32)
      returns (base: Address)
      modifies this
      ensures calls == old(calls) + [VirtualAllocEx(process, address, size, allocationType, protect)]
      ensures stdout == old(stdout) && base == answers.remoteMemory
    {
      calls := calls + [VirtualAllocEx(process, address, size, allocationType, protect)];
      base := answers.remoteMemory;
    }

    method CallWriteProcessMemory(process: Address, baseAddress: Address, buffer: seq<Byte>, size: nat)
      returns (ok: bool)
      modifies this
      ensures calls == old(calls) + [WriteProcessMemory(process, baseAddress, buffer, size)]
      ensures stdout == old(stdout) && ok == answers.writeSucceeds
    {
      calls := calls + [WriteProcessMemory(process, baseAddress, buffer, size)];
      ok := answers.writeSucceeds;
    }

    method CallGetModuleHandle(moduleName: seq<CodeUnit>) returns (moduleHandle: Address)
      modifies this
      ensures calls == old(calls) + [GetModuleHandle(moduleName)]
      ensures stdout == old(stdout) && moduleHandle == answers.kernel32
    {
      calls := calls + [GetModuleHandle(moduleName)];
      moduleHandle := answers.kernel32;
    }

    method CallGetProcAddress(moduleHandle: Address, procName: seq<CodeUnit>) returns (proc: Address)
      modifies this
      ensures calls == old(calls) + [GetProcAddress(moduleHandle, procName)]
      ensures stdout == old(stdout) && proc == answers.loadLibraryW
    {
      calls := calls + [GetProcAddress(moduleHandle, procName)];
      proc := answers.loadLibraryW;
    }

    method CallCreateRemoteThread(process: Address, startAddress: Address, parameter: Address)
      returns (thread: Address)
      modifies this
      ensures calls == old(calls) + [CreateRemoteThread(process, 0, 0, startAddress, parameter, 0)]
      ensures stdout == old(stdout) && thread == answers.remoteThread
    {
      calls := calls + [CreateRemoteThread(process, 0, 0, startAddress, parameter, 0)];
      thread := answers.remoteThread;
    }

    method CallResumeThread(thread: Address) returns (previousCount: nat)
      modifies this
      ensures calls == old(calls) + [ResumeThread(thread)]
      ensures stdout == old(stdout) && previousCount == answers.suspendCount
    {
      calls := calls + [ResumeThread(thread)];
      previousCount := answers.suspendCount;
    }
  }
}
