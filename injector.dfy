/**
 * `Injector.Inject`: writes the path of the loader module into a suspended
 * process and starts a remote thread at `LoadLibraryW` on that path.
 */
module Injector {
  import opened WideText
  import opened Win32

  /** How `Inject` ends: normally, or with one of its two exceptions. */
  datatype InjectOutcome = Injected | VirtualAllocExFailed | LoadLibraryWNotFound

  /** The system calls an injection makes, and how it ends. */
  datatype InjectRun = InjectRun(calls: seq<OsCall>, outcome: InjectOutcome)

  /**
   * The bytes written into the target: `Encoding.Unicode.GetBytes(dllPath + "\0")`,
   * two bytes per code unit and a terminating zero unit.
   */
  function Payload(dllPath: NetString): (bytes: seq<Byte>)
    ensures |bytes| == 2 * (|dllPath| + 1)
    ensures bytes[|bytes| - 2] == 0 && bytes[|bytes| - 1] == 0
    ensures CodeUnits(bytes) == Sanitized(dllPath) + [0]
    ensures WellFormed(dllPath) ==> CodeUnits(bytes) == dllPath + [0]
  {
    var s := dllPath + [0];
    var bytes := UnicodeBytes(s);
    TerminatedSanitized(dllPath);
    LastBytesOfTerminated(s, bytes);
    bytes
  }

  lemma {:induction false} TerminatedSanitized(s: seq<CodeUnit>)
    ensures Sanitized(s + [0]) == Sanitized(s) + [0]
    decreases |s|
  {
    if s == [] {
    } else if 2 <= |s| && IsHighSurrogate(s[0]) && IsLowSurrogate(s[1]) {
      assert (s + [0])[2..] == s[2..] + [0];
      TerminatedSanitized(s[2..]);
    } else {
      assert (s + [0])[1..] == s[1..] + [0];
      TerminatedSanitized(s[1..]);
    }
  }

  lemma LastBytesOfTerminated(s: seq<CodeUnit>, bytes: seq<Byte>)
    requires |s| >= 1 && s[|s| - 1] == 0
    requires bytes == UnicodeBytes(s)
    requires Sanitized(s) == Sanitized(s[..|s| - 1]) + [0]
    ensures bytes[|bytes| - 2] == 0 && bytes[|bytes| - 1] == 0
  {
    var u := Sanitized(s);
    LittleEndianSplit(u[..|u| - 1], [0]);
    assert u == u[..|u| - 1] + [0];
  }

  lemma {:induction false} LittleEndianSplit(a: seq<CodeUnit>, b: seq<CodeUnit>)
    ensures LittleEndianBytes(a + b) == LittleEndianBytes(a) + LittleEndianBytes(b)
  {
    if a == [] {
      assert a + b == b;
    } else {
      assert (a + b)[0] == a[0] && (a + b)[1..] == a[1..] + b;
      LittleEndianSplit(a[1..], b);
      calc {
        LittleEndianBytes(a + b);
        [a[0] % 0x100, a[0] / 0x100] + LittleEndianBytes(a[1..] + b);
        [a[0] % 0x100, a[0] / 0x100] + (LittleEndianBytes(a[1..]) + LittleEndianBytes(b));
        ([a[0] % 0x100, a[0] / 0x100] + LittleEndianBytes(a[1..])) + LittleEndianBytes(b);
      }
    }
  }

  const Kernel32Name: seq<CodeUnit> := Ascii("kernel32.dll")
  const LoadLibraryWName: seq<CodeUnit> := Ascii("LoadLibraryW")

  /**
   * What `Inject(pi, dllPath)` does against a system that answers `answers`:
   * allocate, write (result ignored), look up `LoadLibraryW`, start the remote
   * thread (result ignored). A zero allocation or a zero `LoadLibraryW` throws.
   */
  function InjectSpec(answers: OsAnswers, pi: ProcessInformation, dllPath: NetString): InjectRun
  {
    var payload := Payload(dllPath);
    var size := ToUInt32(|payload|);
    assert size == |payload|;
    var alloc := VirtualAllocEx(pi.hProcess, 0, size, MemCommit | MemReserve, PageReadWrite);
    var write := WriteProcessMemory(pi.hProcess, answers.remoteMemory, payload, size);
    var lookup := [GetModuleHandle(Kernel32Name), GetProcAddress(answers.kernel32, LoadLibraryWName)];
    var thread := CreateRemoteThread(pi.hProcess, 0, 0, answers.loadLibraryW, answers.remoteMemory, 0);
    if answers.remoteMemory == 0 then
      InjectRun([alloc], VirtualAllocExFailed)
    else if answers.loadLibraryW == 0 then
      InjectRun([alloc, write] + lookup, LoadLibraryWNotFound)
    else
      InjectRun([alloc, write] + lookup + [thread], Injected)
  }

  /** What `Inject` does, case by case. */
  lemma InjectRunFacts(answers: OsAnswers, pi: ProcessInformation, dllPath: NetString)
    ensures var r := InjectSpec(answers, pi, dllPath);
      // the region is sized exactly to the payload, committed and read-write
      && 1 <= |r.calls|
      && r.calls[0] == VirtualAllocEx(pi.hProcess, 0, |Payload(dllPath)|, MemCommit | MemReserve, PageReadWrite)
      // a failed allocation throws before anything else is called
      && (r.outcome == VirtualAllocExFailed <==> answers.remoteMemory == 0)
      && (answers.remoteMemory == 0 ==> |r.calls| == 1)
      // the whole payload goes to offset zero of the region
      && (answers.remoteMemory != 0 ==>
            4 <= |r.calls| && r.calls[1] == WriteProcessMemory(pi.hProcess, answers.remoteMemory, Payload(dllPath), |Payload(dllPath)|))
      // a missing LoadLibraryW throws before any remote thread
      && (r.outcome == LoadLibraryWNotFound <==> answers.remoteMemory != 0 && answers.loadLibraryW == 0)
      && (r.outcome == LoadLibraryWNotFound ==>
            r.calls == [r.calls[0], r.calls[1], GetModuleHandle(Kernel32Name), GetProcAddress(answers.kernel32, LoadLibraryWName)])
      // the thread starts at LoadLibraryW with the region base as its argument, and is the last call
      && (answers.remoteMemory != 0 && answers.loadLibraryW != 0 ==>
            && r.outcome == Injected && |r.calls| == 5
            && r.calls[4] == CreateRemoteThread(pi.hProcess, 0, 0, answers.loadLibraryW, answers.remoteMemory, 0))
  {
  }

  /** Neither the write's result nor the remote thread's handle changes what `Inject` does. */
  lemma IgnoredResults(answers: OsAnswers, pi: ProcessInformation, dllPath: NetString, writeSucceeds: bool, remoteThread: Address)
    ensures InjectSpec(answers.(writeSucceeds := writeSucceeds, remoteThread := remoteThread), pi, dllPath)
         == InjectSpec(answers, pi, dllPath)
  {
  }

  /** `Injector.Inject(pi, dllPath)`. */
  method Inject(os: Kernel, pi: ProcessInformation, dllPath: NetString) returns (outcome: InjectOutcome)
    modifies os
    ensures os.calls == old(os.calls) + InjectSpec(os.answers, pi, dllPath).calls
    ensures outcome == InjectSpec(os.answers, pi, dllPath).outcome
    ensures os.stdout == old(os.stdout)
  {
    var dllBytes := Payload(dllPath);
    var remoteMem := os.CallVirtualAllocEx(pi.hProcess, 0, ToUInt32(|dllBytes|), MemCommit | MemReserve, PageReadWrite);
    if remoteMem == 0 {
      return VirtualAllocExFailed;
    }
    var _ := os.CallWriteProcessMemory(pi.hProcess, remoteMem, dllBytes, ToUInt32(|dllBytes|));
    var kernel32 := os.CallGetModuleHandle(Kernel32Name);
    var loadLibrary := os.CallGetProcAddress(kernel32, LoadLibraryWName);
    if loadLibrary == 0 {
      return LoadLibraryWNotFound;
    }
    var _ := os.CallCreateRemoteThread(pi.hProcess, loadLibrary, remoteMem);
    outcome := Injected;
  }
}
