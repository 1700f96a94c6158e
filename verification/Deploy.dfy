// internal/engine/threeproxy/deploy.go: atomic install, reload, verification and rollback.
// Every file-system call that can fail takes its outcome from a World value; every disk state a
// crash could leave behind is recorded.
module Deploy {

  import opened Wrappers
  import opened Text
  import opened Engine
  import opened Config

  datatype File = ConfigFile | PrevFile

  // The live config, its backup, and the temporary file of a write in progress; None where absent.
  datatype Disk = Disk(config: Option<string>, prev: Option<string>, temp: Option<string>)

  function Replace(d: Disk, path: File, data: string): Disk {
    match path
    case ConfigFile => d.(config := Some(data))
    case PrevFile => d.(prev := Some(data))
  }

  // The first step of one writeAtomic call that fails; a failing write may leave part of the data.
  datatype WriteFault = NoFault | CreateFails | ChmodFails | WriteFails(written: nat) | SyncFails | CloseFails | RenameFails

  datatype Poll = Poll(cancelled: bool, alive: bool)

  // The polls of verifyAfterReload up to and including the one past the deadline.
  type Polls = ps: seq<Poll> | |ps| > 0 witness [Poll(false, true)]

  datatype World = World(
    readable: bool, mkdirOk: bool,
    backup: WriteFault, install: WriteFault, restore: WriteFault, removeOk: bool,
    pidFile: Option<string>, aliveAtStart: bool, isEngine: bool, signalOk: bool,
    polls: Polls)

  datatype DeployError = RenderFailed(cause: RenderError) | ReadFailed | MkdirFailed | BackupFailed | InstallFailed
                       | SignalFailed | Unhealthy | UnhealthyAndRestoreFailed

  datatype DeployResult = DeployResult(changed: bool, reloaded: bool, rolledBack: bool, checksum: string)

  const NOTHING := DeployResult(false, false, false, "")

  // What the deployer did to the live config and to the engine process, in order.
  datatype Event = Installed | Alive(pid: int, up: bool) | Identified(pid: int, ok: bool) | Signalled(pid: int) | Undone

  // ---- the pid file ----

  // The pid the file names, if it can be one: readable, numeric and at least 2.
  function NamedPid(pidFile: Option<string>): Option<int> {
    if pidFile.None? then None else
      match ParseInt64(TrimSpace(pidFile.value))
      case None => None
      case Some(pid) => if pid < 2 then None else Some(pid)
  }

  // The engine writes its pid as a decimal line; every process but init can be named that way.
  lemma PidReadsBack(pid: nat)
    requires IsInt64(pid)
    ensures NamedPid(Some(FormatInt(pid) + "\n")) == if pid >= 2 then Some(pid) else None
  {
    hide FormatNat, ParseInt64;
    var digits := FormatInt(pid);
    ParseFormatInt(pid);
    var line := digits + "\n";
    assert !IsSpace(line[0]) && TrimLeft(line) == line;
    assert line[..|line| - 1] == digits && !IsSpace(digits[|digits| - 1]);
    assert TrimRight(digits) == digits;
  }

  predicate Healthy(polls: seq<Poll>) {
    forall i | 0 <= i < |polls| :: !polls[i].cancelled && polls[i].alive
  }

  // ---- outcome of one Deploy ----

  datatype Outcome = Outcome(result: DeployResult, error: Option<DeployError>, config: Option<string>)

  // The engine takes part when the pid file names a live process that is the engine.
  predicate EngineRunning(w: World) {
    NamedPid(w.pidFile).Some? && w.aliveAtStart && w.isEngine
  }

  function InstallFailure(before: Option<string>, w: World): Option<DeployError> {
    if !w.mkdirOk then Some(MkdirFailed)
    else if before.Some? && w.backup != NoFault then Some(BackupFailed)
    else if w.install != NoFault then Some(InstallFailed)
    else None
  }

  // From the installed text on.
  function Applied(before: Option<string>, text: string, sum: string, w: World): Outcome {
    var changed := DeployResult(true, false, false, sum);
    var undone := DeployResult(true, false, true, sum);
    if !EngineRunning(w) then Outcome(changed, None, Some(text))
    else if !w.signalOk then Outcome(changed, Some(SignalFailed), Some(text))
    else if Healthy(w.polls) then Outcome(changed.(reloaded := true), None, Some(text))
    else if (if before.Some? then w.restore == NoFault else w.removeOk) then Outcome(undone, Some(Unhealthy), before)
    else Outcome(undone, Some(UnhealthyAndRestoreFailed), Some(text))
  }

  function Deployed(before: Option<string>, text: string, sum: string, w: World): Outcome {
    if before.Some? && !w.readable then Outcome(NOTHING, Some(ReadFailed), before)
    else if before == Some(text) then Outcome(DeployResult(false, false, false, sum), None, before)
    else if InstallFailure(before, w).Some? then Outcome(NOTHING, InstallFailure(before, w), before)
    else Applied(before, text, sum, w)
  }

  // The disk without the temporary file: what the engine and the next deploy can see.
  function Visible(d: Disk): Disk {
    d.(temp := None)
  }

  // Crash safety of one deploy that found the config before and was installing text: the live config
  // is wholly old or wholly new, and wherever it is new the old one is still on disk as the backup.
  predicate CrashSafe(d: Disk, before: Option<string>, text: string) {
    && (d.config == before || d.config == Some(text))
    && (d.config != before && before.Some? ==> d.prev == before)
  }

  predicate NoSignal(log: seq<Event>) {
    forall k | 0 <= k < |log| :: !log[k].Signalled?
  }

  lemma SignalStays(e: Event, log: seq<Event>)
    ensures NoSignal([e] + log) ==> NoSignal(log)
  {
    assert forall k | 0 <= k < |log| :: log[k] == ([e] + log)[k + 1];
  }

  // A signal follows exactly one install and both checks of the same pid, and nothing else; so
  // there is at most one.
  predicate SignalDiscipline(log: seq<Event>) {
    forall k | 0 <= k < |log| && log[k].Signalled? ::
      log[..k] == [Installed, Alive(log[k].pid, true), Identified(log[k].pid, true)]
  }

  lemma DisciplineHolds(pid: int, rest: seq<Event>)
    requires NoSignal(rest)
    ensures SignalDiscipline([Installed, Alive(pid, true), Identified(pid, true), Signalled(pid)] + rest)
  {
    var log := [Installed, Alive(pid, true), Identified(pid, true), Signalled(pid)] + rest;
    assert forall k | 4 <= k < |log| :: log[k] == rest[k - 4];
  }

  class Deployer {
    const settings: Settings
    const build: string
    const sha256: string -> string
    var disk: Disk
    ghost var crashes: seq<Disk>
    ghost var events: seq<Event>

    constructor (settings: Settings, build: string, sha256: string -> string, disk: Disk)
      ensures this.settings == settings && this.build == build && this.sha256 == sha256
      ensures this.disk == disk && crashes == [disk] && events == []
    {
      this.settings, this.build, this.sha256, this.disk := settings, build, sha256, disk;
      crashes, events := [disk], [];
    }

    // writeAtomic: temp file, chmod, write, sync, close, rename; the temp file is always removed.
    method WriteAtomic(path: File, data: string, fault: WriteFault) returns (ok: bool)
      modifies this`disk, this`crashes
      ensures ok <==> fault == NoFault
      ensures disk == Visible(if ok then Replace(old(disk), path, data) else old(disk))
      ensures old(crashes) <= crashes
      ensures forall k | |old(crashes)| <= k < |crashes| ::
                Visible(crashes[k]) == Visible(old(disk)) || Visible(crashes[k]) == Visible(Replace(old(disk), path, data))
    {
      disk := disk.(temp := None);
      if fault == CreateFails {
        return false;
      }
      disk := disk.(temp := Some(""));
      crashes := crashes + [disk];
      if fault != ChmodFails {
        disk := disk.(temp := Some(if fault.WriteFails? && fault.written <= |data| then data[..fault.written] else data));
        crashes := crashes + [disk];
      }
      ok := fault == NoFault;
      if ok {
        disk := Visible(Replace(disk, path, data));
        crashes := crashes + [disk];
      }
      disk := disk.(temp := None);
      crashes := crashes + [disk];
    }

    // enginePID.
    method EnginePid(w: World) returns (pid: Option<int>)
      modifies this`events
      ensures pid == if w.aliveAtStart then NamedPid(w.pidFile) else None
      ensures events == old(events) +
                (if NamedPid(w.pidFile).Some? then [Alive(NamedPid(w.pidFile).value, w.aliveAtStart)] else [])
    {
      pid := NamedPid(w.pidFile);
      if pid.Some? {
        events := events + [Alive(pid.value, w.aliveAtStart)];
        if !w.aliveAtStart {
          pid := None;
        }
      }
    }

    // reload: None when the pid is not the engine, otherwise whether the signal was delivered.
    method Reload(pid: int, w: World) returns (sent: Option<bool>)
      modifies this`events
      ensures sent == if w.isEngine then Some(w.signalOk) else None
      ensures events == old(events) + [Identified(pid, w.isEngine)] + (if w.isEngine then [Signalled(pid)] else [])
    {
      events := events + [Identified(pid, w.isEngine)];
      if !w.isEngine {
        return None;
      }
      events := events + [Signalled(pid)];
      return Some(w.signalOk);
    }

    // verifyAfterReload: poll until the deadline has passed.
    method VerifyAfterReload(pid: int, polls: Polls) returns (healthy: bool, ghost log: seq<Event>)
      modifies this`events
      ensures healthy <==> Healthy(polls)
      ensures events == old(events) + log && NoSignal(log)
    {
      log := [];
      for i := 0 to |polls|
        invariant Healthy(polls[..i])
        invariant events == old(events) + log && NoSignal(log)
      {
        if polls[i].cancelled {
          return false, log;
        }
        events, log := events + [Alive(pid, polls[i].alive)], log + [Alive(pid, polls[i].alive)];
        if !polls[i].alive {
          return false, log;
        }
      }
      return true, log;
    }

    // The first half of Deploy: directory, backup, install.
    method Install(text: string, w: World) returns (failure: Option<DeployError>)
      modifies this`disk, this`crashes
      ensures failure == InstallFailure(old(disk).config, w)
      ensures disk.config == if failure.None? then Some(text) else old(disk).config
      ensures failure.None? && old(disk).config.Some? ==> disk.prev == old(disk).config
      ensures old(crashes) <= crashes
      ensures forall k | |old(crashes)| <= k < |crashes| :: CrashSafe(crashes[k], old(disk).config, text)
    {
      if !w.mkdirOk {
        return Some(MkdirFailed);
      }
      if disk.config.Some? {
        var saved := WriteAtomic(PrevFile, disk.config.value, w.backup);
        if !saved {
          return Some(BackupFailed);
        }
      }
      label saved:
      var installed := WriteAtomic(ConfigFile, text, w.install);
      forall k | |old@saved(crashes)| <= k < |crashes| ensures CrashSafe(crashes[k], old(disk).config, text) {
        assert crashes[k].config == Visible(crashes[k]).config && crashes[k].prev == Visible(crashes[k]).prev;
      }
      return if installed then None else Some(InstallFailed);
    }

    // The second half: find the engine, signal it, verify it, roll back.
    method Apply(previous: Option<string>, text: string, sum: string, w: World)
      returns (result: DeployResult, error: Option<DeployError>, ghost log: seq<Event>)
      requires disk.config == Some(text) && (previous.Some? ==> disk.prev == previous)
      modifies this`disk, this`crashes, this`events
      ensures Outcome(result, error, disk.config) == Applied(previous, text, sum, w)
      ensures old(crashes) <= crashes
      ensures forall k | |old(crashes)| <= k < |crashes| ::
                CrashSafe(crashes[k], previous, text)
      ensures events == old(events) + log && SignalDiscipline([Installed] + log)
      ensures result.reloaded || result.rolledBack ==> !NoSignal(log)
    {
      hide NamedPid;
      log := [];
      var pid := EnginePid(w);
      if NamedPid(w.pidFile).Some? {
        log := [Alive(NamedPid(w.pidFile).value, w.aliveAtStart)];
      }
      if pid.None? {
        return DeployResult(true, false, false, sum), None, log;
      }
      var sent := Reload(pid.value, w);
      log := [Alive(pid.value, true), Identified(pid.value, w.isEngine)];
      if sent.None? {
        return DeployResult(true, false, false, sum), None, log;
      }
      ghost var head := [Alive(pid.value, true), Identified(pid.value, true), Signalled(pid.value)];
      log := head;
      DisciplineHolds(pid.value, []);
      assert [Installed] + log == [Installed, Alive(pid.value, true), Identified(pid.value, true), Signalled(pid.value)] + [];
      assert log[2].Signalled?;
      if !sent.value {
        return DeployResult(true, false, false, sum), Some(SignalFailed), log;
      }
      var healthy, polled := VerifyAfterReload(pid.value, w.polls);
      log := head + polled;
      if healthy {
        DisciplineHolds(pid.value, polled);
        assert [Installed] + log == [Installed, Alive(pid.value, true), Identified(pid.value, true), Signalled(pid.value)] + polled;
        assert log[2].Signalled?;
        return DeployResult(true, true, false, sum), None, log;
      }
      var restored := RollBack(previous, w);
      events := events + [Undone];
      log := head + (polled + [Undone]);
      DisciplineHolds(pid.value, polled + [Undone]);
      assert [Installed] + log == [Installed, Alive(pid.value, true), Identified(pid.value, true), Signalled(pid.value)] + (polled + [Undone]);
      assert log[2].Signalled?;
      return DeployResult(true, false, true, sum), Some(if restored then Unhealthy else UnhealthyAndRestoreFailed), log;
    }

    // Deploy once the text is rendered. The log says what was done to the config and the process.
    method DeployText(text: string, sum: string, w: World)
      returns (result: DeployResult, error: Option<DeployError>, ghost log: seq<Event>)
      modifies this`disk, this`crashes, this`events
      ensures Outcome(result, error, disk.config) == Deployed(old(disk).config, text, sum, w)
      ensures old(crashes) <= crashes
      ensures forall k | |old(crashes)| <= k < |crashes| :: CrashSafe(crashes[k], old(disk).config, text)
      ensures events == old(events) + log && SignalDiscipline(log)
      ensures result.reloaded || result.rolledBack ==> !NoSignal(log)
    {
      hide Applied, CrashSafe;
      log := [];
      var current := disk.config;
      if current.Some? && !w.readable {
        return NOTHING, Some(ReadFailed), log;
      }
      if current == Some(text) {
        return DeployResult(false, false, false, sum), None, log;
      }
      var failure := Install(text, w);
      if failure.Some? {
        return NOTHING, failure, log;
      }
      events := events + [Installed];
      ghost var applied;
      result, error, applied := Apply(current, text, sum, w);
      log := [Installed] + applied;
      SignalStays(Installed, applied);
    }

    method Deploy(s: State, w: World) returns (result: DeployResult, error: Option<DeployError>, ghost log: seq<Event>)
      modifies this`disk, this`crashes, this`events
      ensures match Rendered(s, settings, build)
        case Err(cause) =>
          result == NOTHING && error == Some(RenderFailed(cause)) && disk == old(disk) && crashes == old(crashes) && log == []
        case Ok(text) =>
          && Outcome(result, error, disk.config) == Deployed(old(disk).config, text, sha256(text), w)
          && old(crashes) <= crashes
          && forall k | |old(crashes)| <= k < |crashes| :: CrashSafe(crashes[k], old(disk).config, text)
      ensures events == old(events) + log && SignalDiscipline(log)
      ensures result.reloaded || result.rolledBack ==> !NoSignal(log)
    {
      hide Rendered, Deployed, CrashSafe;
      var rendered := Render(s, settings, build);
      if rendered.Err? {
        return NOTHING, Some(RenderFailed(rendered.error)), [];
      }
      result, error, log := DeployText(rendered.value, sha256(rendered.value), w);
    }

    // Put the previous bytes back, or remove a config that had no predecessor.
    method RollBack(previous: Option<string>, w: World) returns (restored: bool)
      modifies this`disk, this`crashes
      ensures restored <==> if previous.Some? then w.restore == NoFault else w.removeOk
      ensures disk.config == if restored then previous else old(disk).config
      ensures disk.prev == old(disk).prev
      ensures old(crashes) <= crashes
      ensures forall k | |old(crashes)| <= k < |crashes| ::
                && crashes[k].config in {old(disk).config, previous}
                && crashes[k].prev == old(disk).prev
    {
      if previous.Some? {
        restored := WriteAtomic(ConfigFile, previous.value, w.restore);
      } else {
        restored := w.removeOk;
        if restored {
          disk := disk.(config := None);
          crashes := crashes + [disk];
        }
      }
    }
  }
}
