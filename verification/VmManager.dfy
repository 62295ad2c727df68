/** The VM manager as it changes files and processes step by step (src/vm.rs): `See`,
    `CleanupRuntime`, `LaunchVm` and `EndProcesses` are single steps of a command, and the
    commands put them together. */
module VmManager {
  import opened Wrappers
  import opened Text
  import opened VmDefinition
  import opened VmLifecycle
  import opened VmOneLive
  import opened VmOutcomes
  import opened VmInterleaving

  class Manager {
    const st: Store
    var files: map<string, Content>
    var procs: map<int, Process>

    constructor (st: Store)
      ensures this.st == st && View() == NOTHING
    {
      this.st := st;
      files, procs := map[], map[];
    }

    ghost function View(): Host
      reads this
    {
      Host(files, procs)
    }

    /** The socket, then the pid file; the removal after `done` of them fails. */
    method CleanupRuntime(name: string, done: nat) returns (ok: bool)
      modifies this`files
      ensures View() == Cleanup(old(View()), st, name, done) && ok == (done >= 2)
    {
      for i := 0 to 2
        invariant i <= done && View() == Cleanup(old(View()), st, name, i)
      {
        if i == done {
          return false;
        }
        var path := PathOf(st, if i == 0 then QmpSocket else PidFile, name);
        if path in files {
          files := files - {path};
        }
      }
      return true;
    }

    /** `read_pid`: no file, a number in 32 bits, or text that is none. */
    method ReadPidFile(name: string) returns (r: PidRead)
      ensures r == ReadPid(View(), st, name)
    {
      var path := PathOf(st, PidFile, name);
      if path !in files {
        return NoPid;
      }
      var content := files[path];
      if content.Pid? {
        var pid := ParseI32(Trim(content.text));
        if pid.Some? {
          return GotPid(pid.value);
        }
      }
      return BadPid;
    }

    /** The first step of `state`: it looks and changes nothing. */
    method See(name: string, o: Outside) returns (r: Observation)
      ensures r == Observe(View(), st, name, o)
    {
      if !Loads(Host(files, procs), st, name, o.valid) {
        return Unreadable;
      }
      var pid := ReadPidFile(name);
      if pid.BadPid? {
        return Unreadable;
      }
      if pid.NoPid? {
        return Known(Shutoff);
      }
      if !Alive(Host(files, procs), pid.pid) {
        return Stale;
      }
      if PathOf(st, QmpSocket, name) !in files {
        return Known(Starting);
      }
      return Known(StateFrom(o.report));
    }

    /** `state`, when nothing comes between its steps. */
    method State(name: string, o: Outside) returns (r: Option<VmState>)
      modifies this`files
      ensures (r, View()) == StateOf(old(View()), st, name, o)
    {
      var seen := See(name, o);
      match seen
      case Unreadable => return None;
      case Known(state) => return Some(state);
      case Stale =>
        var _ := CleanupRuntime(name, o.swept);
        return Some(Shutoff);
    }

    /** The check of a start, when nothing comes between its steps: it may go on exactly when
        the state can be read, is not active, and the plan lets it. */
    method CheckStart(name: string, o: Outside) returns (ready: bool)
      modifies this`files
      ensures View() == StateOf(old(View()), st, name, o).1 && ready == Proceeds(old(View()), st, name, o)
      ensures forall pcs: map<nat, Pc>, cid: nat :: cid !in pcs ==>
                Query(VmInterleaving.State(old(View()), pcs), st, cid, name, o, true)
                == VmInterleaving.State(View(), pcs[cid := if ready then Checked(name) else Finished])
    {
      var state := State(name, o);
      ready := state.Some? && !Active(state.value) && o.allowed;
      forall pcs: map<nat, Pc>, cid: nat | cid !in pcs
        ensures Query(VmInterleaving.State(old(View()), pcs), st, cid, name, o, true)
             == VmInterleaving.State(View(), pcs[cid := if ready then Checked(name) else Finished])
      {
        QueryInSteps(VmInterleaving.State(old(View()), pcs), st, cid, name, o, true);
      }
    }

    /** The last step of a start: QEMU runs and has written its pid file. */
    method LaunchVm(name: string, pid: nat)
      modifies this
      ensures View() == Launch(old(View()), st, name, pid)
    {
      procs := procs[pid := Process(name, true)];
      files := files[PathOf(st, PidFile, name) := Pid(PidText(pid))];
    }

    /** `start`, when nothing comes between its steps. */
    method StartVm(name: string, o: Outside) returns (launched: bool)
      modifies this
      ensures View() == Start(old(View()), st, name, o)
      ensures launched <==> StartLaunches(old(View()), st, name, o)
    {
      LaunchesExactly(View(), st, name, o);
      var ready := CheckStart(name, o);
      if !ready {
        return false;
      }
      var cleaned := CleanupRuntime(name, o.cleaned);
      if !cleaned || o.launched.None? {
        return false;
      }
      LaunchVm(name, o.launched.value);
      return true;
    }

    /** Signals reach some processes, which end. */
    method Signal(pids: set<int>)
      modifies this`procs
      ensures View() == Terminate(old(View()), pids)
    {
      procs := map p | p in procs :: if p in pids then procs[p].(alive := false) else procs[p];
    }

    /** What a destroy does with the pid it has read: `quit` over the socket; SIGTERM when that fails; SIGKILL
        for a process that is still there. */
    method EndProcesses(name: string, pid: PidRead, o: Outside)
      requires !pid.BadPid?
      modifies this`procs
      ensures View() == Terminate(old(View()), Aimed(old(View()), st, name, pid, o))
    {
      var quit := Quits(Host(files, procs), st, name, o);
      var ended := if quit.Some? then {quit.value} else {};
      if quit.None? && pid.GotPid? {
        ended := ended + Reached(Host(files, procs), pid.pid, o);
      }
      if pid.GotPid? && pid.pid > 0 {
        ended := ended + {pid.pid};
      }
      Signal(ended);
    }

    method DestroyVm(name: string, o: Outside) returns (ok: bool)
      modifies this
      ensures View() == Destroy(old(View()), st, name, o)
      ensures ok <==> Destroys(old(View()), st, name, o)
    {
      if !ValidName(name) {
        return false;
      }
      var pid := ReadPidFile(name);
      if pid.BadPid? {
        return false;
      }
      EndProcesses(name, pid, o);
      ok := CleanupRuntime(name, o.cleaned);
    }

    /** `save`: the temporary file, then the rename; `valid` says whether the rest of the
        definition passes validation. */
    method SaveDefinition(d: Definition, valid: bool) returns (ok: bool)
      modifies this`files
      ensures ok <==> ValidName(d.name) && valid
      ensures View() == if ok then Define(old(View()), st, d) else old(View())
    {
      if !ValidName(d.name) || !valid {
        return false;
      }
      var path, temp := PathOf(st, DefinitionFile, d.name), PathOf(st, TempFile, d.name);
      files := files[temp := Stored(d)];
      files := (files - {temp})[path := files[temp]];
      assert old(files)[temp := Stored(d)] - {temp} == old(files) - {temp};
      return true;
    }

    method DeleteDefinition(name: string, o: Outside) returns (ok: bool)
      modifies this`files
      ensures View() == Delete(old(View()), st, name, o)
      ensures ok <==> PathOf(st, DefinitionFile, name) in old(files) ==> o.deletes
      ensures files == if ok then old(files) - {PathOf(st, DefinitionFile, name)} else old(files)
    {
      var path := PathOf(st, DefinitionFile, name);
      if path in files {
        if !o.deletes {
          return false;
        }
        files := files - {path};
      }
      return true;
    }

    method UndefineVm(name: string, force: bool, o: Outside) returns (ok: bool)
      modifies this
      ensures View() == Undefine(old(View()), st, name, force, o)
      ensures ok <==> UndefineRemoves(old(View()), st, name, force, o)
      ensures ok ==> forall later :: StateOf(View(), st, name, later).0.None?
      ensures !ok ==> SameAt(old(View()), View(), PathOf(st, DefinitionFile, name))
    {
      ActiveSeen(View(), st, name, o);
      if ValidName(name) {
        UndefineExactly(View(), st, name, force, o);
      }
      var state := State(name, o);
      if !ValidName(name) {
        return false;
      }
      CleanupKeeps(old(View()), st, name, o.swept, DefinitionFile, name);
      if state.Some? && Active(state.value) {
        if !force {
          return false;
        }
        ok := DestroyVm(name, o);
        if !ok {
          return;
        }
        CleanupKeeps(Terminate(old(View()), Victims(old(View()), st, name, o)), st, name, o.cleaned, DefinitionFile, name);
      }
      ok := DeleteDefinition(name, o);
    }
  }
}
