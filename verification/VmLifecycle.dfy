/** The VM store and manager (src/vm.rs) over a host's files and processes. */
module VmLifecycle {
  import opened Wrappers
  import opened VmDefinition
  import opened Paths
  import opened Text

  // ---- The store's files ----------------------------------------------------

  datatype Kind = DefinitionFile | TempFile | QmpSocket | PidFile

  function Suffix(k: Kind): string {
    match k
    case DefinitionFile => ".json"
    case TempFile => ".json.tmp"
    case QmpSocket => ".qmp"
    case PidFile => ".pid"
  }

  /** Where definitions and runtime files live; the two may be the same directory. */
  datatype Store = Store(definitionsDir: string, runtimeDir: string)

  function FileName(k: Kind, name: string): string {
    name + Suffix(k)
  }

  function PathOf(st: Store, k: Kind, name: string): string {
    (if k.DefinitionFile? || k.TempFile? then st.definitionsDir else st.runtimeDir) + "/" + FileName(k, name)
  }

  /** The temporary file of `save` is the definition's path with another extension. */
  lemma TempIsWithExtension(name: string)
    requires ValidName(name)
    ensures WithExtension(FileName(DefinitionFile, name), "json.tmp") == FileName(TempFile, name)
  {
    assert name + ".json" == name + "." + "json";
    StemOf(name, "json");
    assert name + "." + "json.tmp" == name + ".json.tmp";
  }

  lemma SuffixTails(k: Kind, name: string)
    ensures var f := FileName(k, name);
            |f| >= 4 && f[|f| - 3..] == match k { case DefinitionFile => "son" case TempFile => "tmp" case QmpSocket => "qmp" case PidFile => "pid" }
  {
  }

  lemma NamesHaveNoSlash(k: Kind, name: string)
    requires ValidName(name)
    ensures '/' !in FileName(k, name)
  {
  }

  /** Files of different VMs, or of different kinds, are never the same file. */
  lemma PathsNeverCoincide(st: Store, k: Kind, name: string, k': Kind, name': string)
    requires ValidName(name) && ValidName(name')
    requires PathOf(st, k, name) == PathOf(st, k', name')
    ensures k == k' && name == name'
  {
    var dir := if k.DefinitionFile? || k.TempFile? then st.definitionsDir else st.runtimeDir;
    var dir' := if k'.DefinitionFile? || k'.TempFile? then st.definitionsDir else st.runtimeDir;
    NamesHaveNoSlash(k, name);
    NamesHaveNoSlash(k', name');
    LastComponentOf(dir, FileName(k, name));
    LastComponentOf(dir', FileName(k', name'));
    assert FileName(k, name) == FileName(k', name');
    SuffixTails(k, name);
    SuffixTails(k', name');
    assert k == k';
    assert name == FileName(k, name)[..|name|] == FileName(k', name')[..|name'|] == name';
  }

  // ---- The host ---------------------------------------------------------------

  /** A file of the store; a pid file holds text, and a socket has a process behind it. */
  datatype Content = Stored(def: Definition) | Pid(text: string) | Listening(owner: int)

  /** A QEMU process and the VM it was started for; dead ones are remembered, so pids are never reused. */
  datatype Process = Process(vm: string, alive: bool)

  datatype Host = Host(files: map<string, Content>, procs: map<int, Process>)

  const NOTHING := Host(map[], map[])

  predicate Alive(h: Host, pid: int) {
    pid > 0 && pid in h.procs && h.procs[pid].alive
  }

  /** Some processes end. */
  function Terminate(h: Host, pids: set<int>): Host {
    h.(procs := map p | p in h.procs :: if p in pids then h.procs[p].(alive := false) else h.procs[p])
  }

  /** `cleanup_runtime`, up to the file it fails on: the socket, then the pid file. */
  function Cleanup(h: Host, st: Store, name: string, done: nat): Host {
    h.(files := h.files - (if done == 0 then {} else if done == 1 then {PathOf(st, QmpSocket, name)}
                           else {PathOf(st, QmpSocket, name), PathOf(st, PidFile, name)}))
  }

  /** What a status query on the socket yields, if it is answered. */
  datatype Report = Silent | Status(running: bool, status: string)

  datatype VmState = Running | Paused | Shutoff | Starting | Unknown

  function StateFrom(r: Report): VmState {
    match r
    case Silent => Unknown
    case Status(running, status) =>
      if status == "running" || running then Running
      else if status == "paused" then Paused
      else if status == "shutdown" then Shutoff
      else Unknown
  }

  predicate Active(s: VmState) {
    s.Running? || s.Paused? || s.Starting?
  }

  /** The definition is there and passes validation. */
  predicate Loads(h: Host, st: Store, name: string, valid: bool) {
    ValidName(name) && PathOf(st, DefinitionFile, name) in h.files && h.files[PathOf(st, DefinitionFile, name)].Stored? && valid
  }

  datatype PidRead = NoPid | BadPid | GotPid(pid: int)

  function ReadPid(h: Host, st: Store, name: string): PidRead {
    var path := PathOf(st, PidFile, name);
    if path !in h.files then NoPid
    else
      match h.files[path]
      case Pid(text) => (match ParseI32(Trim(text)) { case Some(pid) => GotPid(pid) case None => BadPid })
      case _ => BadPid
  }

  /** What QEMU writes into its pid file. */
  function PidText(pid: nat): string {
    Decimal(pid) + "\n"
  }

  lemma PidReadsBack(pid: nat)
    requires pid <= I32_MAX
    ensures ParseI32(Trim(PidText(pid))) == Some(pid)
  {
    TrimsLine(Decimal(pid));
    ParsesDecimal(pid);
  }

  /** What the outside decides while an operation runs: whether the stored definition
      validates, what QMP reports, whether the plan lets the start go on, the pid QEMU gets if
      it starts, whether it answers `quit`, the processes behind a pid that names a group, how
      many files the cleanup of a stale VM and the operation's own cleanup remove, and whether
      the definition can be deleted. */
  datatype Outside = Outside(
    valid: bool, report: Report, allowed: bool, launched: Option<nat>, quits: bool, group: set<int>,
    swept: nat, cleaned: nat, deletes: bool)

  /** What `state` sees before it changes anything: no answer, the pid file of a process that
      is gone, or the VM's state. */
  datatype Observation = Unreadable | Stale | Known(state: VmState)

  function Observe(h: Host, st: Store, name: string, o: Outside): Observation {
    if !Loads(h, st, name, o.valid) then Unreadable
    else
      match ReadPid(h, st, name)
      case BadPid => Unreadable
      case NoPid => Known(Shutoff)
      case GotPid(pid) =>
        if !Alive(h, pid) then Stale
        else if PathOf(st, QmpSocket, name) !in h.files then Known(Starting)
        else Known(StateFrom(o.report))
  }

  /** `state`: it looks, and sweeps up after a process that is gone. The answer and the host
      afterwards. */
  function StateOf(h: Host, st: Store, name: string, o: Outside): (Option<VmState>, Host) {
    match Observe(h, st, name, o)
    case Unreadable => (None, h)
    case Stale => (Some(Shutoff), Cleanup(h, st, name, o.swept))
    case Known(state) => (Some(state), h)
  }

  /** A start gets past its own check. */
  predicate Proceeds(h: Host, st: Store, name: string, o: Outside) {
    var state := StateOf(h, st, name, o).0;
    state.Some? && !Active(state.value) && o.allowed
  }

  /** A live QEMU holds a lock on the pid file that names it; another one refuses to start on it. */
  predicate Locked(h: Host, st: Store, name: string) {
    var pid := ReadPid(h, st, name);
    pid.GotPid? && Alive(h, pid.pid)
  }

  function Launch(h: Host, st: Store, name: string, pid: nat): Host {
    Host(h.files[PathOf(st, PidFile, name) := Pid(PidText(pid))], h.procs[pid := Process(name, true)])
  }

  /** `start`: the check, the cleanup, the launch. */
  function Start(h: Host, st: Store, name: string, o: Outside): Host {
    var h1 := StateOf(h, st, name, o).1;
    if !Proceeds(h, st, name, o) then h1
    else
      var h2 := Cleanup(h1, st, name, o.cleaned);
      if o.cleaned >= 2 && o.launched.Some? then Launch(h2, st, name, o.launched.value) else h2
  }

  /** The process behind the VM's socket, when `quit` reaches it. */
  function Quits(h: Host, st: Store, name: string, o: Outside): Option<int> {
    var path := PathOf(st, QmpSocket, name);
    if Loads(h, st, name, o.valid) && path in h.files && h.files[path].Listening? && Alive(h, h.files[path].owner) && o.quits
    then Some(h.files[path].owner) else None
  }

  /** Whom signalling a pid reaches: the process itself, everything for -1, else a group. */
  function Reached(h: Host, pid: int, o: Outside): set<int> {
    if pid > 0 then {pid} else if pid == -1 then h.procs.Keys else o.group
  }

  /** The processes a destroy ends that has read this pid: by `quit`, by SIGTERM when that
      fails, or by SIGKILL at last. */
  function Aimed(h: Host, st: Store, name: string, pid: PidRead, o: Outside): set<int> {
    var quit := Quits(h, st, name, o);
    (if quit.Some? then {quit.value} else {})
    + (if pid.GotPid? && (pid.pid > 0 || quit.None?) then Reached(h, pid.pid, o) else {})
  }

  function Victims(h: Host, st: Store, name: string, o: Outside): set<int> {
    Aimed(h, st, name, ReadPid(h, st, name), o)
  }

  /** `destroy`: end the processes, then clean up; a broken pid file stops it at once. */
  function Destroy(h: Host, st: Store, name: string, o: Outside): Host {
    if !ValidName(name) || ReadPid(h, st, name).BadPid? then h
    else Cleanup(Terminate(h, Victims(h, st, name, o)), st, name, o.cleaned)
  }

  predicate Destroys(h: Host, st: Store, name: string, o: Outside) {
    ValidName(name) && !ReadPid(h, st, name).BadPid? && o.cleaned >= 2
  }

  function Delete(h: Host, st: Store, name: string, o: Outside): Host {
    if o.deletes then h.(files := h.files - {PathOf(st, DefinitionFile, name)}) else h
  }

  /** `undefine`: a state that cannot be read counts as shut off. */
  function Undefine(h: Host, st: Store, name: string, force: bool, o: Outside): Host {
    var (state, h1) := StateOf(h, st, name, o);
    if !ValidName(name) then h1
    else if state.Some? && Active(state.value) then
      if !force then h1
      else if !Destroys(h1, st, name, o) then Destroy(h1, st, name, o)
      else Delete(Destroy(h1, st, name, o), st, name, o)
    else Delete(h1, st, name, o)
  }

  /** `save`, once the definition passes validation: the temporary file is renamed into place. */
  function Define(h: Host, st: Store, d: Definition): Host {
    if !ValidName(d.name) then h
    else h.(files := (h.files - {PathOf(st, TempFile, d.name)})[PathOf(st, DefinitionFile, d.name) := Stored(d)])
  }

  datatype Op =
    | DefineOp(d: Definition)
    | StateOp(name: string, o: Outside)
    | StartOp(name: string, o: Outside)
    | DestroyOp(name: string, o: Outside)
    | UndefineOp(name: string, force: bool, o: Outside)
    | Exits(pid: int, removes: nat)   // a QEMU process ends on its own, perhaps removing its files
    | Listens(pid: int)               // a QEMU process creates its socket

  function Step(h: Host, st: Store, op: Op): Host {
    match op
    case DefineOp(d) => Define(h, st, d)
    case StateOp(name, o) => StateOf(h, st, name, o).1
    case StartOp(name, o) => Start(h, st, name, o)
    case DestroyOp(name, o) => Destroy(h, st, name, o)
    case UndefineOp(name, force, o) => Undefine(h, st, name, force, o)
    case Exits(pid, removes) =>
      if Alive(h, pid) then Cleanup(Terminate(h, {pid}), st, h.procs[pid].vm, removes) else h
    case Listens(pid) =>
      if Alive(h, pid) then h.(files := h.files[PathOf(st, QmpSocket, h.procs[pid].vm) := Listening(pid)]) else h
  }

  ghost predicate FreshPid(h: Host, pid: int) {
    0 < pid <= I32_MAX && pid !in h.procs
  }

  /** Pids are new when a start launches QEMU. */
  ghost predicate NewPids(h: Host, op: Op) {
    op.StartOp? && op.o.launched.Some? ==> FreshPid(h, op.o.launched.value)
  }
}
