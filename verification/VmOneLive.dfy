/** At most one live QEMU process per VM. */
module VmOneLive {
  import opened VmDefinition
  import opened VmLifecycle

  ghost predicate OneLive(h: Host) {
    forall p, q :: Alive(h, p) && Alive(h, q) && h.procs[p].vm == h.procs[q].vm ==> p == q
  }

  /** Every live process is the one its VM's pid file names. */
  ghost predicate Tracked(h: Host, st: Store) {
    forall p :: Alive(h, p) ==>
      ValidName(h.procs[p].vm) && ReadPid(h, st, h.procs[p].vm) == GotPid(p)
  }

  lemma TrackedIsOneLive(h: Host, st: Store)
    requires Tracked(h, st)
    ensures OneLive(h)
  {
  }

  ghost predicate HasLive(h: Host, name: string) {
    exists p :: Alive(h, p) && h.procs[p].vm == name
  }

  /** QMP gives no sign of an instance that runs or is paused: it is silent, or it reports that
      nothing runs with any text but these two. */
  ghost predicate NoSign(r: Report) {
    r.Silent? || (!r.running && r.status != "running" && r.status != "paused")
  }

  /** A start gets past its state check although an instance is running: its
      socket exists, and QMP gives no sign of it. */
  ghost predicate Missed(h: Host, st: Store, name: string, o: Outside) {
    HasLive(h, name) && PathOf(st, QmpSocket, name) in h.files && NoSign(o.report)
  }

  /** The definition's file holds a definition that validates. */
  ghost predicate Readable(h: Host, st: Store, name: string, o: Outside) {
    var path := PathOf(st, DefinitionFile, name);
    ValidName(name) && path in h.files && h.files[path].Stored? && o.valid
  }

  /** The process the VM's pid file names is alive. */
  ghost predicate PidAlive(h: Host, st: Store, name: string) {
    exists p :: ReadPid(h, st, name) == GotPid(p) && Alive(h, p)
  }

  /** Exactly which state is answered, on the files, the processes and the report's own fields:
      none without a readable definition and pid file; starting for a live process without a
      socket; what QMP reports for one with a socket; shut off without a live process. */
  lemma StateExactly(h: Host, st: Store, name: string, o: Outside)
    ensures var state, live, socket := StateOf(h, st, name, o).0, PidAlive(h, st, name), PathOf(st, QmpSocket, name) in h.files;
            var asked := live && socket && o.report.Status?;
            && (state.None? <==> !Readable(h, st, name, o) || ReadPid(h, st, name).BadPid?)
            && (state.Some? ==>
                  && (state.value.Starting? <==> live && !socket)
                  && (state.value.Running? <==> asked && (o.report.running || o.report.status == "running"))
                  && (state.value.Paused? <==> asked && !o.report.running && o.report.status == "paused")
                  && (state.value.Shutoff? <==> !live || (asked && !o.report.running && o.report.status == "shutdown"))
                  && (state.value.Unknown? <==>
                        live && socket && NoSign(o.report) && (o.report.Silent? || o.report.status != "shutdown")))
  {
    if ReadPid(h, st, name).GotPid? && Alive(h, ReadPid(h, st, name).pid) {
      assert PidAlive(h, st, name);
    }
  }

  /** Exactly what a state query does to the host: the socket and the pid file of a process that
      is gone are swept away, as far as that works; nothing else changes. */
  lemma StateSweepsExactly(h: Host, st: Store, name: string, o: Outside)
    ensures var h', stale := StateOf(h, st, name, o).1,
                             Readable(h, st, name, o) && ReadPid(h, st, name).GotPid? && !PidAlive(h, st, name);
            && h'.procs == h.procs
            && (forall path :: path in h'.files ==> path in h.files && h'.files[path] == h.files[path])
            && (forall path :: path in h.files ==>
                  (path !in h'.files <==>
                     && stale
                     && (|| (o.swept >= 1 && path == PathOf(st, QmpSocket, name))
                         || (o.swept >= 2 && path == PathOf(st, PidFile, name)))))
  {
    if ReadPid(h, st, name).GotPid? && Alive(h, ReadPid(h, st, name).pid) {
      assert PidAlive(h, st, name);
    }
  }

  lemma ActiveExactly(r: Report)
    ensures Active(StateFrom(r)) <==> !NoSign(r)
  {
  }

  lemma CleanupKeeps(h: Host, st: Store, name: string, done: nat, k: Kind, other: string)
    requires ValidName(name) && ValidName(other) && (name != other || k.DefinitionFile? || k.TempFile?)
    ensures var path, h' := PathOf(st, k, other), Cleanup(h, st, name, done);
            (path in h'.files <==> path in h.files) && (path in h.files ==> h'.files[path] == h.files[path])
  {
    if PathOf(st, k, other) == PathOf(st, QmpSocket, name) { PathsNeverCoincide(st, k, other, QmpSocket, name); }
    if PathOf(st, k, other) == PathOf(st, PidFile, name) { PathsNeverCoincide(st, k, other, PidFile, name); }
  }

  /** Processes only die, and the pid files of those still alive keep their content. */
  ghost predicate OnlyFewerLive(h: Host, h': Host, st: Store) {
    forall p :: Alive(h', p) ==>
      Alive(h, p) && h'.procs[p].vm == h.procs[p].vm && ReadPid(h', st, h.procs[p].vm) == ReadPid(h, st, h.procs[p].vm)
  }

  lemma FewerLiveTracked(h: Host, h': Host, st: Store)
    requires Tracked(h, st) && OnlyFewerLive(h, h', st)
    ensures Tracked(h', st)
  {
  }

  /** Cleaning up after a VM without live processes, however far, disturbs no other VM. */
  lemma CleanupTracked(h: Host, st: Store, name: string, done: nat)
    requires Tracked(h, st) && ValidName(name) && !HasLive(h, name)
    ensures Tracked(Cleanup(h, st, name, done), st)
  {
    forall p | Alive(h, p)
      ensures ReadPid(Cleanup(h, st, name, done), st, h.procs[p].vm) == ReadPid(h, st, h.procs[p].vm)
    {
      CleanupKeeps(h, st, name, done, PidFile, h.procs[p].vm);
    }
    FewerLiveTracked(h, Cleanup(h, st, name, done), st);
  }

  lemma TerminateTracked(h: Host, st: Store, pids: set<int>)
    requires Tracked(h, st)
    ensures Tracked(Terminate(h, pids), st)
    ensures forall p :: Alive(Terminate(h, pids), p) <==> Alive(h, p) && p !in pids
  {
    FewerLiveTracked(h, Terminate(h, pids), st);
  }

  lemma StateTracked(h: Host, st: Store, name: string, o: Outside)
    requires Tracked(h, st)
    ensures var (state, h') := StateOf(h, st, name, o);
            && Tracked(h', st) && h'.procs == h.procs
            && (state.Some? && HasLive(h, name) ==>
                  (Active(state.value) <==> PathOf(st, QmpSocket, name) in h.files ==> !NoSign(o.report)))
  {
    ActiveExactly(o.report);
    if Loads(h, st, name, o.valid) && ReadPid(h, st, name).GotPid? && !Alive(h, ReadPid(h, st, name).pid) {
      assert !HasLive(h, name);
      CleanupTracked(h, st, name, o.swept);
    }
  }

  lemma LaunchTracked(h: Host, st: Store, name: string, pid: nat)
    requires Tracked(h, st) && ValidName(name) && FreshPid(h, pid) && !HasLive(h, name)
    ensures Tracked(Launch(h, st, name, pid), st)
  {
    PidReadsBack(pid);
    forall p | Alive(h, p)
      ensures ReadPid(Launch(h, st, name, pid), st, h.procs[p].vm) == ReadPid(h, st, h.procs[p].vm)
    {
      if PathOf(st, PidFile, h.procs[p].vm) == PathOf(st, PidFile, name) {
        PathsNeverCoincide(st, PidFile, h.procs[p].vm, PidFile, name);
      }
    }
  }

  /** A check that misses nothing lets a start pass only when no instance is running. */
  lemma PassedIsNotLive(h: Host, st: Store, name: string, o: Outside)
    requires Tracked(h, st) && !Missed(h, st, name, o) && Proceeds(h, st, name, o)
    ensures ValidName(name) && !HasLive(h, name)
  {
    StateTracked(h, st, name, o);
  }

  lemma StartTracked(h: Host, st: Store, name: string, o: Outside)
    requires Tracked(h, st) && !Missed(h, st, name, o) && (o.launched.Some? ==> FreshPid(h, o.launched.value))
    ensures Tracked(Start(h, st, name, o), st)
  {
    var h1 := StateOf(h, st, name, o).1;
    StateTracked(h, st, name, o);
    if Proceeds(h, st, name, o) {
      PassedIsNotLive(h, st, name, o);
      assert !HasLive(h1, name);
      var h2 := Cleanup(h1, st, name, o.cleaned);
      CleanupTracked(h1, st, name, o.cleaned);
      assert !HasLive(h2, name);
      if o.cleaned >= 2 && o.launched.Some? {
        LaunchTracked(h2, st, name, o.launched.value);
      }
    }
  }

  lemma VictimsDie(h: Host, st: Store, name: string, o: Outside)
    requires Tracked(h, st) && ValidName(name) && !ReadPid(h, st, name).BadPid?
    ensures var h' := Terminate(h, Victims(h, st, name, o)); Tracked(h', st) && !HasLive(h', name)
  {
    TerminateTracked(h, st, Victims(h, st, name, o));
  }

  lemma DestroyTracked(h: Host, st: Store, name: string, o: Outside)
    requires Tracked(h, st)
    ensures Tracked(Destroy(h, st, name, o), st)
  {
    if ValidName(name) && !ReadPid(h, st, name).BadPid? {
      VictimsDie(h, st, name, o);
      CleanupTracked(Terminate(h, Victims(h, st, name, o)), st, name, o.cleaned);
    }
  }

  lemma OtherFileTracked(h: Host, h': Host, st: Store, k: Kind, name: string)
    requires Tracked(h, st) && ValidName(name) && k != PidFile && h'.procs == h.procs
    requires forall path :: path != PathOf(st, k, name) ==>
               (path in h'.files <==> path in h.files) && (path in h.files ==> h'.files[path] == h.files[path])
    ensures Tracked(h', st)
  {
    forall p | Alive(h, p)
      ensures ReadPid(h', st, h.procs[p].vm) == ReadPid(h, st, h.procs[p].vm)
    {
      if PathOf(st, PidFile, h.procs[p].vm) == PathOf(st, k, name) {
        PathsNeverCoincide(st, PidFile, h.procs[p].vm, k, name);
      }
    }
  }

  lemma DeleteTracked(h: Host, st: Store, name: string, o: Outside)
    requires Tracked(h, st) && ValidName(name)
    ensures Tracked(Delete(h, st, name, o), st)
  {
    OtherFileTracked(h, Delete(h, st, name, o), st, DefinitionFile, name);
  }

  lemma UndefineTracked(h: Host, st: Store, name: string, force: bool, o: Outside)
    requires Tracked(h, st)
    ensures Tracked(Undefine(h, st, name, force, o), st)
  {
    var h1 := StateOf(h, st, name, o).1;
    StateTracked(h, st, name, o);
    if ValidName(name) {
      DestroyTracked(h1, st, name, o);
      DeleteTracked(h1, st, name, o);
      DeleteTracked(Destroy(h1, st, name, o), st, name, o);
    }
  }

  lemma DefineTracked(h: Host, st: Store, d: Definition)
    requires Tracked(h, st)
    ensures Tracked(Define(h, st, d), st)
  {
    if ValidName(d.name) {
      var h1 := h.(files := h.files - {PathOf(st, TempFile, d.name)});
      OtherFileTracked(h, h1, st, TempFile, d.name);
      OtherFileTracked(h1, Define(h, st, d), st, DefinitionFile, d.name);
    }
  }

  lemma ExitTracked(h: Host, st: Store, pid: int, removes: nat)
    requires Tracked(h, st) && Alive(h, pid)
    ensures Tracked(Step(h, st, Exits(pid, removes)), st)
  {
    var h1 := Terminate(h, {pid});
    TerminateTracked(h, st, {pid});
    assert !HasLive(h1, h.procs[pid].vm);
    CleanupTracked(h1, st, h.procs[pid].vm, removes);
  }

  /** Pids are new when a start launches QEMU, and no start misses a live instance. */
  ghost predicate Sound(h: Host, st: Store, op: Op) {
    NewPids(h, op) && (op.StartOp? ==> !Missed(h, st, op.name, op.o))
  }

  lemma StepTracked(h: Host, st: Store, op: Op)
    requires Tracked(h, st) && Sound(h, st, op)
    ensures Tracked(Step(h, st, op), st)
  {
    match op
    case DefineOp(d) => DefineTracked(h, st, d);
    case StateOp(name, o) => StateTracked(h, st, name, o);
    case StartOp(name, o) => StartTracked(h, st, name, o);
    case DestroyOp(name, o) => DestroyTracked(h, st, name, o);
    case UndefineOp(name, force, o) => UndefineTracked(h, st, name, force, o);
    case Exits(pid, removes) => if Alive(h, pid) { ExitTracked(h, st, pid, removes); }
    case Listens(pid) =>
      if Alive(h, pid) {
        OtherFileTracked(h, Step(h, st, op), st, QmpSocket, h.procs[pid].vm);
      }
  }

  function Run(h: Host, st: Store, ops: seq<Op>): Host {
    if ops == [] then h else Step(Run(h, st, ops[..|ops| - 1]), st, ops[|ops| - 1])
  }

  /** In every serial run in which no start misses a live instance there is at
      most one live QEMU per VM name, at every point. */
  lemma {:induction false} AtMostOneLive(st: Store, ops: seq<Op>)
    requires forall k :: 0 <= k < |ops| ==> Sound(Run(NOTHING, st, ops[..k]), st, ops[k])
    ensures Tracked(Run(NOTHING, st, ops), st) && OneLive(Run(NOTHING, st, ops))
  {
    if ops != [] {
      var init := ops[..|ops| - 1];
      forall k | 0 <= k < |init| ensures Sound(Run(NOTHING, st, init[..k]), st, init[k]) {
        assert init[..k] == ops[..k];
      }
      AtMostOneLive(st, init);
      StepTracked(Run(NOTHING, st, init), st, ops[|ops| - 1]);
    }
    TrackedIsOneLive(Run(NOTHING, st, ops), st);
  }

  /** The launch of a start that passed its check goes ahead. */
  ghost predicate Launches(h: Host, st: Store, name: string, o: Outside) {
    Loads(h, st, name, o.valid) && o.allowed && o.cleaned >= 2 && o.launched.Some?
  }

  /** Exactly when a start that nothing else interrupts leaves two live instances: it launches
      QEMU while one is running whose socket exists and whose report is neither running nor paused. */
  lemma StartDoublesExactly(h: Host, st: Store, name: string, o: Outside)
    requires Tracked(h, st) && (o.launched.Some? ==> FreshPid(h, o.launched.value))
    ensures !OneLive(Start(h, st, name, o)) <==> Missed(h, st, name, o) && Launches(h, st, name, o)
  {
    if Missed(h, st, name, o) {
      var p :| Alive(h, p) && h.procs[p].vm == name;
      StateTracked(h, st, name, o);
      if Launches(h, st, name, o) {
        var h' := Start(h, st, name, o);
        assert Alive(h', p) && Alive(h', o.launched.value) && h'.procs[p].vm == h'.procs[o.launched.value].vm;
      } else {
        NoLaunchNoDouble(h, st, name, o);
      }
    } else {
      StartTracked(h, st, name, o);
      TrackedIsOneLive(Start(h, st, name, o), st);
    }
  }

  lemma NoLaunchNoDouble(h: Host, st: Store, name: string, o: Outside)
    requires Tracked(h, st) && !Launches(h, st, name, o)
    ensures OneLive(Start(h, st, name, o))
  {
    assert Start(h, st, name, o).procs == h.procs;
  }
}
