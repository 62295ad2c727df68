/** Operations on one VM leave the others alone. */
module VmFrame {
  import opened Wrappers
  import opened VmDefinition
  import opened VmLifecycle
  import Text
  import VmOneLive

  /** A VM's pid file and socket name processes started for that VM. */
  ghost predicate Owned(h: Host, st: Store) {
    forall name :: ValidName(name) ==> OwnedBy(h, st, name)
  }

  ghost predicate OwnedBy(h: Host, st: Store, name: string) {
    var socket := PathOf(st, QmpSocket, name);
    && (ReadPid(h, st, name).GotPid? ==>
          ReadPid(h, st, name).pid > 0 && ReadPid(h, st, name).pid in h.procs && h.procs[ReadPid(h, st, name).pid].vm == name)
    && (socket in h.files && h.files[socket].Listening? ==>
          h.files[socket].owner in h.procs && h.procs[h.files[socket].owner].vm == name)
  }

  /** The VM an operation is about. */
  ghost function Subject(h: Host, op: Op): Option<string> {
    match op
    case DefineOp(d) => Some(d.name)
    case StateOp(name, _) => Some(name)
    case StartOp(name, _) => Some(name)
    case DestroyOp(name, _) => Some(name)
    case UndefineOp(name, _, _) => Some(name)
    case Exits(pid, _) => if Alive(h, pid) then Some(h.procs[pid].vm) else None
    case Listens(pid) => if Alive(h, pid) then Some(h.procs[pid].vm) else None
  }

  ghost predicate SameFor(h: Host, h': Host, st: Store, other: string) {
    && (forall k :: var path := PathOf(st, k, other);
          (path in h'.files <==> path in h.files) && (path in h.files ==> h'.files[path] == h.files[path]))
    && (forall p :: p in h.procs && h.procs[p].vm == other ==> p in h'.procs && h'.procs[p] == h.procs[p])
    && (forall p :: p in h'.procs && h'.procs[p].vm == other ==> p in h.procs && h.procs[p].vm == other)
  }

  /** Only paths of `name` and processes of `name` differ. */
  ghost predicate OnlyTouches(h: Host, h': Host, st: Store, name: string) {
    && (forall path :: (forall k :: path != PathOf(st, k, name)) ==>
          (path in h'.files <==> path in h.files) && (path in h.files ==> h'.files[path] == h.files[path]))
    && (forall p :: p in h.procs ==>
          p in h'.procs && h'.procs[p].vm == h.procs[p].vm && (h.procs[p].vm != name ==> h'.procs[p] == h.procs[p]))
    && (forall p :: p in h'.procs && p !in h.procs ==> h'.procs[p].vm == name)
  }

  /** `h'` differs from `h` only in what belongs to `name`, and what belongs to it is still its own. */
  ghost predicate Local(h: Host, h': Host, st: Store, name: string) {
    OnlyTouches(h, h', st, name) && OwnedBy(h', st, name)
  }

  lemma LocalTrans(h: Host, h1: Host, h2: Host, st: Store, name: string)
    requires Local(h, h1, st, name) && Local(h1, h2, st, name)
    ensures Local(h, h2, st, name)
  {
  }

  lemma CleanupLocal(h: Host, st: Store, name: string, done: nat)
    requires OwnedBy(h, st, name)
    ensures Local(h, Cleanup(h, st, name, done), st, name)
  {
  }

  lemma TerminateLocal(h: Host, st: Store, name: string, pids: set<int>)
    requires OwnedBy(h, st, name) && forall p :: p in pids && p in h.procs ==> h.procs[p].vm == name
    ensures Local(h, Terminate(h, pids), st, name)
  {
  }

  lemma StateLocal(h: Host, st: Store, name: string, o: Outside)
    requires OwnedBy(h, st, name)
    ensures Local(h, StateOf(h, st, name, o).1, st, name)
  {
    CleanupLocal(h, st, name, o.swept);
  }

  lemma LaunchLocal(h: Host, st: Store, name: string, pid: nat)
    requires ValidName(name) && OwnedBy(h, st, name) && FreshPid(h, pid)
    ensures Local(h, Launch(h, st, name, pid), st, name)
  {
    PidReadsBack(pid);
    if PathOf(st, QmpSocket, name) == PathOf(st, PidFile, name) { PathsNeverCoincide(st, QmpSocket, name, PidFile, name); }
  }

  lemma StartLocal(h: Host, st: Store, name: string, o: Outside)
    requires ValidName(name) && OwnedBy(h, st, name) && (o.launched.Some? ==> FreshPid(h, o.launched.value))
    ensures Local(h, Start(h, st, name, o), st, name)
  {
    var h1 := StateOf(h, st, name, o).1;
    StateLocal(h, st, name, o);
    if Proceeds(h, st, name, o) {
      var h2 := Cleanup(h1, st, name, o.cleaned);
      CleanupLocal(h1, st, name, o.cleaned);
      LocalTrans(h, h1, h2, st, name);
      if o.cleaned >= 2 && o.launched.Some? {
        LaunchLocal(h2, st, name, o.launched.value);
        LocalTrans(h, h2, Launch(h2, st, name, o.launched.value), st, name);
      }
    }
  }

  lemma DestroyLocal(h: Host, st: Store, name: string, o: Outside)
    requires OwnedBy(h, st, name)
    ensures Local(h, Destroy(h, st, name, o), st, name)
  {
    if ValidName(name) && !ReadPid(h, st, name).BadPid? {
      var h1 := Terminate(h, Victims(h, st, name, o));
      TerminateLocal(h, st, name, Victims(h, st, name, o));
      CleanupLocal(h1, st, name, o.cleaned);
      LocalTrans(h, h1, Destroy(h, st, name, o), st, name);
    }
  }

  lemma DefinitionLocal(h: Host, h': Host, st: Store, k: Kind, name: string)
    requires ValidName(name) && OwnedBy(h, st, name) && (k.DefinitionFile? || k.TempFile?) && h'.procs == h.procs
    requires forall path :: path != PathOf(st, k, name) ==>
               (path in h'.files <==> path in h.files) && (path in h.files ==> h'.files[path] == h.files[path])
    ensures Local(h, h', st, name)
  {
    if PathOf(st, PidFile, name) == PathOf(st, k, name) { PathsNeverCoincide(st, PidFile, name, k, name); }
    if PathOf(st, QmpSocket, name) == PathOf(st, k, name) { PathsNeverCoincide(st, QmpSocket, name, k, name); }
  }

  lemma DeleteLocal(h: Host, st: Store, name: string, o: Outside)
    requires ValidName(name) && OwnedBy(h, st, name)
    ensures Local(h, Delete(h, st, name, o), st, name)
  {
    DefinitionLocal(h, Delete(h, st, name, o), st, DefinitionFile, name);
  }

  lemma UndefineLocal(h: Host, st: Store, name: string, force: bool, o: Outside)
    requires ValidName(name) && OwnedBy(h, st, name)
    ensures Local(h, Undefine(h, st, name, force, o), st, name)
  {
    var (state, h1) := StateOf(h, st, name, o);
    StateLocal(h, st, name, o);
    var active := state.Some? && Active(state.value);
    if !active || force {
      var h2 := if active then Destroy(h1, st, name, o) else h1;
      DestroyLocal(h1, st, name, o);
      LocalTrans(h, h1, h2, st, name);
      DeleteLocal(h2, st, name, o);
      LocalTrans(h, h2, Delete(h2, st, name, o), st, name);
    }
  }

  ghost predicate About(h: Host, op: Op, name: string) {
    Subject(h, op) == Some(name) && ValidName(name)
  }

  lemma StepLocal(h: Host, st: Store, op: Op, name: string)
    requires Owned(h, st) && NewPids(h, op) && About(h, op, name)
    ensures Local(h, Step(h, st, op), st, name)
  {
    assert OwnedBy(h, st, name);
    match op
    case DefineOp(d) =>
      var h1 := h.(files := h.files - {PathOf(st, TempFile, d.name)});
      DefinitionLocal(h, h1, st, TempFile, name);
      DefinitionLocal(h1, Define(h, st, d), st, DefinitionFile, name);
      LocalTrans(h, h1, Define(h, st, d), st, name);
    case StateOp(_, o) => StateLocal(h, st, name, o);
    case StartOp(_, o) => StartLocal(h, st, name, o);
    case DestroyOp(_, o) => DestroyLocal(h, st, name, o);
    case UndefineOp(_, force, o) => UndefineLocal(h, st, name, force, o);
    case Exits(pid, removes) =>
      var h1 := Terminate(h, {pid});
      TerminateLocal(h, st, name, {pid});
      CleanupLocal(h1, st, name, removes);
      LocalTrans(h, h1, Cleanup(h1, st, name, removes), st, name);
    case Listens(pid) =>
      if PathOf(st, PidFile, name) == PathOf(st, QmpSocket, name) { PathsNeverCoincide(st, PidFile, name, QmpSocket, name); }
  }

  /** Whatever an operation does to one VM, the files and processes of every
      other VM stay as they were, and each VM's files stay its own. */
  lemma OtherVmsUntouched(h: Host, st: Store, op: Op, name: string, other: string)
    requires Owned(h, st) && NewPids(h, op) && About(h, op, name)
    requires ValidName(other) && other != name
    ensures SameFor(h, Step(h, st, op), st, other)
    ensures OwnedBy(Step(h, st, op), st, other) && OwnedBy(Step(h, st, op), st, name)
  {
    StepLocal(h, st, op, name);
    forall k, k' ensures PathOf(st, k, other) != PathOf(st, k', name) {
      if PathOf(st, k, other) == PathOf(st, k', name) { PathsNeverCoincide(st, k, other, k', name); }
    }
    assert OwnedBy(h, st, other);
  }

  // ---- Whole runs ---------------------------------------------------------------------

  /** Every VM's files are its own, and processes run for VMs with proper names. */
  ghost predicate Apart(h: Host, st: Store) {
    Owned(h, st) && forall p :: p in h.procs ==> ValidName(h.procs[p].vm)
  }

  lemma NobodysStep(h: Host, st: Store, op: Op)
    requires Apart(h, st) && forall name :: !About(h, op, name)
    ensures Step(h, st, op) == h
  {
    if Subject(h, op).Some? {
      assert !About(h, op, Subject(h, op).value);
    }
  }

  lemma StepApart(h: Host, st: Store, op: Op)
    requires Apart(h, st) && NewPids(h, op)
    ensures Apart(Step(h, st, op), st)
  {
    if name :| About(h, op, name) {
      StepLocal(h, st, op, name);
      forall other | ValidName(other)
        ensures OwnedBy(Step(h, st, op), st, other)
      {
        if other != name {
          OtherVmsUntouched(h, st, op, name, other);
        }
      }
    } else {
      NobodysStep(h, st, op);
    }
  }

  /** A run in which every started process gets an unused pid. */
  ghost predicate Proper(h: Host, st: Store, ops: seq<Op>) {
    forall k :: 0 <= k < |ops| ==> NewPids(VmOneLive.Run(h, st, ops[..k]), ops[k])
  }

  ghost predicate NeverAbout(h: Host, st: Store, ops: seq<Op>, other: string) {
    forall k :: 0 <= k < |ops| ==> Subject(VmOneLive.Run(h, st, ops[..k]), ops[k]) != Some(other)
  }

  lemma ShorterRun(h: Host, st: Store, ops: seq<Op>, other: string)
    requires ops != [] && Proper(h, st, ops)
    ensures Proper(h, st, ops[..|ops| - 1])
    ensures NeverAbout(h, st, ops, other) ==> NeverAbout(h, st, ops[..|ops| - 1], other)
  {
    var init := ops[..|ops| - 1];
    assert forall k :: 0 <= k < |init| ==> init[..k] == ops[..k] && init[k] == ops[k];
  }

  lemma SameForTrans(h: Host, h1: Host, h2: Host, st: Store, other: string)
    requires SameFor(h, h1, st, other) && SameFor(h1, h2, st, other)
    ensures SameFor(h, h2, st, other)
  {
  }

  /** Over a whole run of operations on other VMs, however they fail and however
      QEMU processes come and go, a VM's files and processes stay as they were. */
  lemma {:induction false} RunLeavesOthersAlone(h: Host, st: Store, ops: seq<Op>, other: string)
    requires Apart(h, st) && Proper(h, st, ops) && ValidName(other)
    ensures Apart(VmOneLive.Run(h, st, ops), st)
    ensures NeverAbout(h, st, ops, other) ==> SameFor(h, VmOneLive.Run(h, st, ops), st, other)
  {
    if ops != [] {
      var init, op := ops[..|ops| - 1], ops[|ops| - 1];
      ShorterRun(h, st, ops, other);
      RunLeavesOthersAlone(h, st, init, other);
      var before := VmOneLive.Run(h, st, init);
      StepApart(before, st, op);
      if NeverAbout(h, st, ops, other) {
        if name :| About(before, op, name) {
          OtherVmsUntouched(before, st, op, name, other);
        } else {
          NobodysStep(before, st, op);
        }
        SameForTrans(h, before, Step(before, st, op), st, other);
      }
    }
  }

  // ---- A pid file that names no VM's process ----------------------------------------------

  /** This live process is behind the VM's socket and answers `quit`. */
  ghost predicate AnswersQuit(h: Host, st: Store, name: string, o: Outside, p: int) {
    var path := PathOf(st, QmpSocket, name);
    Loads(h, st, name, o.valid) && path in h.files && h.files[path] == Listening(p) && Alive(h, p) && o.quits
  }

  /** Exactly which live processes a destroy ends: the one behind the VM's socket that answers
      `quit`, the one its pid file names, and, when none answers, whatever a pid of zero or
      less stands for. */
  lemma DestroyEndsExactly(h: Host, st: Store, name: string, o: Outside, p: int)
    requires ValidName(name) && !ReadPid(h, st, name).BadPid? && Alive(h, p)
    ensures var pid := ReadPid(h, st, name);
            !Alive(Destroy(h, st, name, o), p)
            <==> || AnswersQuit(h, st, name, o, p) || pid == GotPid(p)
                 || (pid.GotPid? && pid.pid <= 0 && (pid.pid == -1 || p in o.group) && forall q :: !AnswersQuit(h, st, name, o, q))
  {
    QuitsExactly(h, st, name, o);
  }

  lemma QuitsExactly(h: Host, st: Store, name: string, o: Outside)
    ensures forall p :: Quits(h, st, name, o) == Some(p) <==> AnswersQuit(h, st, name, o, p)
    ensures Quits(h, st, name, o).None? <==> forall p :: !AnswersQuit(h, st, name, o, p)
  {
    if Quits(h, st, name, o).Some? {
      assert AnswersQuit(h, st, name, o, Quits(h, st, name, o).value);
    }
  }

  /** A live process of another VM. */
  ghost predicate Foreign(h: Host, name: string, p: int) {
    Alive(h, p) && h.procs[p].vm != name
  }

  /** A destroy ends no other VM's process if and only if the one behind the VM's socket that
      answers `quit` is its own, so is the one its pid file names, and, when none answers, a pid
      of zero or less reaches none of the others. */
  lemma DestroySparesOthersExactly(h: Host, st: Store, name: string, o: Outside)
    requires ValidName(name) && !ReadPid(h, st, name).BadPid?
    ensures var pid := ReadPid(h, st, name);
            (forall p :: Foreign(h, name, p) ==> Alive(Destroy(h, st, name, o), p))
            <==> && (forall p :: AnswersQuit(h, st, name, o, p) ==> !Foreign(h, name, p))
                 && (pid.GotPid? ==> !Foreign(h, name, pid.pid))
                 && ((forall p :: !AnswersQuit(h, st, name, o, p)) && pid.GotPid? && pid.pid <= 0 ==>
                       forall p :: Foreign(h, name, p) ==> pid.pid != -1 && p !in o.group)
  {
    forall p | Foreign(h, name, p)
      ensures var pid := ReadPid(h, st, name);
              !Alive(Destroy(h, st, name, o), p)
              <==> || AnswersQuit(h, st, name, o, p) || pid == GotPid(p)
                   || (pid.GotPid? && pid.pid <= 0 && (pid.pid == -1 || p in o.group) && forall q :: !AnswersQuit(h, st, name, o, q))
    {
      DestroyEndsExactly(h, st, name, o, p);
    }
  }

  /** A pid file that holds `-1` makes the destroy of one VM end every VM's process. */
  lemma StrayPidEndsAll(h: Host, st: Store, name: string, o: Outside, p: int)
    requires ValidName(name) && PathOf(st, PidFile, name) in h.files && h.files[PathOf(st, PidFile, name)] == Pid("-1")
    requires Quits(h, st, name, o).None? && Alive(h, p)
    ensures !Alive(Destroy(h, st, name, o), p)
  {
    assert Text.Trim("-1") == "-1";
    assert "-1"[1..] == "1" && Text.Value("1") == 1 by { assert "1"[..0] == ""; }
    assert ReadPid(h, st, name) == GotPid(-1);
    QuitsExactly(h, st, name, o);
    DestroyEndsExactly(h, st, name, o, p);
  }
}
