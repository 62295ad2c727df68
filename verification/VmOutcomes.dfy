/** What each command leaves behind, on the files and processes themselves (src/vm.rs). */
module VmOutcomes {
  import opened Wrappers
  import opened Text
  import opened VmDefinition
  import opened VmLifecycle
  import opened VmOneLive

  /** The files other than these are as they were. */
  ghost predicate SameBut(h: Host, h': Host, paths: set<string>) {
    forall path :: path !in paths ==>
      (path in h'.files <==> path in h.files) && (path in h.files ==> h'.files[path] == h.files[path])
  }

  lemma Apart(st: Store, k: Kind, name: string, k': Kind, name': string)
    requires ValidName(name) && ValidName(name') && (k != k' || name != name')
    ensures PathOf(st, k, name) != PathOf(st, k', name')
  {
    if PathOf(st, k, name) == PathOf(st, k', name') {
      PathsNeverCoincide(st, k, name, k', name');
    }
  }

  lemma AllApart(st: Store, name: string)
    requires ValidName(name)
    ensures PathOf(st, DefinitionFile, name) != PathOf(st, TempFile, name) && PathOf(st, QmpSocket, name) != PathOf(st, PidFile, name)
    ensures PathOf(st, DefinitionFile, name) != PathOf(st, QmpSocket, name)
    ensures PathOf(st, DefinitionFile, name) != PathOf(st, PidFile, name)
  {
    Apart(st, DefinitionFile, name, TempFile, name);
    Apart(st, DefinitionFile, name, QmpSocket, name);
    Apart(st, DefinitionFile, name, PidFile, name);
    Apart(st, QmpSocket, name, PidFile, name);
  }

  /** What `load` finds. */
  function Loaded(h: Host, st: Store, name: string): Option<Definition> {
    var path := PathOf(st, DefinitionFile, name);
    if ValidName(name) && path in h.files && h.files[path].Stored? then Some(h.files[path].def) else None
  }

  // ---- Define -------------------------------------------------------------------------

  /** A saved definition loads as it was saved, no temporary file is left, and nothing else
      changes; one without a proper name is not saved. */
  lemma DefineThenLoad(h: Host, st: Store, d: Definition)
    ensures var h' := Define(h, st, d);
            if ValidName(d.name) then
              && Loaded(h', st, d.name) == Some(d) && PathOf(st, TempFile, d.name) !in h'.files && h'.procs == h.procs
              && SameBut(h, h', {PathOf(st, DefinitionFile, d.name), PathOf(st, TempFile, d.name)})
            else h' == h
  {
    if ValidName(d.name) {
      AllApart(st, d.name);
    }
  }

  // ---- Start ----------------------------------------------------------------------------

  /** QEMU is launched: the definition can be read, no process the VM's pid file names is seen
      alive, the plan lets it, both old files are gone, and it starts. */
  ghost predicate StartLaunches(h: Host, st: Store, name: string, o: Outside) {
    && Readable(h, st, name, o) && !ReadPid(h, st, name).BadPid?
    && (PidAlive(h, st, name) ==> PathOf(st, QmpSocket, name) in h.files && NoSign(o.report))
    && o.allowed && o.cleaned >= 2 && o.launched.Some?
  }

  lemma LaunchesExactly(h: Host, st: Store, name: string, o: Outside)
    ensures StartLaunches(h, st, name, o)
       <==> Proceeds(h, st, name, o) && o.cleaned >= 2 && o.launched.Some?
  {
    StateExactly(h, st, name, o);
  }

  lemma CleanLaunch(h: Host, st: Store, name: string, pid: nat)
    requires ValidName(name) && 0 < pid <= I32_MAX
    ensures var h' := Launch(Cleanup(h, st, name, 2), st, name, pid);
            && ReadPid(h', st, name) == GotPid(pid) && PathOf(st, QmpSocket, name) !in h'.files
            && SameBut(h, h', {PathOf(st, QmpSocket, name), PathOf(st, PidFile, name)})
  {
    AllApart(st, name);
    PidReadsBack(pid);
  }

  /** A start that launches leaves a live process of the VM that its pid file names, no socket
      yet, every other process and file as it was, and the VM starting. */
  lemma StartedIsUp(h: Host, st: Store, name: string, o: Outside, later: Outside)
    requires StartLaunches(h, st, name, o) && FreshPid(h, o.launched.value)
    ensures var h', pid := Start(h, st, name, o), o.launched.value;
            && ReadPid(h', st, name) == GotPid(pid) && h'.procs == h.procs[pid := Process(name, true)]
            && PathOf(st, QmpSocket, name) !in h'.files
            && SameBut(h, h', {PathOf(st, QmpSocket, name), PathOf(st, PidFile, name)})
            && (later.valid ==> StateOf(h', st, name, later).0 == Some(Starting))
  {
    LaunchesExactly(h, st, name, o);
    StateSweepsExactly(h, st, name, o);
    AllApart(st, name);
    var h1 := StateOf(h, st, name, o).1;
    CleanLaunch(h1, st, name, o.launched.value);
    SweptTwice(h, h1, st, name, o);
    StateExactly(Start(h, st, name, o), st, name, later);
  }

  lemma SweptTwice(h: Host, h1: Host, st: Store, name: string, o: Outside)
    requires h1 == StateOf(h, st, name, o).1
    ensures Cleanup(h1, st, name, 2) == Cleanup(h, st, name, 2)
    ensures o.cleaned >= 2 ==> Cleanup(h1, st, name, o.cleaned) == Cleanup(h, st, name, 2)
  {
  }

  /** A start that does not launch starts no process and ends none; at most the VM's socket and
      pid file go, and those only if it was not refused for an active VM. */
  lemma NotStarted(h: Host, st: Store, name: string, o: Outside)
    requires !StartLaunches(h, st, name, o)
    ensures var h' := Start(h, st, name, o);
            && h'.procs == h.procs && SameBut(h, h', {PathOf(st, QmpSocket, name), PathOf(st, PidFile, name)})
            && (PidAlive(h, st, name) && (PathOf(st, QmpSocket, name) in h.files ==> !NoSign(o.report)) ==> h' == h)
  {
    LaunchesExactly(h, st, name, o);
    StateExactly(h, st, name, o);
  }

  // ---- Destroy ----------------------------------------------------------------------------

  /** After a destroy that succeeds the process the pid file named is dead, pid file and socket
      are gone, every other file is as it was, and the VM is shut off. */
  lemma DestroyedIsDown(h: Host, st: Store, name: string, o: Outside, later: Outside)
    requires Destroys(h, st, name, o)
    ensures var h' := Destroy(h, st, name, o);
            && (forall p :: ReadPid(h, st, name) == GotPid(p) ==> !Alive(h', p))
            && PathOf(st, PidFile, name) !in h'.files && PathOf(st, QmpSocket, name) !in h'.files
            && SameBut(h, h', {PathOf(st, QmpSocket, name), PathOf(st, PidFile, name)})
            && (Readable(h, st, name, later) ==> StateOf(h', st, name, later).0 == Some(Shutoff))
  {
    AllApart(st, name);
    StateExactly(Destroy(h, st, name, o), st, name, later);
  }

  /** A destroy of a VM without a pid file ends only a process that answers `quit`. */
  lemma DestroyWithoutPid(h: Host, st: Store, name: string, o: Outside, p: int)
    requires ReadPid(h, st, name).NoPid? && Alive(h, p) && !Alive(Destroy(h, st, name, o), p)
    ensures var path := PathOf(st, QmpSocket, name);
            o.quits && Readable(h, st, name, o) && path in h.files && h.files[path] == Listening(p)
  {
  }

  // ---- Undefine -----------------------------------------------------------------------------

  /** The VM answers that it runs, is paused or is starting. */
  ghost predicate SeenActive(h: Host, st: Store, name: string, o: Outside) {
    && Readable(h, st, name, o) && PidAlive(h, st, name)
    && (PathOf(st, QmpSocket, name) in h.files ==> !NoSign(o.report))
  }

  /** The definition is removed: the name is proper, an active VM is forced and destroyed, and the
      file can be deleted. */
  ghost predicate UndefineRemoves(h: Host, st: Store, name: string, force: bool, o: Outside) {
    && ValidName(name) && (SeenActive(h, st, name, o) ==> force && o.cleaned >= 2)
    && (PathOf(st, DefinitionFile, name) in h.files ==> o.deletes)
  }

  lemma ActiveSeen(h: Host, st: Store, name: string, o: Outside)
    ensures var state := StateOf(h, st, name, o).0;
            state.Some? && Active(state.value) <==> SeenActive(h, st, name, o)
    ensures SeenActive(h, st, name, o) ==> StateOf(h, st, name, o).1 == h
  {
    StateExactly(h, st, name, o);
    if PidAlive(h, st, name) {
      StateSweepsExactly(h, st, name, o);
    }
  }

  lemma DestroyKeepsDefinition(h: Host, st: Store, name: string, o: Outside)
    requires ValidName(name)
    ensures SameAt(h, Destroy(h, st, name, o), PathOf(st, DefinitionFile, name))
  {
    AllApart(st, name);
  }

  ghost predicate SameAt(h: Host, h': Host, path: string) {
    (path in h'.files <==> path in h.files) && (path in h.files ==> h'.files[path] == h.files[path])
  }

  /** Exactly when the definition is gone after an undefine; otherwise it is as it was. */
  lemma UndefineExactly(h: Host, st: Store, name: string, force: bool, o: Outside)
    requires ValidName(name)
    ensures var h', path := Undefine(h, st, name, force, o), PathOf(st, DefinitionFile, name);
            if UndefineRemoves(h, st, name, force, o) then path !in h'.files else SameAt(h, h', path)
  {
    var h1 := StateOf(h, st, name, o).1;
    ActiveSeen(h, st, name, o);
    AllApart(st, name);
    StateSweepsExactly(h, st, name, o);
    DestroyKeepsDefinition(h1, st, name, o);
  }

  /** After an undefine that removes the definition the VM is unknown: no state, and no start. */
  lemma UndefinedIsUnknown(h: Host, st: Store, name: string, force: bool, o: Outside, later: Outside)
    requires UndefineRemoves(h, st, name, force, o)
    ensures var h' := Undefine(h, st, name, force, o);
            Loaded(h', st, name).None? && StateOf(h', st, name, later).0.None? && Start(h', st, name, later) == h'
  {
    UndefineExactly(h, st, name, force, o);
    StateExactly(Undefine(h, st, name, force, o), st, name, later);
  }

  /** An undefine that is not forced ends no process. */
  lemma UnforcedEndsNothing(h: Host, st: Store, name: string, o: Outside)
    ensures Undefine(h, st, name, false, o).procs == h.procs
  {
  }
}
