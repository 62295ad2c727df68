/** Commands in their own steps, interleaved in any order (src/vm.rs). A state query looks, and
    sweeps up if it saw a process that is gone. A start looks and plans, sweeps up likewise,
    cleans up, then launches. A destroy reads the pid file, ends the processes, then cleans up.
    An undefine is a query, a destroy if need be, and the removal of the definition. Nothing in
    the source keeps two commands for one VM apart. */
module VmInterleaving {
  import opened Wrappers
  import opened VmDefinition
  import opened VmLifecycle
  import opened VmOneLive

  /** Where a command stands: about to sweep, and then to start or to end; a start past its
      check, past its cleanup; a destroy that has read a pid, whose processes have ended; a
      finished command. */
  datatype Pc =
    | Sweeping(name: string, starts: bool)
    | Checked(name: string)
    | Cleaned(name: string)
    | Aiming(name: string, pid: PidRead)
    | Ended(name: string)
    | Finished

  datatype State = State(host: Host, pcs: map<nat, Pc>)

  const Initial := State(NOTHING, map[])

  datatype Action =
    | Look(cid: nat, name: string, o: Outside, starts: bool)  // a query, or the check of a start
    | Sweep(cid: nat, done: nat)
    | Clean(cid: nat, done: nat)
    | Go(cid: nat, pid: Option<nat>)
    | Aim(cid: nat, name: string)
    | End(cid: nat, o: Outside)
    | Tidy(cid: nat, done: nat)
    | Remove(name: string, o: Outside)
    | Whole(op: Op)  // a definition, or a process ending or listening

  predicate Enabled(s: State, a: Action) {
    match a
    case Look(cid, _, _, _) => cid !in s.pcs
    case Sweep(cid, _) => cid in s.pcs && s.pcs[cid].Sweeping?
    case Clean(cid, _) => cid in s.pcs && s.pcs[cid].Checked?
    case Go(cid, _) => cid in s.pcs && s.pcs[cid].Cleaned?
    case Aim(cid, _) => cid !in s.pcs
    case End(cid, _) => cid in s.pcs && s.pcs[cid].Aiming?
    case Tidy(cid, _) => cid in s.pcs && s.pcs[cid].Ended?
    case Remove(_, _) => true
    case Whole(op) => op.DefineOp? || op.Exits? || op.Listens?
  }

  /** Where a command stands after it has looked. */
  function Looked(h: Host, st: Store, name: string, o: Outside, starts: bool): Pc {
    match Observe(h, st, name, o)
    case Unreadable => Finished
    case Stale => Sweeping(name, starts && o.allowed)
    case Known(state) => if starts && !Active(state) && o.allowed then Checked(name) else Finished
  }

  function Next(s: State, st: Store, a: Action): State
    requires Enabled(s, a)
  {
    match a
    case Look(cid, name, o, starts) => s.(pcs := s.pcs[cid := Looked(s.host, st, name, o, starts)])
    case Sweep(cid, done) =>
      var pc := s.pcs[cid];
      State(Cleanup(s.host, st, pc.name, done), s.pcs[cid := if pc.starts then Checked(pc.name) else Finished])
    case Clean(cid, done) =>
      var name := s.pcs[cid].name;
      State(Cleanup(s.host, st, name, done), s.pcs[cid := if done >= 2 then Cleaned(name) else Finished])
    case Go(cid, pid) =>
      State(if LaunchStep(s, st, a) then Launch(s.host, st, s.pcs[cid].name, pid.value) else s.host, s.pcs[cid := Finished])
    case Aim(cid, name) =>
      var pid := ReadPid(s.host, st, name);
      s.(pcs := s.pcs[cid := if !ValidName(name) || pid.BadPid? then Finished else Aiming(name, pid)])
    case End(cid, o) =>
      var pc := s.pcs[cid];
      State(Terminate(s.host, Aimed(s.host, st, pc.name, pc.pid, o)), s.pcs[cid := Ended(pc.name)])
    case Tidy(cid, done) =>
      State(Cleanup(s.host, st, s.pcs[cid].name, done), s.pcs[cid := Finished])
    case Remove(name, o) => if ValidName(name) then s.(host := Delete(s.host, st, name, o)) else s
    case Whole(op) => s.(host := Step(s.host, st, op))
  }

  /** The step makes a process live: QEMU can start, and gets the lock on its pid file. */
  predicate LaunchStep(s: State, st: Store, a: Action)
    requires Enabled(s, a)
  {
    a.Go? && a.pid.Some? && !Locked(s.host, st, s.pcs[a.cid].name)
  }

  ghost predicate Run(st: Store, tr: seq<Action>)
    decreases |tr|, 0
  {
    tr == [] || (Run(st, tr[..|tr| - 1]) && Enabled(After(st, tr[..|tr| - 1]), tr[|tr| - 1]))
  }

  ghost function After(st: Store, tr: seq<Action>): State
    requires Run(st, tr)
    decreases |tr|, 1
  {
    if tr == [] then Initial else Next(After(st, tr[..|tr| - 1]), st, tr[|tr| - 1])
  }

  lemma {:induction false} RunPrefix(st: Store, tr: seq<Action>, k: nat)
    requires Run(st, tr) && k <= |tr|
    ensures Run(st, tr[..k])
  {
    if k < |tr| {
      RunPrefix(st, tr[..|tr| - 1], k);
      assert tr[..|tr| - 1][..k] == tr[..k];
    } else {
      assert tr[..k] == tr;
    }
  }

  ghost function Before(st: Store, tr: seq<Action>, k: nat): State
    requires Run(st, tr) && k <= |tr|
  {
    RunPrefix(st, tr, k);
    After(st, tr[..k])
  }

  lemma StepAt(st: Store, tr: seq<Action>, k: nat)
    requires Run(st, tr) && k < |tr|
    ensures Enabled(Before(st, tr, k), tr[k])
    ensures Before(st, tr, k + 1) == Next(Before(st, tr, k), st, tr[k])
  {
    RunPrefix(st, tr, k);
    RunPrefix(st, tr, k + 1);
    assert tr[..k + 1][..k] == tr[..k];
  }

  // ---- Commands that are not interrupted -----------------------------------------------

  /** A query's steps, when nothing comes between them. */
  function Query(s: State, st: Store, cid: nat, name: string, o: Outside, starts: bool): State
    requires cid !in s.pcs
  {
    var s1 := Next(s, st, Look(cid, name, o, starts));
    if s1.pcs[cid].Sweeping? then Next(s1, st, Sweep(cid, o.swept)) else s1
  }

  lemma QueryInSteps(s: State, st: Store, cid: nat, name: string, o: Outside, starts: bool)
    requires cid !in s.pcs
    ensures var after := Query(s, st, cid, name, o, starts);
            && after.host == StateOf(s.host, st, name, o).1
            && after.pcs == s.pcs[cid := if starts && Proceeds(s.host, st, name, o) then Checked(name) else Finished]
  {
  }

  /** A start whose steps follow each other is the start of the serial model. */
  lemma StartInSteps(s: State, st: Store, cid: nat, name: string, o: Outside)
    requires cid !in s.pcs
    ensures var s1 := Query(s, st, cid, name, o, true);
            && (s1.pcs[cid].Finished? ==> s1.host == Start(s.host, st, name, o))
            && (s1.pcs[cid].Checked? ==>
                  var s2 := Next(s1, st, Clean(cid, o.cleaned));
                  && (s2.pcs[cid].Finished? ==> s2.host == Start(s.host, st, name, o))
                  && (s2.pcs[cid].Cleaned? ==> Next(s2, st, Go(cid, o.launched)).host == Start(s.host, st, name, o)))
  {
    QueryInSteps(s, st, cid, name, o, true);
  }

  /** A destroy's steps, when nothing comes between them. */
  function DestroySteps(s: State, st: Store, cid: nat, name: string, o: Outside): State
    requires cid !in s.pcs
  {
    var s1 := Next(s, st, Aim(cid, name));
    if s1.pcs[cid].Finished? then s1 else Next(Next(s1, st, End(cid, o)), st, Tidy(cid, o.cleaned))
  }

  lemma DestroyInSteps(s: State, st: Store, cid: nat, name: string, o: Outside)
    requires cid !in s.pcs
    ensures DestroySteps(s, st, cid, name, o).host == Destroy(s.host, st, name, o)
  {
  }

  /** An undefine is a query, a destroy if the VM is active, and the removal. */
  lemma UndefineInSteps(s: State, st: Store, c: nat, d: nat, name: string, force: bool, o: Outside)
    requires c !in s.pcs && d !in s.pcs && c != d
    ensures var state, s1 := StateOf(s.host, st, name, o).0, Query(s, st, c, name, o, false);
            if state.Some? && Active(state.value) then
              if !force then s1.host == Undefine(s.host, st, name, force, o)
              else
                var s2 := DestroySteps(s1, st, d, name, o);
                (if Destroys(s1.host, st, name, o) then Next(s2, st, Remove(name, o)) else s2).host
                == Undefine(s.host, st, name, force, o)
            else Next(s1, st, Remove(name, o)).host == Undefine(s.host, st, name, force, o)
  {
    QueryInSteps(s, st, c, name, o, false);
    DestroyInSteps(Query(s, st, c, name, o, false), st, d, name, o);
  }

  // ---- Exactly when two processes are live ------------------------------------------------

  /** Step `k` launches QEMU. */
  ghost predicate Goes(st: Store, tr: seq<Action>, k: nat)
    requires Run(st, tr)
  {
    k < |tr| && (StepAt(st, tr, k); LaunchStep(Before(st, tr, k), st, tr[k]))
  }

  ghost function GoesFor(st: Store, tr: seq<Action>, k: nat): string
    requires Run(st, tr) && Goes(st, tr, k)
  {
    StepAt(st, tr, k);
    Before(st, tr, k).pcs[tr[k].cid].name
  }

  /** Pids are new when QEMU is launched. */
  ghost predicate FreshPids(st: Store, tr: seq<Action>)
    requires Run(st, tr)
  {
    forall k: nat :: k < |tr| ==> FreshAt(st, tr, k)
  }

  ghost predicate FreshAt(st: Store, tr: seq<Action>, k: nat)
    requires Run(st, tr) && k < |tr|
  {
    Goes(st, tr, k) ==> FreshPid(Before(st, tr, k).host, tr[k].pid.value)
  }

  /** No step but a launch makes a process live, and none renames one. */
  lemma NoNewLives(s: State, st: Store, a: Action, p: int)
    requires Enabled(s, a) && Alive(Next(s, st, a).host, p) && !(LaunchStep(s, st, a) && a.pid == Some(p))
    ensures Alive(s.host, p) && Next(s, st, a).host.procs[p].vm == s.host.procs[p].vm
  {
  }

  lemma LaunchDoublesExactly(h: Host, st: Store, name: string, pid: nat)
    requires OneLive(h) && FreshPid(h, pid)
    ensures OneLive(Launch(h, st, name, pid)) <==> !HasLive(h, name)
  {
    var h' := Launch(h, st, name, pid);
    if HasLive(h, name) {
      var p :| Alive(h, p) && h.procs[p].vm == name;
      assert Alive(h', p) && Alive(h', pid) && h'.procs[p].vm == h'.procs[pid].vm;
    }
    forall p, q | Alive(h', p) && Alive(h', q) && h'.procs[p].vm == h'.procs[q].vm && !HasLive(h, name)
      ensures p == q
    {
      assert p != pid ==> Alive(h, p);
      assert q != pid ==> Alive(h, q);
    }
  }

  lemma StepKeepsOneLive(s: State, st: Store, a: Action)
    requires Enabled(s, a) && OneLive(s.host) && !LaunchStep(s, st, a)
    ensures OneLive(Next(s, st, a).host)
  {
    var h' := Next(s, st, a).host;
    forall p, q | Alive(h', p) && Alive(h', q) && h'.procs[p].vm == h'.procs[q].vm
      ensures p == q
    {
      NoNewLives(s, st, a, p);
      NoNewLives(s, st, a, q);
    }
  }

  ghost predicate OneLiveAt(st: Store, tr: seq<Action>, k: nat)
    requires Run(st, tr) && k <= |tr|
  {
    OneLive(Before(st, tr, k).host)
  }

  lemma OneStepLive(st: Store, tr: seq<Action>, k: nat)
    requires Run(st, tr) && k < |tr| && FreshAt(st, tr, k) && OneLive(Before(st, tr, k).host)
    ensures OneLive(Before(st, tr, k + 1).host)
       <==> (Goes(st, tr, k) ==> !HasLive(Before(st, tr, k).host, GoesFor(st, tr, k)))
  {
    StepAt(st, tr, k);
    var s := Before(st, tr, k);
    if Goes(st, tr, k) {
      LaunchDoublesExactly(s.host, st, GoesFor(st, tr, k), tr[k].pid.value);
    } else {
      StepKeepsOneLive(s, st, tr[k]);
    }
  }

  // ---- Where a live process comes from -------------------------------------------------------

  /** A live process was live before the step, or the step launched it. */
  lemma LiveBack(st: Store, tr: seq<Action>, k: nat, p: int)
    requires Run(st, tr) && k < |tr| && Alive(Before(st, tr, k + 1).host, p)
    ensures var vm := Before(st, tr, k + 1).host.procs[p].vm;
            if Goes(st, tr, k) && tr[k].pid == Some(p) then GoesFor(st, tr, k) == vm
            else Alive(Before(st, tr, k).host, p) && Before(st, tr, k).host.procs[p].vm == vm
  {
    StepAt(st, tr, k);
    if !(Goes(st, tr, k) && tr[k].pid == Some(p)) {
      NoNewLives(Before(st, tr, k), st, tr[k], p);
    }
  }

  ghost predicate LiveAt(st: Store, tr: seq<Action>, k: nat, p: int)
    requires Run(st, tr) && k <= |tr|
  {
    Alive(Before(st, tr, k).host, p)
  }

  lemma {:induction false} LaunchedAt(st: Store, tr: seq<Action>, k: nat, p: int) returns (m: nat)
    requires Run(st, tr) && k <= |tr| && Alive(Before(st, tr, k).host, p)
    ensures m < k && Goes(st, tr, m) && tr[m].pid == Some(p) && GoesFor(st, tr, m) == Before(st, tr, k).host.procs[p].vm
    ensures forall j :: m < j <= k ==> LiveAt(st, tr, j, p)
  {
    assert tr[..0] == [];
    LiveBack(st, tr, k - 1, p);
    if Goes(st, tr, k - 1) && tr[k - 1].pid == Some(p) {
      m := k - 1;
    } else {
      m := LaunchedAt(st, tr, k - 1, p);
    }
  }

  /** Step `i` is the check of the start that acts at step `j`. */
  ghost predicate ChecksFor(tr: seq<Action>, i: nat, j: nat) {
    i < j < |tr| && tr[i].Look? && tr[i].starts && tr[j].Go? && tr[i].cid == tr[j].cid
  }

  /** A start that has passed its check. */
  predicate IsStarting(pc: Pc) {
    (pc.Sweeping? && pc.starts) || pc.Checked? || pc.Cleaned?
  }

  lemma CheckedBefore(s: State, st: Store, a: Action, cid: nat)
    requires Enabled(s, a) && cid in Next(s, st, a).pcs && IsStarting(Next(s, st, a).pcs[cid])
    ensures var name := Next(s, st, a).pcs[cid].name;
            || (a.Look? && a.starts && a.cid == cid && a.name == name && Proceeds(s.host, st, name, a.o))
            || (cid in s.pcs && IsStarting(s.pcs[cid]) && s.pcs[cid].name == name)
  {
  }

  lemma {:induction false} CheckOf(st: Store, tr: seq<Action>, k: nat, cid: nat) returns (i: nat)
    requires Run(st, tr) && k <= |tr| && cid in Before(st, tr, k).pcs && IsStarting(Before(st, tr, k).pcs[cid])
    ensures i < k && tr[i].Look? && tr[i].starts && tr[i].cid == cid && tr[i].name == Before(st, tr, k).pcs[cid].name
    ensures Proceeds(Before(st, tr, i).host, st, tr[i].name, tr[i].o)
  {
    assert tr[..0] == [];
    StepAt(st, tr, k - 1);
    CheckedBefore(Before(st, tr, k - 1), st, tr[k - 1], cid);
    if tr[k - 1].Look? && tr[k - 1].cid == cid {
      i := k - 1;
    } else {
      i := CheckOf(st, tr, k - 1, cid);
    }
  }

  /** The check at a host with this process: its VM's pid file does not name it, or the socket
      exists and QMP reports neither running nor paused. */
  ghost predicate Overlooked(h: Host, st: Store, name: string, o: Outside, p: int) {
    ReadPid(h, st, name) != GotPid(p) || (PathOf(st, QmpSocket, name) in h.files && NoSign(o.report))
  }

  lemma PassedOverIt(h: Host, st: Store, name: string, o: Outside, p: int)
    requires Alive(h, p) && Proceeds(h, st, name, o)
    ensures Overlooked(h, st, name, o, p)
  {
  }

  /** Process `p` of the VM was launched between the check at step `i` and step `j`. */
  ghost predicate LaunchedSince(st: Store, tr: seq<Action>, i: nat, j: nat, p: int)
    requires Run(st, tr)
  {
    exists m: nat :: i < m < j && Goes(st, tr, m) && tr[m].pid == Some(p)
  }

  /** Why step `j` launches a second process: `p` lives, and the start's check at step `i`
      overlooked it, or it was launched since. */
  ghost predicate Doubles(st: Store, tr: seq<Action>, i: nat, j: nat, p: int)
    requires Run(st, tr) && j < |tr|
  {
    && ChecksFor(tr, i, j) && Goes(st, tr, j)
    && Alive(Before(st, tr, j).host, p) && Before(st, tr, j).host.procs[p].vm == GoesFor(st, tr, j)
    && (|| LaunchedSince(st, tr, i, j, p)
        || (Alive(Before(st, tr, i).host, p) && Overlooked(Before(st, tr, i).host, st, tr[i].name, tr[i].o, p)))
  }

  /** In every interleaving, a launch next to a live process of its VM has one of two causes:
      another start of that VM launched it between this start's check and its launch, or it was
      live at the check and the check overlooked it. */
  lemma WhyTwo(st: Store, tr: seq<Action>, j: nat, p: int) returns (i: nat)
    requires Run(st, tr) && Goes(st, tr, j)
    requires Alive(Before(st, tr, j).host, p) && Before(st, tr, j).host.procs[p].vm == GoesFor(st, tr, j)
    ensures Doubles(st, tr, i, j, p) && tr[i].name == GoesFor(st, tr, j)
  {
    StepAt(st, tr, j);
    var m := LaunchedAt(st, tr, j, p);
    i := CheckOf(st, tr, j, tr[j].cid);
    if m < i {
      assert LiveAt(st, tr, i, p);
      PassedOverIt(Before(st, tr, i).host, st, tr[i].name, tr[i].o, p);
    }
  }

  /** Step `j` has neither cause. */
  ghost predicate NoCause(st: Store, tr: seq<Action>, j: nat)
    requires Run(st, tr) && j < |tr|
  {
    forall i: nat, p: int :: !Doubles(st, tr, i, j, p)
  }

  lemma NoCauseExactly(st: Store, tr: seq<Action>, j: nat)
    requires Run(st, tr) && j < |tr|
    ensures NoCause(st, tr, j) <==> (Goes(st, tr, j) ==> !HasLive(Before(st, tr, j).host, GoesFor(st, tr, j)))
  {
    if Goes(st, tr, j) && HasLive(Before(st, tr, j).host, GoesFor(st, tr, j)) {
      var p :| Alive(Before(st, tr, j).host, p) && Before(st, tr, j).host.procs[p].vm == GoesFor(st, tr, j);
      var i := WhyTwo(st, tr, j, p);
    }
  }

  lemma OneStepExactly(st: Store, tr: seq<Action>, k: nat)
    requires Run(st, tr) && k < |tr| && FreshAt(st, tr, k) && OneLiveAt(st, tr, k)
    ensures OneLiveAt(st, tr, k + 1) <==> NoCause(st, tr, k)
  {
    OneStepLive(st, tr, k);
    NoCauseExactly(st, tr, k);
  }

  lemma {:induction false} OneLiveWithoutCause(st: Store, tr: seq<Action>, k: nat)
    requires Run(st, tr) && FreshPids(st, tr) && k <= |tr| && forall j :: 0 <= j < k ==> NoCause(st, tr, j)
    ensures OneLiveAt(st, tr, k)
  {
    if k == 0 {
      assert tr[..0] == [];
    } else {
      OneLiveWithoutCause(st, tr, k - 1);
      assert NoCause(st, tr, k - 1);
      OneStepExactly(st, tr, k - 1);
    }
  }

  /** In every interleaving: no VM ever has two live processes if and only if no start's check
      overlooked a process that still lives when the start launches, and none was launched in
      between that does. */
  lemma OneLiveExactly(st: Store, tr: seq<Action>)
    requires Run(st, tr) && FreshPids(st, tr)
    ensures (forall k :: 0 <= k <= |tr| ==> OneLiveAt(st, tr, k)) <==> (forall j :: 0 <= j < |tr| ==> NoCause(st, tr, j))
  {
    if forall j :: 0 <= j < |tr| ==> NoCause(st, tr, j) {
      forall k | 0 <= k <= |tr| ensures OneLiveAt(st, tr, k) {
        OneLiveWithoutCause(st, tr, k);
      }
    } else if forall k :: 0 <= k <= |tr| ==> OneLiveAt(st, tr, k) {
      forall j | 0 <= j < |tr| ensures NoCause(st, tr, j) {
        OneStepExactly(st, tr, j);
      }
    }
  }

  // ---- One command at a time for each VM --------------------------------------------------------

  /** A start or a destroy of this VM is under way. */
  ghost predicate Busy(s: State, name: string) {
    exists cid :: Working(s, cid) && s.pcs[cid].name == name
  }

  ghost predicate Working(s: State, cid: nat) {
    cid in s.pcs && (IsStarting(s.pcs[cid]) || s.pcs[cid].Aiming? || s.pcs[cid].Ended?)
  }

  /** A command that has seen a dead process of this VM has yet to sweep up after it. */
  ghost predicate SweepPending(s: State, name: string) {
    exists cid :: cid in s.pcs && s.pcs[cid].Sweeping? && s.pcs[cid].name == name
  }

  /** A start or destroy of a VM begins when no other is under way for it, no check misses a
      live instance, pids are new, and no query of the VM spans one of its launches: none that
      is about to sweep. */
  ghost predicate Orderly(s: State, st: Store, a: Action)
    requires Enabled(s, a)
  {
    match a
    case Look(_, name, o, starts) => starts ==> !Busy(s, name) && !Missed(s.host, st, name, o)
    case Aim(_, name) => !Busy(s, name)
    case Go(cid, pid) => LaunchStep(s, st, a) ==> FreshPid(s.host, pid.value) && !SweepPending(s, s.pcs[cid].name)
    case _ => true
  }

  /** What holds of a VM with a command at this point: a destroy that has read the pid file aims
      at its live process; otherwise it has none. */
  ghost predicate Quiet(h: Host, pc: Pc) {
    !pc.Finished? ==>
      && ValidName(pc.name)
      && forall p :: Alive(h, p) && h.procs[p].vm == pc.name ==> pc.Aiming? && pc.pid == GotPid(p)
  }

  ghost predicate Inv(s: State, st: Store) {
    && Tracked(s.host, st)
    && (forall cid :: cid in s.pcs ==> Quiet(s.host, s.pcs[cid]))
    && (forall c, d :: Working(s, c) && Working(s, d) && s.pcs[c].name == s.pcs[d].name ==> c == d)
  }

  lemma QuietIdle(h: Host, pc: Pc)
    requires Quiet(h, pc) && !pc.Finished? && !pc.Aiming?
    ensures ValidName(pc.name) && !HasLive(h, pc.name)
  {
  }

  lemma OrderlyTracked(s: State, st: Store, a: Action)
    requires Enabled(s, a) && Inv(s, st) && Orderly(s, st, a)
    ensures Tracked(Next(s, st, a).host, st)
  {
    match a
    case Look(_, _, _, _) =>
    case Sweep(cid, done) => QuietIdle(s.host, s.pcs[cid]); CleanupTracked(s.host, st, s.pcs[cid].name, done);
    case Clean(cid, done) => QuietIdle(s.host, s.pcs[cid]); CleanupTracked(s.host, st, s.pcs[cid].name, done);
    case Go(cid, pid) =>
      if LaunchStep(s, st, a) {
        QuietIdle(s.host, s.pcs[cid]);
        LaunchTracked(s.host, st, s.pcs[cid].name, pid.value);
      }
    case Aim(_, _) =>
    case End(cid, o) => TerminateTracked(s.host, st, Aimed(s.host, st, s.pcs[cid].name, s.pcs[cid].pid, o));
    case Tidy(cid, done) => QuietIdle(s.host, s.pcs[cid]); CleanupTracked(s.host, st, s.pcs[cid].name, done);
    case Remove(name, o) => if ValidName(name) { DeleteTracked(s.host, st, name, o); }
    case Whole(op) => StepTracked(s.host, st, op);
  }

  /** A command that looks and goes on does so at a VM without live processes. */
  lemma LookedQuiet(h: Host, st: Store, name: string, o: Outside, starts: bool)
    requires Tracked(h, st) && (starts ==> !Missed(h, st, name, o))
    ensures Quiet(h, Looked(h, st, name, o, starts))
  {
  }

  /** A destroy that has read the pid file ends the VM's live process. */
  lemma EndedQuiet(h: Host, st: Store, pc: Pc, o: Outside)
    requires pc.Aiming? && Quiet(h, pc)
    ensures Quiet(Terminate(h, Aimed(h, st, pc.name, pc.pid, o)), Ended(pc.name))
  {
  }

  /** Whatever a command has seen stays true while others take their steps. */
  lemma StaysQuiet(s: State, st: Store, a: Action, pc: Pc)
    requires Enabled(s, a) && Quiet(s.host, pc)
    requires LaunchStep(s, st, a) ==> pc.Finished? || pc.name != s.pcs[a.cid].name
    ensures Quiet(Next(s, st, a).host, pc)
  {
    forall p | !pc.Finished? && Alive(Next(s, st, a).host, p) && Next(s, st, a).host.procs[p].vm == pc.name
      ensures pc.Aiming? && pc.pid == GotPid(p)
    {
      if !(LaunchStep(s, st, a) && a.pid == Some(p)) {
        NoNewLives(s, st, a, p);
      }
    }
  }

  /** The step's own command. */
  lemma OrderlyOwn(s: State, st: Store, a: Action)
    requires Enabled(s, a) && Inv(s, st) && Orderly(s, st, a) && !a.Remove? && !a.Whole?
    ensures Quiet(Next(s, st, a).host, Next(s, st, a).pcs[a.cid])
  {
    match a
    case Look(_, name, o, starts) => LookedQuiet(s.host, st, name, o, starts);
    case Sweep(cid, _) => StaysQuiet(s, st, a, s.pcs[cid]);
    case Clean(cid, _) => StaysQuiet(s, st, a, s.pcs[cid]);
    case Go(_, _) =>
    case Aim(_, _) =>
    case End(cid, o) => EndedQuiet(s.host, st, s.pcs[cid], o);
    case Tidy(_, _) =>
  }

  /** The others': a launch finds no other command of its VM under way. */
  lemma OrderlyOther(s: State, st: Store, a: Action, cid: nat)
    requires Enabled(s, a) && Inv(s, st) && Orderly(s, st, a) && cid in s.pcs
    requires !a.Remove? && !a.Whole? ==> a.cid != cid
    ensures Quiet(Next(s, st, a).host, s.pcs[cid])
  {
    if LaunchStep(s, st, a) {
      assert Working(s, a.cid);
    }
    StaysQuiet(s, st, a, s.pcs[cid]);
  }

  lemma OrderlyApart(s: State, st: Store, a: Action, c: nat, d: nat)
    requires Enabled(s, a) && Inv(s, st) && Orderly(s, st, a)
    requires var s' := Next(s, st, a); Working(s', c) && Working(s', d) && s'.pcs[c].name == s'.pcs[d].name
    ensures c == d
  {
    WorkingBefore(s, st, a, c);
    WorkingBefore(s, st, a, d);
  }

  /** Who works after a step worked before it for the same VM, or has just begun at a VM
      that had nobody. */
  lemma WorkingBefore(s: State, st: Store, a: Action, cid: nat)
    requires Enabled(s, a) && Orderly(s, st, a) && Working(Next(s, st, a), cid)
    ensures var name := Next(s, st, a).pcs[cid].name;
            || (Working(s, cid) && s.pcs[cid].name == name)
            || ((a.Look? || a.Aim?) && a.cid == cid && a.name == name && !Busy(s, name))
  {
  }

  lemma OrderlyStep(s: State, st: Store, a: Action)
    requires Enabled(s, a) && Inv(s, st) && Orderly(s, st, a)
    ensures Inv(Next(s, st, a), st)
  {
    var s' := Next(s, st, a);
    OrderlyTracked(s, st, a);
    forall cid | cid in s'.pcs
      ensures Quiet(s'.host, s'.pcs[cid])
    {
      if !a.Remove? && !a.Whole? && a.cid == cid {
        OrderlyOwn(s, st, a);
      } else {
        OrderlyOther(s, st, a, cid);
      }
    }
    forall c, d | Working(s', c) && Working(s', d) && s'.pcs[c].name == s'.pcs[d].name
      ensures c == d
    {
      OrderlyApart(s, st, a, c, d);
    }
  }

  /** In every interleaving in which each VM has at most one start or destroy under way, no
      check misses a live instance, and no query that has yet to sweep spans a launch of its
      VM, no VM ever has two live processes. Everything else may come in between anywhere. */
  lemma {:induction false} OneAtATimeKeepsOneLive(st: Store, tr: seq<Action>, k: nat)
    requires Run(st, tr) && k <= |tr| && forall j :: 0 <= j < k ==> OrderlyAt(st, tr, j)
    ensures Inv(Before(st, tr, k), st) && OneLive(Before(st, tr, k).host)
  {
    if k > 0 {
      OneAtATimeKeepsOneLive(st, tr, k - 1);
      StepAt(st, tr, k - 1);
      assert OrderlyAt(st, tr, k - 1);
      OrderlyStep(Before(st, tr, k - 1), st, tr[k - 1]);
    } else {
      assert tr[..0] == [];
    }
    TrackedIsOneLive(Before(st, tr, k).host, st);
  }

  ghost predicate OrderlyAt(st: Store, tr: seq<Action>, k: nat)
    requires Run(st, tr) && k < |tr|
  {
    StepAt(st, tr, k);
    Orderly(Before(st, tr, k), st, tr[k])
  }
}
