/** Runs that leave two live processes for one VM. */
module VmInputs {
  import opened Wrappers
  import opened VmDefinition
  import opened Text
  import opened VmLifecycle
  import opened VmOneLive
  import opened VmInterleaving

  /** An undisturbed operation: everything works, QMP is silent. */
  function Works(pid: nat): Outside {
    Outside(true, Silent, true, Some(pid), true, {}, 2, 2, true)
  }

  /** A VM is defined. */
  function Defined(st: Store, d: Definition): Host {
    Host(map[PathOf(st, DefinitionFile, d.name) := Stored(d)], map[])
  }

  lemma DefinedFirst(st: Store, d: Definition)
    requires ValidName(d.name)
    ensures Define(NOTHING, st, d) == Defined(st, d)
  {
  }

  /** Its first QEMU runs. */
  function RunningOne(st: Store, d: Definition): Host {
    Host(map[PathOf(st, DefinitionFile, d.name) := Stored(d), PathOf(st, PidFile, d.name) := Pid(PidText(1))],
         map[1 := Process(d.name, true)])
  }

  lemma KindsApart(st: Store, name: string)
    requires ValidName(name)
    ensures PathOf(st, DefinitionFile, name) != PathOf(st, PidFile, name)
    ensures PathOf(st, QmpSocket, name) != PathOf(st, PidFile, name)
    ensures PathOf(st, QmpSocket, name) != PathOf(st, DefinitionFile, name)
  {
    if PathOf(st, DefinitionFile, name) == PathOf(st, PidFile, name) { PathsNeverCoincide(st, DefinitionFile, name, PidFile, name); }
    if PathOf(st, QmpSocket, name) == PathOf(st, PidFile, name) { PathsNeverCoincide(st, QmpSocket, name, PidFile, name); }
    if PathOf(st, QmpSocket, name) == PathOf(st, DefinitionFile, name) { PathsNeverCoincide(st, QmpSocket, name, DefinitionFile, name); }
  }

  lemma FirstStart(st: Store, d: Definition)
    requires ValidName(d.name)
    ensures Proceeds(Defined(st, d), st, d.name, Works(1)) && Start(Defined(st, d), st, d.name, Works(1)) == RunningOne(st, d)
  {
    KindsApart(st, d.name);
    var h := Defined(st, d);
    assert StateOf(h, st, d.name, Works(1)) == (Some(Shutoff), h);
    assert Cleanup(h, st, d.name, 2) == h;
  }

  lemma ShiftedRun(h: Host, st: Store, ops: seq<Op>, op: Op)
    ensures VmOneLive.Run(h, st, ops + [op]) == Step(VmOneLive.Run(h, st, ops), st, op)
  {
    assert (ops + [op])[..|ops|] == ops;
  }

  lemma DefinedAndStarted(st: Store, d: Definition)
    requires ValidName(d.name)
    ensures VmOneLive.Run(NOTHING, st, [DefineOp(d)] + [StartOp(d.name, Works(1))]) == RunningOne(st, d)
  {
    ShiftedRun(NOTHING, st, [], DefineOp(d));
    assert [] + [DefineOp(d)] == [DefineOp(d)];
    DefinedFirst(st, d);
    ShiftedRun(NOTHING, st, [DefineOp(d)], StartOp(d.name, Works(1)));
    FirstStart(st, d);
  }

  lemma SecondStart(st: Store, d: Definition, ops: seq<Op>)
    requires ValidName(d.name) && VmOneLive.Run(NOTHING, st, ops) == RunningOne(st, d)
    ensures !OneLive(VmOneLive.Run(NOTHING, st, ops + [Listens(1)] + [StartOp(d.name, Works(2))]))
  {
    ShiftedRun(NOTHING, st, ops, Listens(1));
    ShiftedRun(NOTHING, st, ops + [Listens(1)], StartOp(d.name, Works(2)));
    ListeningDoubles(st, d);
  }

  lemma SecondInParts(d: Definition)
    ensures [DefineOp(d)] + [StartOp(d.name, Works(1))] + [Listens(1)] + [StartOp(d.name, Works(2))]
         == [DefineOp(d), StartOp(d.name, Works(1)), Listens(1), StartOp(d.name, Works(2))]
  {
  }

  /** One after the other: define, start, the socket appears, and a second start that gets no
      answer from QMP leaves two live processes. */
  lemma SecondQemu(st: Store, d: Definition)
    requires ValidName(d.name)
    ensures var ops := [DefineOp(d), StartOp(d.name, Works(1)), Listens(1), StartOp(d.name, Works(2))];
            !OneLive(VmOneLive.Run(NOTHING, st, ops))
  {
    DefinedAndStarted(st, d);
    SecondStart(st, d, [DefineOp(d)] + [StartOp(d.name, Works(1))]);
    SecondInParts(d);
  }

  lemma RunningTracked(st: Store, d: Definition)
    requires ValidName(d.name)
    ensures Tracked(RunningOne(st, d), st)
  {
    KindsApart(st, d.name);
    assert RunningOne(st, d) == Launch(Defined(st, d), st, d.name, 1);
    LaunchTracked(Defined(st, d), st, d.name, 1);
  }

  lemma ListeningHost(st: Store, d: Definition)
    requires ValidName(d.name)
    ensures var h := Step(RunningOne(st, d), st, Listens(1));
            && Tracked(h, st) && Alive(h, 1) && h.procs[1].vm == d.name && PathOf(st, QmpSocket, d.name) in h.files
            && Loads(h, st, d.name, true)
  {
    RunningTracked(st, d);
    StepTracked(RunningOne(st, d), st, Listens(1));
    KindsApart(st, d.name);
  }

  lemma ListeningDoubles(st: Store, d: Definition)
    requires ValidName(d.name)
    ensures !OneLive(Start(Step(RunningOne(st, d), st, Listens(1)), st, d.name, Works(2)))
  {
    var h := Step(RunningOne(st, d), st, Listens(1));
    ListeningHost(st, d);
    assert HasLive(h, d.name);
    StartDoublesExactly(h, st, d.name, Works(2));
  }

  // ---- Interleaved steps ------------------------------------------------------------------

  /** The VM is defined; its pid file, if there is one, names this process. */
  function At(st: Store, d: Definition, pid: Option<nat>, procs: map<int, Process>): Host {
    var defined := map[PathOf(st, DefinitionFile, d.name) := Stored(d)];
    Host(if pid.Some? then defined[PathOf(st, PidFile, d.name) := Pid(PidText(pid.value))] else defined, procs)
  }

  /** Without a pid file the VM is shut off, whatever processes there are. */
  lemma LooksOff(st: Store, d: Definition, procs: map<int, Process>, o: Outside, starts: bool)
    requires ValidName(d.name) && o.valid && o.allowed
    ensures var h := At(st, d, None, procs);
            && Looked(h, st, d.name, o, starts) == (if starts then Checked(d.name) else Finished)
            && Cleanup(h, st, d.name, 2) == h && !Missed(h, st, d.name, o) && !Locked(h, st, d.name)
  {
    KindsApart(st, d.name);
  }

  /** With the pid file of a dead process, whoever looks has yet to sweep. */
  lemma LooksStale(st: Store, d: Definition, pid: nat, procs: map<int, Process>, o: Outside, starts: bool)
    requires ValidName(d.name) && o.valid && o.allowed && pid <= I32_MAX && pid in procs && !procs[pid].alive
    ensures var h := At(st, d, Some(pid), procs);
            Looked(h, st, d.name, o, starts) == Sweeping(d.name, starts) && !Missed(h, st, d.name, o)
  {
    KindsApart(st, d.name);
    PidReadsBack(pid);
  }

  lemma SweptAway(st: Store, d: Definition, pid: nat, procs: map<int, Process>)
    requires ValidName(d.name)
    ensures Cleanup(At(st, d, Some(pid), procs), st, d.name, 2) == At(st, d, None, procs)
  {
    KindsApart(st, d.name);
  }

  /** Exactly the steps but `but` are orderly. */
  ghost predicate OrderlyBut(st: Store, tr: seq<Action>, but: nat)
    requires VmInterleaving.Run(st, tr)
  {
    forall k :: 0 <= k < |tr| ==> (OrderlyAt(st, tr, k) <==> k != but)
  }

  lemma Grow(st: Store, tr: seq<Action>, s: State, a: Action, s': State, but: nat)
    requires VmInterleaving.Run(st, tr) && After(st, tr) == s && Enabled(s, a) && Next(s, st, a) == s'
    requires OrderlyBut(st, tr, but) && (Orderly(s, st, a) <==> |tr| != but)
    ensures VmInterleaving.Run(st, tr + [a]) && After(st, tr + [a]) == s' && OrderlyBut(st, tr + [a], but)
  {
    var longer := tr + [a];
    assert longer[..|tr|] == tr;
    forall k | 0 <= k < |longer|
      ensures OrderlyAt(st, longer, k) <==> k != but
    {
      if k < |tr| {
        assert longer[..k] == tr[..k];
        assert OrderlyAt(st, tr, k) == OrderlyAt(st, longer, k);
      }
    }
  }

  lemma StartsOff(st: Store, d: Definition, s: State, procs: map<int, Process>, cid: nat, pid: nat)
    requires ValidName(d.name) && s.host == At(st, d, None, procs) && cid !in s.pcs && !Busy(s, d.name)
    ensures var look := Look(cid, d.name, Works(pid), true);
            && Orderly(s, st, look) && Next(s, st, look) == s.(pcs := s.pcs[cid := Checked(d.name)])
  {
    LooksOff(st, d, procs, Works(pid), true);
  }

  lemma CleansOff(st: Store, d: Definition, s: State, procs: map<int, Process>, cid: nat)
    requires ValidName(d.name) && s.host == At(st, d, None, procs) && cid in s.pcs && s.pcs[cid] == Checked(d.name)
    ensures Next(s, st, Clean(cid, 2)) == s.(pcs := s.pcs[cid := Cleaned(d.name)])
  {
    LooksOff(st, d, procs, Works(0), true);
  }

  lemma GoesOff(st: Store, d: Definition, s: State, procs: map<int, Process>, cid: nat, pid: nat)
    requires ValidName(d.name) && s.host == At(st, d, None, procs) && cid in s.pcs && s.pcs[cid] == Cleaned(d.name)
    ensures var go := Go(cid, Some(pid));
            && LaunchStep(s, st, go)
            && Next(s, st, go) == State(At(st, d, Some(pid), procs[pid := Process(d.name, true)]), s.pcs[cid := Finished])
  {
    LooksOff(st, d, procs, Works(0), true);
  }

  function Begun(d: Definition): seq<Action> { [Whole(DefineOp(d))] }

  lemma Begin(st: Store, d: Definition, but: nat)
    requires ValidName(d.name) && but > 0
    ensures VmInterleaving.Run(st, Begun(d)) && OrderlyBut(st, Begun(d), but)
    ensures After(st, Begun(d)) == State(At(st, d, None, map[]), map[])
  {
    DefinedFirst(st, d);
    Grow(st, [], Initial, Whole(DefineOp(d)), State(At(st, d, None, map[]), map[]), but);
    assert [] + [Whole(DefineOp(d))] == Begun(d);
  }

  // Two starts at once.

  function TwoLooks(d: Definition): seq<Action> {
    Begun(d) + [Look(0, d.name, Works(1), true)] + [Look(1, d.name, Works(2), true)]
  }

  lemma BothLookOff(st: Store, d: Definition)
    requires ValidName(d.name)
    ensures VmInterleaving.Run(st, TwoLooks(d)) && OrderlyBut(st, TwoLooks(d), 2)
    ensures After(st, TwoLooks(d)) == State(At(st, d, None, map[]), map[0 := Checked(d.name), 1 := Checked(d.name)])
  {
    var h, pcs := At(st, d, None, map[]), map[0 := Checked(d.name)];
    Begin(st, d, 2);
    StartsOff(st, d, State(h, map[]), map[], 0, 1);
    Grow(st, Begun(d), State(h, map[]), Look(0, d.name, Works(1), true), State(h, pcs), 2);
    LooksOff(st, d, map[], Works(2), true);
    assert Working(State(h, pcs), 0);
    Grow(st, Begun(d) + [Look(0, d.name, Works(1), true)], State(h, pcs), Look(1, d.name, Works(2), true),
         State(h, pcs[1 := Checked(d.name)]), 2);
  }

  function FirstGone(d: Definition): seq<Action> {
    TwoLooks(d) + [Clean(0, 2)] + [Go(0, Some(1))]
  }

  lemma FirstGoes(st: Store, d: Definition)
    requires ValidName(d.name)
    ensures VmInterleaving.Run(st, FirstGone(d)) && OrderlyBut(st, FirstGone(d), 2)
    ensures After(st, FirstGone(d))
         == State(At(st, d, Some(1), map[1 := Process(d.name, true)]), map[0 := Finished, 1 := Checked(d.name)])
  {
    var h, name := At(st, d, None, map[]), d.name;
    var s, s1 := State(h, map[0 := Checked(name), 1 := Checked(name)]), State(h, map[0 := Cleaned(name), 1 := Checked(name)]);
    BothLookOff(st, d);
    CleansOff(st, d, s, map[], 0);
    Grow(st, TwoLooks(d), s, Clean(0, 2), s1, 2);
    GoesOff(st, d, s1, map[], 0, 1);
    Grow(st, TwoLooks(d) + [Clean(0, 2)], s1, Go(0, Some(1)),
         State(At(st, d, Some(1), map[1 := Process(name, true)]), map[0 := Finished, 1 := Checked(name)]), 2);
  }

  lemma TwoAlive(h: Host, p: int, q: int)
    requires Alive(h, p) && Alive(h, q) && p != q && h.procs[p].vm == h.procs[q].vm
    ensures !OneLive(h)
  {
  }

  lemma SecondGoes(st: Store, d: Definition)
    requires ValidName(d.name)
    ensures var tr := FirstGone(d) + [Clean(1, 2)] + [Go(1, Some(2))];
            VmInterleaving.Run(st, tr) && OrderlyBut(st, tr, 2) && !OneLive(After(st, tr).host)
  {
    var name, one := d.name, map[1 := Process(d.name, true)];
    var pcs := map[0 := Finished, 1 := Checked(name)];
    var s1 := State(At(st, d, None, one), pcs[1 := Cleaned(name)]);
    FirstGoes(st, d);
    SweptAway(st, d, 1, one);
    Grow(st, FirstGone(d), State(At(st, d, Some(1), one), pcs), Clean(1, 2), s1, 2);
    GoesOff(st, d, s1, one, 1, 2);
    var s2 := State(At(st, d, Some(2), one[2 := Process(name, true)]), s1.pcs[1 := Finished]);
    Grow(st, FirstGone(d) + [Clean(1, 2)], s1, Go(1, Some(2)), s2, 2);
    TwoAlive(s2.host, 1, 2);
  }

  function OverlappingSteps(d: Definition): seq<Action> {
    [Whole(DefineOp(d)), Look(0, d.name, Works(1), true), Look(1, d.name, Works(2), true),
     Clean(0, 2), Go(0, Some(1)), Clean(1, 2), Go(1, Some(2))]
  }

  lemma OverlappingInParts(d: Definition)
    ensures FirstGone(d) + [Clean(1, 2)] + [Go(1, Some(2))] == OverlappingSteps(d)
  {
  }

  /** Two starts at once: the second checks a VM that is shut off before the first launches it,
      and its cleanup takes away the first one's pid file. Only its check, at step 2, is out of
      order. */
  lemma OverlappingStarts(st: Store, d: Definition)
    requires ValidName(d.name)
    ensures var tr := OverlappingSteps(d);
            VmInterleaving.Run(st, tr) && OrderlyBut(st, tr, 2) && !OneLive(After(st, tr).host)
  {
    SecondGoes(st, d);
    OverlappingInParts(d);
  }

  // A query under a launch.

  /** A start that nothing else interrupts, of a VM without a pid file. */
  function StartSteps(d: Definition, tr: seq<Action>, cid: nat, pid: nat): seq<Action> {
    tr + [Look(cid, d.name, Works(pid), true)] + [Clean(cid, 2)] + [Go(cid, Some(pid))]
  }

  lemma GrowCleaned(st: Store, d: Definition, tr: seq<Action>, s: State, procs: map<int, Process>, cid: nat, pid: nat, but: nat)
    requires VmInterleaving.Run(st, tr) && After(st, tr) == s && OrderlyBut(st, tr, but) && (but < |tr| || |tr| + 2 < but)
    requires ValidName(d.name) && s.host == At(st, d, None, procs) && cid !in s.pcs && !Busy(s, d.name)
    ensures var longer := tr + [Look(cid, d.name, Works(pid), true)] + [Clean(cid, 2)];
            && VmInterleaving.Run(st, longer) && OrderlyBut(st, longer, but)
            && After(st, longer) == s.(pcs := s.pcs[cid := Cleaned(d.name)])
  {
    var look := Look(cid, d.name, Works(pid), true);
    var s1 := s.(pcs := s.pcs[cid := Checked(d.name)]);
    StartsOff(st, d, s, procs, cid, pid);
    Grow(st, tr, s, look, s1, but);
    CleansOff(st, d, s1, procs, cid);
    assert s1.pcs[cid := Cleaned(d.name)] == s.pcs[cid := Cleaned(d.name)];
    Grow(st, tr + [look], s1, Clean(cid, 2), s.(pcs := s.pcs[cid := Cleaned(d.name)]), but);
  }

  lemma GoInOrder(st: Store, s: State, s2: State, cid: nat, pid: nat, name: string)
    requires cid !in s.pcs && s2 == s.(pcs := s.pcs[cid := Cleaned(name)]) && !SweepPending(s, name) && FreshPid(s.host, pid)
    ensures Orderly(s2, st, Go(cid, Some(pid)))
  {
    assert forall c :: c in s2.pcs && s2.pcs[c].Sweeping? ==> c in s.pcs && s.pcs[c] == s2.pcs[c];
  }

  lemma GrowStart(st: Store, d: Definition, tr: seq<Action>, s: State, procs: map<int, Process>, cid: nat, pid: nat, but: nat)
    requires VmInterleaving.Run(st, tr) && After(st, tr) == s && OrderlyBut(st, tr, but) && (but < |tr| || |tr| + 2 < but)
    requires ValidName(d.name) && s.host == At(st, d, None, procs) && cid !in s.pcs
    requires !Busy(s, d.name) && !SweepPending(s, d.name) && FreshPid(s.host, pid)
    ensures var longer := StartSteps(d, tr, cid, pid);
            && VmInterleaving.Run(st, longer) && OrderlyBut(st, longer, but)
            && After(st, longer) == State(At(st, d, Some(pid), procs[pid := Process(d.name, true)]), s.pcs[cid := Finished])
  {
    GrowCleaned(st, d, tr, s, procs, cid, pid, but);
    var s2 := s.(pcs := s.pcs[cid := Cleaned(d.name)]);
    GoInOrder(st, s, s2, cid, pid, d.name);
    GoesOff(st, d, s2, procs, cid, pid);
    assert s2.pcs[cid := Finished] == s.pcs[cid := Finished];
    Grow(st, tr + [Look(cid, d.name, Works(pid), true)] + [Clean(cid, 2)], s2, Go(cid, Some(pid)),
         State(At(st, d, Some(pid), procs[pid := Process(d.name, true)]), s.pcs[cid := Finished]), but);
  }

  function Died(d: Definition): seq<Action> {
    StartSteps(d, Begun(d), 0, 1) + [Whole(Exits(1, 0))]
  }

  lemma Dies(st: Store, d: Definition)
    ensures Step(At(st, d, Some(1), map[1 := Process(d.name, true)]), st, Exits(1, 0))
         == At(st, d, Some(1), map[1 := Process(d.name, false)])
  {
  }

  /** The first QEMU dies and leaves its pid file behind. */
  lemma FirstDies(st: Store, d: Definition)
    requires ValidName(d.name)
    ensures VmInterleaving.Run(st, Died(d)) && OrderlyBut(st, Died(d), 9)
    ensures After(st, Died(d)) == State(At(st, d, Some(1), map[1 := Process(d.name, false)]), map[0 := Finished])
  {
    Begin(st, d, 9);
    GrowStart(st, d, Begun(d), State(At(st, d, None, map[]), map[]), map[], 0, 1, 9);
    Dies(st, d);
    Grow(st, StartSteps(d, Begun(d), 0, 1), State(At(st, d, Some(1), map[1 := Process(d.name, true)]), map[0 := Finished]),
         Whole(Exits(1, 0)), State(At(st, d, Some(1), map[1 := Process(d.name, false)]), map[0 := Finished]), 9);
  }

  function Stared(d: Definition): seq<Action> {
    Died(d) + [Look(9, d.name, Works(9), false)] + [Look(1, d.name, Works(2), true)]
  }

  /** A query looks at the pid file it left, and so does a start. */
  lemma BothLookStale(st: Store, d: Definition)
    requires ValidName(d.name)
    ensures VmInterleaving.Run(st, Stared(d)) && OrderlyBut(st, Stared(d), 9)
    ensures After(st, Stared(d)) == State(At(st, d, Some(1), map[1 := Process(d.name, false)]),
                                          map[0 := Finished, 9 := Sweeping(d.name, false), 1 := Sweeping(d.name, true)])
  {
    var name, dead := d.name, map[1 := Process(d.name, false)];
    var h, pcs := At(st, d, Some(1), dead), map[0 := Finished, 9 := Sweeping(name, false)];
    FirstDies(st, d);
    LooksStale(st, d, 1, dead, Works(9), false);
    Grow(st, Died(d), State(h, map[0 := Finished]), Look(9, name, Works(9), false), State(h, pcs), 9);
    LooksStale(st, d, 1, dead, Works(2), true);
    Grow(st, Died(d) + [Look(9, name, Works(9), false)], State(h, pcs), Look(1, name, Works(2), true),
         State(h, pcs[1 := Sweeping(name, true)]), 9);
  }

  function Swept(d: Definition): seq<Action> {
    Stared(d) + [Sweep(1, 2)] + [Clean(1, 2)]
  }

  /** The start sweeps and cleans up. */
  lemma StartSweeps(st: Store, d: Definition)
    requires ValidName(d.name)
    ensures VmInterleaving.Run(st, Swept(d)) && OrderlyBut(st, Swept(d), 9)
    ensures After(st, Swept(d)) == State(At(st, d, None, map[1 := Process(d.name, false)]),
                                         map[0 := Finished, 9 := Sweeping(d.name, false), 1 := Cleaned(d.name)])
  {
    var name, dead := d.name, map[1 := Process(d.name, false)];
    var pcs := map[0 := Finished, 9 := Sweeping(name, false), 1 := Sweeping(name, true)];
    var s1 := State(At(st, d, None, dead), pcs[1 := Checked(name)]);
    BothLookStale(st, d);
    SweptAway(st, d, 1, dead);
    Grow(st, Stared(d), State(At(st, d, Some(1), dead), pcs), Sweep(1, 2), s1, 9);
    CleansOff(st, d, s1, dead, 1);
    Grow(st, Stared(d) + [Sweep(1, 2)], s1, Clean(1, 2), State(At(st, d, None, dead), pcs[1 := Cleaned(name)]), 9);
  }

  function Relaunched(d: Definition): seq<Action> {
    Swept(d) + [Go(1, Some(2))] + [Sweep(9, 2)]
  }

  /** It launches QEMU again while the query has yet to sweep; then the query sweeps. */
  lemma SweptUnderneath(st: Store, d: Definition)
    requires ValidName(d.name)
    ensures VmInterleaving.Run(st, Relaunched(d)) && OrderlyBut(st, Relaunched(d), 9)
    ensures After(st, Relaunched(d)) == State(At(st, d, None, map[1 := Process(d.name, false), 2 := Process(d.name, true)]),
                                              map[0 := Finished, 9 := Finished, 1 := Finished])
  {
    var name, dead, two := d.name, map[1 := Process(d.name, false)], map[1 := Process(d.name, false), 2 := Process(d.name, true)];
    var pcs := map[0 := Finished, 9 := Sweeping(name, false), 1 := Cleaned(name)];
    var s, s1 := State(At(st, d, None, dead), pcs), State(At(st, d, Some(2), two), pcs[1 := Finished]);
    StartSweeps(st, d);
    GoesOff(st, d, s, dead, 1, 2);
    assert 9 in pcs && pcs[9] == Sweeping(name, false);
    assert SweepPending(s, name);
    Grow(st, Swept(d), s, Go(1, Some(2)), s1, 9);
    SweptAway(st, d, 2, two);
    Grow(st, Swept(d) + [Go(1, Some(2))], s1, Sweep(9, 2), State(At(st, d, None, two), s1.pcs[9 := Finished]), 9);
  }

  lemma ThirdStart(st: Store, d: Definition)
    requires ValidName(d.name)
    ensures var tr := StartSteps(d, Relaunched(d), 2, 3);
            VmInterleaving.Run(st, tr) && OrderlyBut(st, tr, 9) && !OneLive(After(st, tr).host)
  {
    var two := map[1 := Process(d.name, false), 2 := Process(d.name, true)];
    var s := State(At(st, d, None, two), map[0 := Finished, 9 := Finished, 1 := Finished]);
    SweptUnderneath(st, d);
    GrowStart(st, d, Relaunched(d), s, two, 2, 3, 9);
    TwoAlive(At(st, d, Some(3), two[3 := Process(d.name, true)]), 2, 3);
  }

  function LateSweepSteps(d: Definition): seq<Action> {
    [Whole(DefineOp(d)), Look(0, d.name, Works(1), true), Clean(0, 2), Go(0, Some(1)), Whole(Exits(1, 0)),
     Look(9, d.name, Works(9), false), Look(1, d.name, Works(2), true), Sweep(1, 2), Clean(1, 2), Go(1, Some(2)),
     Sweep(9, 2), Look(2, d.name, Works(3), true), Clean(2, 2), Go(2, Some(3))]
  }

  lemma LateSweepInParts(d: Definition)
    ensures StartSteps(d, Relaunched(d), 2, 3) == LateSweepSteps(d)
  {
  }

  /** A late sweep: a query that saw the first QEMU dead sweeps after the second was launched,
      and takes its pid file away; the next start, alone and with nothing missed, launches a
      third. Only the second launch, at step 9, is out of order: the query spans it. */
  lemma LateSweep(st: Store, d: Definition)
    requires ValidName(d.name)
    ensures var tr := LateSweepSteps(d);
            VmInterleaving.Run(st, tr) && OrderlyBut(st, tr, 9) && !OneLive(After(st, tr).host)
  {
    ThirdStart(st, d);
    LateSweepInParts(d);
  }
}
