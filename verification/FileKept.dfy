/** Whether a write that has finished keeps its bytes while another goes on (src/agent/file_ops.rs). */
module FileKept {
  import opened Wrappers
  import opened Paths
  import opened FileTree
  import opened FileOps
  import opened FileOpsTheorems
  import opened FileRaces

  /** A write that has finished finds its own bytes in its target. */
  ghost predicate Kept(w: World, jobs: Jobs, who: bool)
    requires Named(jobs)
  {
    At2(w, who).Done? ==> At(w.tree, Of(jobs, who).target) == Some(File(Of(jobs, who).bytes))
  }

  /** At every point of every interleaving, from its end on. */
  ghost predicate AlwaysKept(t: Tree, jobs: Jobs)
    requires Named(jobs)
  {
    forall schedule: seq<bool>, who: bool :: Kept(Run(t, jobs, schedule), jobs, who)
  }

  /** The target of this write is where the other one backs up an existing file of other bytes. */
  ghost predicate BackedOver(t: Tree, jobs: Jobs, who: bool)
    requires Named(jobs)
  {
    var p, q := Of(jobs, who).target, Of(jobs, !who).target;
    p == Side(q, BACKUP) && q in t && t[q] != File(Of(jobs, who).bytes)
  }

  // ---- What a backup writes ------------------------------------------------------------

  lemma StemNonempty(name: string)
    requires name != ""
    ensures Stem(name) != ""
  {
  }

  /** A backup's own backup is itself. */
  lemma BackupOfBackup(q: Path)
    requires q != [] && q[|q| - 1] != ""
    ensures Side(Side(q, BACKUP), BACKUP) == Side(q, BACKUP)
  {
    var stem := Stem(q[|q| - 1]);
    StemNonempty(q[|q| - 1]);
    StemOf(stem, BACKUP);
  }

  /** Two files are not each other's backup. */
  lemma NotMutual(p: Path, q: Path)
    requires p != [] && q != [] && p != q && p == Side(q, BACKUP)
    ensures Side(p, BACKUP) != q
  {
    if q[|q| - 1] != "" {
      BackupOfBackup(q);
    }
  }

  /** A backup under another name holds the file's bytes. */
  lemma CopiesBytes(t: Tree, q: Path)
    requires Ready(t, q) && q in t && Side(q, BACKUP) != q
    ensures BackedUp(t, q) == Some(t[Side(q, BACKUP) := t[q]])
  {
    BackupStep(t, q);
    Opens(t, q);
    Opens(t, Side(q, BACKUP));
    assert t[q].bytes[..|t[q].bytes|] == t[q].bytes;
  }

  // ---- Kept ------------------------------------------------------------------------------

  /** A file that the other write will back up over this target is still as it was. */
  ghost predicate Untouched(t: Tree, w: World, jobs: Jobs, who: bool)
    requires Named(jobs)
  {
    var p, q := Of(jobs, who).target, Of(jobs, !who).target;
    p == Side(q, BACKUP) && At2(w, !who).Fresh? ==> At(w.tree, q) == At(t, q)
  }

  ghost predicate KeptInv(t: Tree, w: World, jobs: Jobs)
    requires Named(jobs)
  {
    && Inv(w, jobs)
    && Kept(w, jobs, true) && Kept(w, jobs, false) && Untouched(t, w, jobs, true) && Untouched(t, w, jobs, false)
  }

  lemma EitherWay(t: Tree, w: World, jobs: Jobs, who: bool)
    requires Named(jobs) && Inv(w, jobs)
    requires Kept(w, jobs, who) && Kept(w, jobs, !who) && Untouched(t, w, jobs, who) && Untouched(t, w, jobs, !who)
    ensures KeptInv(t, w, jobs)
  {
  }

  /** The moving write's copy leaves the other's target its bytes. */
  lemma CopyKeeps(t: Tree, w: World, jobs: Jobs, who: bool)
    requires Named(jobs) && Clear(jobs) && KeptInv(t, w, jobs) && At2(w, who).Fresh? && !BackedOver(t, jobs, !who)
    ensures Kept(Next(w, jobs, who), jobs, !who)
  {
    var p, q := Of(jobs, who).target, Of(jobs, !who).target;
    var bytes := CopyEffect(w.tree, p);
    if p in w.tree && q == Side(p, BACKUP) {
      CopiesBytes(w.tree, p);
    }
  }

  ghost predicate Same(w: World, w': World, jobs: Jobs, who: bool) {
    At(w'.tree, Of(jobs, who).target) == At(w.tree, Of(jobs, who).target) && At2(w', who) == At2(w, who)
  }

  lemma StillUntouched(t: Tree, w: World, w': World, jobs: Jobs, who: bool)
    requires Named(jobs) && Untouched(t, w, jobs, who) && Same(w, w', jobs, !who)
    ensures Untouched(t, w', jobs, who)
  {
  }

  lemma Apart(jobs: Jobs, who: bool)
    requires Named(jobs) && Clear(jobs)
    ensures var p, q := Of(jobs, who).target, Of(jobs, !who).target;
            p != q && (p == Side(q, BACKUP) ==> Side(p, BACKUP) != q)
  {
    var p, q := Of(jobs, who).target, Of(jobs, !who).target;
    if p == Side(q, BACKUP) {
      NotMutual(p, q);
    }
  }

  /** A write's steps leave the other's target alone before the other has begun, unless it is
      where the write backs up. */
  lemma OtherTarget(w: World, jobs: Jobs, who: bool)
    requires Named(jobs) && Clear(jobs) && Inv(w, jobs) && Side(Of(jobs, who).target, BACKUP) != Of(jobs, !who).target
    ensures Same(w, Next(w, jobs, who), jobs, !who)
  {
    var p := Of(jobs, who).target;
    match At2(w, who) {
      case Fresh => var bytes := CopyEffect(w.tree, p);
      case Copied => Opens(w.tree, Side(p, TEMP));
      case Written => RenameEffect(w.tree, p);
      case _ =>
    }
  }

  lemma LeavesAlone(t: Tree, w: World, jobs: Jobs, who: bool)
    requires Named(jobs) && Clear(jobs) && Inv(w, jobs) && Untouched(t, w, jobs, who)
    ensures Untouched(t, Next(w, jobs, who), jobs, who)
  {
    Apart(jobs, who);
    if Of(jobs, who).target == Side(Of(jobs, !who).target, BACKUP) {
      OtherTarget(w, jobs, who);
      StillUntouched(t, w, Next(w, jobs, who), jobs, who);
    }
  }

  /** The steps of a write past its copy keep the other's target. */
  lemma LaterKeeps(t: Tree, w: World, jobs: Jobs, who: bool)
    requires Named(jobs) && Clear(jobs) && KeptInv(t, w, jobs) && !At2(w, who).Fresh?
    ensures Kept(Next(w, jobs, who), jobs, !who)
  {
    var p := Of(jobs, who).target;
    match At2(w, who) {
      case Copied => Opens(w.tree, Side(p, TEMP));
      case Written => RenameEffect(w.tree, p);
      case _ =>
    }
  }

  lemma OwnIsKept(w: World, jobs: Jobs, who: bool)
    requires Named(jobs) && Own(w, jobs, who) && Kept(w, jobs, who)
    ensures Kept(Next(w, jobs, who), jobs, who)
  {
  }

  lemma Moved(t: Tree, w: World, jobs: Jobs, who: bool)
    requires Named(jobs)
    ensures Untouched(t, Next(w, jobs, who), jobs, !who)
  {
  }

  lemma KeptStep(t: Tree, w: World, jobs: Jobs, who: bool)
    requires Named(jobs) && Clear(jobs) && KeptInv(t, w, jobs) && !BackedOver(t, jobs, !who)
    ensures KeptInv(t, Next(w, jobs, who), jobs)
  {
    StepInv(w, jobs, who);
    OwnIsKept(w, jobs, who);
    LeavesAlone(t, w, jobs, who);
    Moved(t, w, jobs, who);
    if At2(w, who).Fresh? {
      CopyKeeps(t, w, jobs, who);
    } else {
      LaterKeeps(t, w, jobs, who);
    }
    EitherWay(t, Next(w, jobs, who), jobs, who);
  }

  lemma {:induction false} KeptRun(t: Tree, jobs: Jobs, schedule: seq<bool>)
    requires Ready(t, jobs.one.target) && Ready(t, jobs.two.target) && Clear(jobs)
    requires !BackedOver(t, jobs, true) && !BackedOver(t, jobs, false)
    ensures KeptInv(t, Run(t, jobs, schedule), jobs)
  {
    if schedule != [] {
      KeptRun(t, jobs, schedule[..|schedule| - 1]);
      KeptStep(t, Run(t, jobs, schedule[..|schedule| - 1]), jobs, schedule[|schedule| - 1]);
    }
  }

  // ---- Lost ---------------------------------------------------------------------------------

  lemma ThreeSteps(t: Tree, jobs: Jobs, who: bool)
    requires Named(jobs)
    ensures Run(t, jobs, [who, who, who]) == Next(Next(Next(World(t, Fresh, Fresh), jobs, who), jobs, who), jobs, who)
  {
    Longer(t, jobs, [], who);
    Longer(t, jobs, [who], who);
    Longer(t, jobs, [who, who], who);
    assert [] + [who] == [who] && [who] + [who] == [who, who] && [who, who] + [who] == [who, who, who];
  }

  /** One write has ended, the other has not begun, and its target is as it was. */
  ghost predicate Ahead(t: Tree, w: World, jobs: Jobs, who: bool)
    requires Named(jobs)
  {
    At2(w, who).Done? && At2(w, !who).Fresh? && Ready(w.tree, Of(jobs, !who).target) && Untouched(t, w, jobs, who)
  }

  /** One write from start to end, while the other has not begun. */
  lemma FirstSteps(t: Tree, jobs: Jobs, who: bool)
    requires Ready(t, jobs.one.target) && Ready(t, jobs.two.target) && Clear(jobs)
    ensures var w1 := Next(World(t, Fresh, Fresh), jobs, who); var w2 := Next(w1, jobs, who); var w3 := Next(w2, jobs, who);
            Ahead(t, w3, jobs, who)
  {
    var w := World(t, Fresh, Fresh);
    var w1 := Next(w, jobs, who);
    var w2 := Next(w1, jobs, who);
    var p := Of(jobs, who).target;
    var bytes := CopyEffect(w.tree, p);
    StepInv(w, jobs, who);
    LeavesAlone(t, w, jobs, who);
    Opens(w1.tree, Side(p, TEMP));
    StepInv(w1, jobs, who);
    LeavesAlone(t, w1, jobs, who);
    RenameEffect(w2.tree, p);
    StepInv(w2, jobs, who);
    LeavesAlone(t, w2, jobs, who);
  }

  /** The other write's backup takes the place of the bytes. */
  lemma TakesOver(t: Tree, w: World, jobs: Jobs, who: bool)
    requires Named(jobs) && Clear(jobs) && BackedOver(t, jobs, who) && Ahead(t, w, jobs, who)
    ensures !Kept(Next(w, jobs, !who), jobs, who)
  {
    Apart(jobs, who);
    CopiesBytes(w.tree, Of(jobs, !who).target);
  }

  lemma FirstRun(t: Tree, jobs: Jobs, who: bool)
    requires Ready(t, jobs.one.target) && Ready(t, jobs.two.target) && Clear(jobs)
    ensures Ahead(t, Run(t, jobs, [who, who, who]), jobs, who)
  {
    FirstSteps(t, jobs, who);
    ThreeSteps(t, jobs, who);
  }

  lemma LostThen(t: Tree, jobs: Jobs, schedule: seq<bool>, who: bool)
    requires Named(jobs) && !Kept(Next(Run(t, jobs, schedule), jobs, !who), jobs, who)
    ensures !AlwaysKept(t, jobs)
  {
    Longer(t, jobs, schedule, !who);
    assert !Kept(Run(t, jobs, schedule + [!who]), jobs, who);
  }

  lemma BackupTakesOver(t: Tree, jobs: Jobs, who: bool)
    requires Ready(t, jobs.one.target) && Ready(t, jobs.two.target) && Clear(jobs) && BackedOver(t, jobs, who)
    ensures !AlwaysKept(t, jobs)
  {
    var schedule := [who, who, who];
    FirstRun(t, jobs, who);
    TakesOver(t, Run(t, jobs, schedule), jobs, who);
    LostThen(t, jobs, schedule, who);
  }

  lemma KeptIsOwn(t: Tree, jobs: Jobs)
    requires Named(jobs) && AlwaysKept(t, jobs)
    ensures AlwaysOwn(t, jobs)
  {
    forall schedule: seq<bool>, who: bool ensures Own(Run(t, jobs, schedule), jobs, who) {
      Longer(t, jobs, schedule, who);
      assert Kept(Run(t, jobs, schedule + [who]), jobs, who);
    }
  }

  /** Over all interleavings of two writes of different bytes: each that finishes finds its own
      bytes in its target from then on if and only if neither's temporary file is the other's
      temporary file or target, and neither's target is where the other backs up an existing
      file of other bytes. */
  lemma KeptExactly(t: Tree, jobs: Jobs)
    requires Ready(t, jobs.one.target) && Ready(t, jobs.two.target) && jobs.one.bytes != jobs.two.bytes
    ensures AlwaysKept(t, jobs) <==> Clear(jobs) && !BackedOver(t, jobs, true) && !BackedOver(t, jobs, false)
  {
    OwnBytesExactly(t, jobs);
    if !Clear(jobs) {
      if AlwaysKept(t, jobs) {
        KeptIsOwn(t, jobs);
      }
    } else if BackedOver(t, jobs, true) {
      BackupTakesOver(t, jobs, true);
    } else if BackedOver(t, jobs, false) {
      BackupTakesOver(t, jobs, false);
    } else {
      forall schedule: seq<bool>, who: bool ensures Kept(Run(t, jobs, schedule), jobs, who) {
        KeptRun(t, jobs, schedule);
      }
    }
  }

  lemma BackupName(dir: Path)
    ensures Side(dir + ["a.txt"], BACKUP) == dir + ["a.guestkit-bak"]
  {
    StemOf("a", "txt");
    assert "a" + "." + "txt" == "a.txt" && "a" + "." + BACKUP == "a.guestkit-bak";
    assert (dir + ["a.txt"])[..|dir|] == dir;
  }

  /** `a.guestkit-bak` written next to an existing `a.txt` that is being replaced. */
  lemma BackupNameLosesBytes(dir: Path, one: seq<nat>, two: seq<nat>, t: Tree)
    requires one != two && Ready(t, dir + ["a.guestkit-bak"]) && Ready(t, dir + ["a.txt"])
    requires dir + ["a.txt"] in t && t[dir + ["a.txt"]] != File(one)
    ensures !AlwaysKept(t, Jobs(Job(dir + ["a.guestkit-bak"], one), Job(dir + ["a.txt"], two)))
  {
    var jobs := Jobs(Job(dir + ["a.guestkit-bak"], one), Job(dir + ["a.txt"], two));
    BackupName(dir);
    assert BackedOver(t, jobs, true);
    KeptExactly(t, jobs);
  }
}
