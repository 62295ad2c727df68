/** Two writes at once, step by step in any order (src/agent/file_ops.rs). Requests on
    different channels are served concurrently, and a side file's name keeps only the stem
    of its target. */
module FileRaces {
  import opened Wrappers
  import opened Paths
  import opened FileTree
  import opened FileOps
  import opened FileLanding
  import opened FileOpsTheorems

  datatype Job = Job(target: Path, bytes: seq<nat>)

  datatype Pc = Fresh | Copied | Written | Done | Failed

  /** The tree and how far each of two writes has got. */
  datatype World = World(tree: Tree, one: Pc, two: Pc)

  datatype Jobs = Jobs(one: Job, two: Job)

  predicate Named(jobs: Jobs) {
    jobs.one.target != [] && jobs.two.target != []
  }

  function Of(jobs: Jobs, who: bool): Job {
    if who then jobs.one else jobs.two
  }

  function At2(w: World, who: bool): Pc {
    if who then w.one else w.two
  }

  function Move(w: World, who: bool, tree: Tree, pc: Pc): World {
    if who then World(tree, pc, w.two) else World(tree, w.one, pc)
  }

  /** The next step of one write. */
  function Next(w: World, jobs: Jobs, who: bool): World
    requires Named(jobs)
  {
    var job := Of(jobs, who);
    match At2(w, who)
    case Fresh =>
      (match BackedUp(w.tree, job.target)
       case None => Move(w, who, w.tree, Failed)
       case Some(t) => Move(w, who, t, Pc.Copied))
    case Copied =>
      (match OpensAt(w.tree, Side(job.target, TEMP))
       case None => Move(w, who, w.tree, Failed)
       case Some(x) => Move(w, who, w.tree[x := File(job.bytes)], Written))
    case Written =>
      (match Renaming(w.tree, Side(job.target, TEMP), job.target)
       case None => Move(w, who, w.tree, Failed)
       case Some(t) => Move(w, who, t, Done))
    case _ => w
  }

  function Run(t: Tree, jobs: Jobs, schedule: seq<bool>): World
    requires Named(jobs)
  {
    if schedule == [] then World(t, Fresh, Fresh)
    else Next(Run(t, jobs, schedule[..|schedule| - 1]), jobs, schedule[|schedule| - 1])
  }

  /** The target and its side files are plain places in existing directories. */
  ghost predicate Ready(t: Tree, p: Path) {
    Fillable(t, p) && Fillable(t, Side(p, TEMP)) && Fillable(t, Side(p, BACKUP))
  }

  /** A write that has just finished put its own bytes into its target. */
  ghost predicate Own(w: World, jobs: Jobs, who: bool)
    requires Named(jobs)
  {
    var w' := Next(w, jobs, who);
    At2(w, who).Written? && At2(w', who).Done? ==> At(w'.tree, Of(jobs, who).target) == Some(File(Of(jobs, who).bytes))
  }

  ghost predicate AlwaysOwn(t: Tree, jobs: Jobs)
    requires Named(jobs)
  {
    forall schedule: seq<bool>, who: bool :: Own(Run(t, jobs, schedule), jobs, who)
  }

  /** Neither write's temporary file is the other's temporary file or target. */
  ghost predicate Clear(jobs: Jobs)
    requires Named(jobs)
  {
    var p, q := jobs.one.target, jobs.two.target;
    Side(p, TEMP) != Side(q, TEMP) && q != Side(p, TEMP) && p != Side(q, TEMP)
  }

  // ---- Steps on plain places ------------------------------------------------------------

  lemma FillKeeps(t: Tree, x: Path, bytes: seq<nat>, y: Path)
    requires Fillable(t, x) && Fillable(t, y)
    ensures Fillable(t[x := File(bytes)], y)
  {
    forall i | 0 <= i < |y| ensures At(t[x := File(bytes)], y[..i]) == Some(Dir) {
      assert At(t, y[..i]) == Some(Dir);
    }
  }

  lemma DropKeeps(t: Tree, x: Path, y: Path)
    requires Fillable(t, x) && Fillable(t, y)
    ensures Fillable(t - {x}, y)
  {
    forall i | 0 <= i < |y| ensures At(t - {x}, y[..i]) == Some(Dir) {
      assert At(t, y[..i]) == Some(Dir);
    }
  }

  lemma Opens(t: Tree, x: Path)
    requires Fillable(t, x)
    ensures OpensAt(t, x) == Some(x) && (x in t ==> ReadThrough(t, x) == Some(t[x].bytes)) && (Exists(t, x) <==> x in t)
  {
    FillableOpens(t, x, 0, MAX_LINKS);
    assert x[..0] == [] && x[0..] == x;
    ReadsWhereItLands(t, x);
  }

  /** No backup is a temporary file. */
  lemma EndsDiffer(p: Path, q: Path)
    requires p != [] && q != []
    ensures Side(p, BACKUP) != Side(q, TEMP)
  {
    var a, b := Stem(p[|p| - 1]), Stem(q[|q| - 1]);
    assert (a + "." + BACKUP)[|a| + 1 + 11] == 'k' && (b + "." + TEMP)[|b| + 1 + 11] == 'p';
    assert Side(p, BACKUP)[|p| - 1] == a + "." + BACKUP && Side(q, TEMP)[|q| - 1] == b + "." + TEMP;
  }

  /** A backup, if one is made, is a file under the backup name. */
  lemma CopyEffect(t: Tree, p: Path) returns (bytes: seq<nat>)
    requires Ready(t, p)
    ensures BackedUp(t, p) == Some(if p in t then t[Side(p, BACKUP) := File(bytes)] else t)
  {
    BackupStep(t, p);
    Opens(t, p);
    Opens(t, Side(p, BACKUP));
    bytes := if p in t then Copy(t, p, |t[p].bytes|) else [];
  }

  lemma RenameEffect(t: Tree, p: Path)
    requires Ready(t, p) && Side(p, TEMP) in t
    ensures var side := Side(p, TEMP);
            Renaming(t, side, p) == Some(if side == p then t else (t - {side})[p := t[side]])
  {
  }

  /** The places both writes use stay plain, and a written temporary file stays as it is. */
  ghost predicate Inv(w: World, jobs: Jobs)
    requires Named(jobs)
  {
    Ready(w.tree, jobs.one.target) && Ready(w.tree, jobs.two.target) && Holds(w, jobs, true) && Holds(w, jobs, false)
  }

  ghost predicate Holds(w: World, jobs: Jobs, who: bool)
    requires Named(jobs)
  {
    var job := Of(jobs, who);
    At2(w, who).Written? ==> Side(job.target, TEMP) in w.tree && w.tree[Side(job.target, TEMP)] == File(job.bytes)
  }

  lemma FillReady(t: Tree, x: Path, bytes: seq<nat>, p: Path)
    requires Fillable(t, x) && Ready(t, p)
    ensures Ready(t[x := File(bytes)], p)
  {
    FillKeeps(t, x, bytes, p);
    FillKeeps(t, x, bytes, Side(p, TEMP));
    FillKeeps(t, x, bytes, Side(p, BACKUP));
  }

  lemma DropReady(t: Tree, x: Path, p: Path)
    requires Fillable(t, x) && Ready(t, p)
    ensures Ready(t - {x}, p)
  {
    DropKeeps(t, x, p);
    DropKeeps(t, x, Side(p, TEMP));
    DropKeeps(t, x, Side(p, BACKUP));
  }

  lemma StepCopy(w: World, jobs: Jobs, who: bool)
    requires Named(jobs) && Inv(w, jobs) && Clear(jobs) && At2(w, who).Fresh?
    ensures Inv(Next(w, jobs, who), jobs)
  {
    var p, q := Of(jobs, who).target, Of(jobs, !who).target;
    var bytes := CopyEffect(w.tree, p);
    EndsDiffer(p, q);
    EndsDiffer(p, p);
    if p in w.tree {
      FillReady(w.tree, Side(p, BACKUP), bytes, p);
      FillReady(w.tree, Side(p, BACKUP), bytes, q);
    }
  }

  lemma StepWrite(w: World, jobs: Jobs, who: bool)
    requires Named(jobs) && Inv(w, jobs) && Clear(jobs) && At2(w, who).Copied?
    ensures Inv(Next(w, jobs, who), jobs)
  {
    var p, q := Of(jobs, who).target, Of(jobs, !who).target;
    Opens(w.tree, Side(p, TEMP));
    FillReady(w.tree, Side(p, TEMP), Of(jobs, who).bytes, p);
    FillReady(w.tree, Side(p, TEMP), Of(jobs, who).bytes, q);
  }

  lemma StepRename(w: World, jobs: Jobs, who: bool)
    requires Named(jobs) && Inv(w, jobs) && Clear(jobs) && At2(w, who).Written?
    ensures Inv(Next(w, jobs, who), jobs) && Own(w, jobs, who)
  {
    var p, q, side := Of(jobs, who).target, Of(jobs, !who).target, Side(Of(jobs, who).target, TEMP);
    RenameEffect(w.tree, p);
    if side != p {
      DropReady(w.tree, side, p);
      DropReady(w.tree, side, q);
      FillReady(w.tree - {side}, p, Of(jobs, who).bytes, p);
      FillReady(w.tree - {side}, p, Of(jobs, who).bytes, q);
    }
  }

  lemma StepInv(w: World, jobs: Jobs, who: bool)
    requires Named(jobs) && Inv(w, jobs) && Clear(jobs)
    ensures Inv(Next(w, jobs, who), jobs) && Own(w, jobs, who)
  {
    match At2(w, who)
    case Fresh => StepCopy(w, jobs, who);
    case Copied => StepWrite(w, jobs, who);
    case Written => StepRename(w, jobs, who);
    case _ =>
  }

  lemma {:induction false} RunInv(t: Tree, jobs: Jobs, schedule: seq<bool>)
    requires Ready(t, jobs.one.target) && Ready(t, jobs.two.target) && Clear(jobs)
    ensures Inv(Run(t, jobs, schedule), jobs)
  {
    if schedule != [] {
      RunInv(t, jobs, schedule[..|schedule| - 1]);
      StepInv(Run(t, jobs, schedule[..|schedule| - 1]), jobs, schedule[|schedule| - 1]);
    }
  }

  // ---- Schedules that mix the writes up ------------------------------------------------------

  lemma Longer(t: Tree, jobs: Jobs, schedule: seq<bool>, who: bool)
    requires Named(jobs)
    ensures Run(t, jobs, schedule + [who]) == Next(Run(t, jobs, schedule), jobs, who)
  {
    assert (schedule + [who])[..|schedule|] == schedule;
  }

  /** One write taken up to its temporary file. */
  lemma UpToTemp(t: Tree, jobs: Jobs, schedule: seq<bool>, who: bool) returns (longer: seq<bool>)
    requires Named(jobs)
    requires var w := Run(t, jobs, schedule);
             Ready(w.tree, jobs.one.target) && Ready(w.tree, jobs.two.target) && At2(w, who).Fresh?
    ensures var w, w' := Run(t, jobs, schedule), Run(t, jobs, longer);
            var side := Side(Of(jobs, who).target, TEMP);
            && Ready(w'.tree, jobs.one.target) && Ready(w'.tree, jobs.two.target)
            && At2(w', who).Written? && At2(w', !who) == At2(w, !who)
            && side in w'.tree && w'.tree[side] == File(Of(jobs, who).bytes)
  {
    var w := Run(t, jobs, schedule);
    CopyStaysReady(w, jobs, who);
    Longer(t, jobs, schedule, who);
    TempStaysReady(Next(w, jobs, who), jobs, who);
    Longer(t, jobs, schedule + [who], who);
    longer := schedule + [who] + [who];
  }

  lemma CopyStaysReady(w: World, jobs: Jobs, who: bool)
    requires Named(jobs) && Ready(w.tree, jobs.one.target) && Ready(w.tree, jobs.two.target) && At2(w, who).Fresh?
    ensures var w' := Next(w, jobs, who);
            && Ready(w'.tree, jobs.one.target) && Ready(w'.tree, jobs.two.target)
            && At2(w', who).Copied? && At2(w', !who) == At2(w, !who)
  {
    var p, q := Of(jobs, who).target, Of(jobs, !who).target;
    var bytes := CopyEffect(w.tree, p);
    if p in w.tree {
      FillReady(w.tree, Side(p, BACKUP), bytes, p);
      FillReady(w.tree, Side(p, BACKUP), bytes, q);
    }
  }

  lemma TempStaysReady(w: World, jobs: Jobs, who: bool)
    requires Named(jobs) && Ready(w.tree, jobs.one.target) && Ready(w.tree, jobs.two.target) && At2(w, who).Copied?
    ensures var w', side := Next(w, jobs, who), Side(Of(jobs, who).target, TEMP);
            && Ready(w'.tree, jobs.one.target) && Ready(w'.tree, jobs.two.target)
            && At2(w', who).Written? && At2(w', !who) == At2(w, !who)
            && side in w'.tree && w'.tree[side] == File(Of(jobs, who).bytes)
  {
    var p, q := Of(jobs, who).target, Of(jobs, !who).target;
    Opens(w.tree, Side(p, TEMP));
    FillReady(w.tree, Side(p, TEMP), Of(jobs, who).bytes, p);
    FillReady(w.tree, Side(p, TEMP), Of(jobs, who).bytes, q);
  }

  /** If the temporary file of a written job holds other bytes, the rename puts them into its target. */
  lemma WrongBytes(t: Tree, jobs: Jobs, schedule: seq<bool>, who: bool)
    requires Named(jobs)
    requires var w, side := Run(t, jobs, schedule), Side(Of(jobs, who).target, TEMP);
             && Ready(w.tree, Of(jobs, who).target) && At2(w, who).Written?
             && side in w.tree && w.tree[side] != File(Of(jobs, who).bytes)
    ensures !AlwaysOwn(t, jobs)
  {
    var w := Run(t, jobs, schedule);
    RenameEffect(w.tree, Of(jobs, who).target);
    assert !Own(w, jobs, who);
  }

  lemma SameTempMixes(t: Tree, jobs: Jobs)
    requires Ready(t, jobs.one.target) && Ready(t, jobs.two.target) && jobs.one.bytes != jobs.two.bytes
    requires Side(jobs.one.target, TEMP) == Side(jobs.two.target, TEMP)
    ensures !AlwaysOwn(t, jobs)
  {
    var first := UpToTemp(t, jobs, [], true);
    var both := UpToTemp(t, jobs, first, false);
    WrongBytes(t, jobs, both, true);
  }

  lemma TargetIsTempMixes(t: Tree, jobs: Jobs, who: bool)
    requires Ready(t, jobs.one.target) && Ready(t, jobs.two.target) && jobs.one.bytes != jobs.two.bytes
    requires Of(jobs, !who).target == Side(Of(jobs, who).target, TEMP)
    ensures !AlwaysOwn(t, jobs)
  {
    var first := UpToTemp(t, jobs, [], who);
    var both := UpToTemp(t, jobs, first, !who);
    var w, q := Run(t, jobs, both), Of(jobs, !who).target;
    var side := Side(q, TEMP);
    RenameEffect(w.tree, q);
    Longer(t, jobs, both, !who);
    var p := Of(jobs, who).target;
    if side != q {
      DropReady(w.tree, side, p);
      FillReady(w.tree - {side}, q, Of(jobs, !who).bytes, p);
    }
    WrongBytes(t, jobs, both + [!who], who);
  }

  /** Over all interleavings of two writes of different bytes: each that finishes puts its own
      bytes into its target if and only if neither's temporary file is the other's temporary
      file or target. Two files that differ only in their extension share a temporary file. */
  lemma OwnBytesExactly(t: Tree, jobs: Jobs)
    requires Ready(t, jobs.one.target) && Ready(t, jobs.two.target) && jobs.one.bytes != jobs.two.bytes
    ensures AlwaysOwn(t, jobs) <==> Clear(jobs)
  {
    if Clear(jobs) {
      forall schedule: seq<bool>, who: bool ensures Own(Run(t, jobs, schedule), jobs, who) {
        RunInv(t, jobs, schedule);
        StepInv(Run(t, jobs, schedule), jobs, who);
      }
    } else if Side(jobs.one.target, TEMP) == Side(jobs.two.target, TEMP) {
      SameTempMixes(t, jobs);
    } else if jobs.two.target == Side(jobs.one.target, TEMP) {
      TargetIsTempMixes(t, jobs, true);
    } else {
      TargetIsTempMixes(t, jobs, false);
    }
  }

  lemma SameStem(dir: Path)
    ensures Side(dir + ["a.txt"], TEMP) == Side(dir + ["a.conf"], TEMP)
  {
    StemOf("a", "txt");
    StemOf("a", "conf");
    assert "a" + "." + "txt" == "a.txt" && "a" + "." + "conf" == "a.conf";
    assert (dir + ["a.txt"])[..|dir|] == dir == (dir + ["a.conf"])[..|dir|];
  }

  /** `a.txt` and `a.conf` in one directory. */
  lemma SameStemMixes(dir: Path, one: seq<nat>, two: seq<nat>, t: Tree)
    requires one != two && Ready(t, dir + ["a.txt"]) && Ready(t, dir + ["a.conf"])
    ensures !AlwaysOwn(t, Jobs(Job(dir + ["a.txt"], one), Job(dir + ["a.conf"], two)))
  {
    SameStem(dir);
    SameTempMixes(t, Jobs(Job(dir + ["a.txt"], one), Job(dir + ["a.conf"], two)));
  }
}
