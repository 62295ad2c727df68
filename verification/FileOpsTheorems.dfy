/** Confinement and atomicity of writes, over every tree and wherever a write stops. */
module FileOpsTheorems {
  import opened Wrappers
  import opened FileTree
  import opened FileOps
  import opened FileLanding

  // ---- The steps, by where they land --------------------------------------------------

  lemma SideFacts(p: Path, ext: string)
    requires p != [] && (ext == BACKUP || ext == TEMP)
    ensures SameDirectory(p, Side(p, ext)) && forall i :: 0 <= i < |p| ==> Side(p, ext)[..i] == p[..i]
    ensures var name := Side(p, ext)[|p| - 1]; |name| >= 13
  {
    forall i | 0 <= i < |p| ensures Side(p, ext)[..i] == p[..i] {
      assert Side(p, ext)[..|p| - 1] == p[..|p| - 1];
      assert Side(p, ext)[..i] == Side(p, ext)[..|p| - 1][..i] && p[..i] == p[..|p| - 1][..i];
    }
  }

  lemma SideWritable(t: Tree, p: Path, ext: string)
    requires Writable(t, p) && (ext == BACKUP || ext == TEMP)
    ensures Writable(t, Side(p, ext)) && SameDirectory(p, Side(p, ext))
  {
    SideFacts(p, ext);
  }

  /** What the backup file holds `n` bytes into the copy; a file copied onto itself is emptied. */
  ghost function Copy(t: Tree, p: Path, n: nat): seq<nat>
    requires p != [] && Copies(t, p)
  {
    var source := ReadThrough(t, p).value;
    if OpensAt(t, Side(p, BACKUP)) == OpensAt(t, p) then [] else Partly(source, n).bytes
  }

  lemma CopyStep(t: Tree, p: Path, n: nat)
    requires p != []
    ensures AfterCopy(t, p, n)
         == if Copies(t, p) then Some(t[OpensAt(t, Side(p, BACKUP)).value := File(Copy(t, p, n))]) else None
  {
    ReadsWhereItLands(t, p);
  }

  /** The tree once the backup, if any, is made. */
  ghost function Backed(t: Tree, p: Path): Tree
    requires p != [] && (Exists(t, p) ==> Copies(t, p))
  {
    if Exists(t, p) then t[OpensAt(t, Side(p, BACKUP)).value := File(Copy(t, p, |ReadThrough(t, p).value|))] else t
  }

  lemma BackupStep(t: Tree, p: Path)
    requires p != []
    ensures BackedUp(t, p) == if Exists(t, p) ==> Copies(t, p) then Some(Backed(t, p)) else None
    ensures (Exists(t, p) ==> Copies(t, p)) ==> forall q :: OpensAt(Backed(t, p), q) == OpensAt(t, q)
  {
    if Exists(t, p) {
      CopyStep(t, p, |if ReadThrough(t, p).Some? then ReadThrough(t, p).value else []|);
      if Copies(t, p) {
        var b := OpensAt(t, Side(p, BACKUP)).value;
        OpensFillable(t, Side(p, BACKUP));
        forall q ensures OpensAt(Backed(t, p), q) == OpensAt(t, q) {
          SeenWhereItLands(t, b, Copy(t, p, |ReadThrough(t, p).value|), q);
        }
      }
    }
  }

  /** The temporary file lands where it would have before the backup. */
  lemma TempStep(t: Tree, p: Path, bytes: seq<nat>, n: nat)
    requires p != []
    ensures AfterTemp(t, p, bytes, n)
         == if Reaches(t, p) then Some(Backed(t, p)[OpensAt(t, Side(p, TEMP)).value := Partly(bytes, n)]) else None
  {
    BackupStep(t, p);
  }

  /** The rename always goes through: the temporary file is there and the target is no directory. */
  lemma RenameStep(t: Tree, p: Path, bytes: seq<nat>)
    requires Writable(t, p)
    ensures TreeAt(t, p, bytes, Renamed).Some? <==> Reaches(t, p)
    ensures Reaches(t, p) ==>
              var side, t2 := Side(p, TEMP), AfterTemp(t, p, bytes, |bytes|).value;
              && side in t2 && (IsLink(t, side) ==> t2[side] == t[side]) && (!IsLink(t, side) ==> t2[side] == File(bytes))
              && TreeAt(t, p, bytes, Renamed) == Some(if side == p then t2 else (t2 - {side})[p := t2[side]])
  {
    TempStep(t, p, bytes, |bytes|);
    if Reaches(t, p) {
      var side, t2 := Side(p, TEMP), AfterTemp(t, p, bytes, |bytes|).value;
      SideWritable(t, p, TEMP);
      OpensThere(t, side);
      OpensFillable(t, side);
      KeepsDirectoriesAndLinks(t, p, bytes);
      assert Partly(bytes, |bytes|) == File(bytes);
      if At(t, p) == Some(Dir) {
        DirectoryTarget(t, p);
      }
    }
  }

  /** Up to the rename, a write neither makes nor removes directories and links. */
  lemma KeepsDirectoriesAndLinks(t: Tree, p: Path, bytes: seq<nat>)
    requires p != [] && Reaches(t, p)
    ensures AfterTemp(t, p, bytes, |bytes|).Some?
    ensures var t2 := AfterTemp(t, p, bytes, |bytes|).value;
            forall q :: (At(t2, q) == Some(Dir) <==> At(t, q) == Some(Dir)) && (IsLink(t, q) ==> q in t2 && t2[q] == t[q])
  {
    TempStep(t, p, bytes, |bytes|);
    OpensFillable(t, Side(p, TEMP));
    if Exists(t, p) {
      OpensFillable(t, Side(p, BACKUP));
    }
  }

  lemma DirectoryTarget(t: Tree, p: Path)
    requires Writable(t, p) && At(t, p) == Some(Dir)
    ensures !Reaches(t, p)
  {
    if OpensAt(t, Side(p, TEMP)).Some? {
      SideWritable(t, p, TEMP);
      ReachedDirectories(t, Side(p, TEMP), 0, MAX_LINKS);
      var side := Side(p, TEMP);
      assert side[..0] == [] && side[0..] == side;
      SideFacts(p, TEMP);
      assert Canonical(t, p);
      CanonicalResolves(t, p, 0, MAX_LINKS);
      assert p[..0] == [] && p[0..] == p;
    }
  }

  // ---- What a write may change ----------------------------------------------------------

  ghost predicate OnlyChanges(t: Tree, t': Tree, paths: set<Path>) {
    forall q :: q !in paths ==> At(t', q) == At(t, q)
  }

  /** The places a write can touch: where its side files land, the temporary name and the target. */
  ghost function Touched(t: Tree, p: Path): set<Path>
    requires p != []
  {
    (if Exists(t, p) && Copies(t, p) then {OpensAt(t, Side(p, BACKUP)).value} else {})
    + (if Reaches(t, p) then {OpensAt(t, Side(p, TEMP)).value, Side(p, TEMP), p} else {})
  }

  /** Over every tree: wherever it stops, a write changes only those places. */
  lemma WriteChanges(t: Tree, p: Path, bytes: seq<nat>, stop: Stop)
    requires Writable(t, p) && TreeAt(t, p, bytes, stop).Some?
    ensures OnlyChanges(t, TreeAt(t, p, bytes, stop).value, Touched(t, p))
  {
    match stop
    case Started =>
    case Copying(n) => CopyStep(t, p, n);
    case Copied => BackupStep(t, p);
    case Writing(n) => TempStep(t, p, bytes, n);
    case Renamed =>
      RenameStep(t, p, bytes);
      TempStep(t, p, bytes, |bytes|);
  }

  /** Some resolved prefix lies above. */
  ghost predicate Inside(region: set<Path>, q: Path) {
    exists prefix :: prefix in region && prefix <= q
  }

  /** At every stop, whatever the bytes, all that has changed is inside. */
  ghost predicate Confined(t: Tree, p: Path, region: set<Path>)
    requires p != []
  {
    forall bytes, stop, q :: Changed(t, p, bytes, stop, q) ==> Inside(region, q)
  }

  ghost predicate Changed(t: Tree, p: Path, bytes: seq<nat>, stop: Stop, q: Path)
    requires p != []
  {
    TreeAt(t, p, bytes, stop).Some? && At(TreeAt(t, p, bytes, stop).value, q) != At(t, q)
  }

  /** The backup copies an empty file over an empty file. */
  ghost predicate NothingCopied(t: Tree, p: Path)
    requires p != [] && Copies(t, p)
  {
    ReadThrough(t, p) == Some([]) && At(t, OpensAt(t, Side(p, BACKUP)).value) == Some(File([]))
  }

  /** Each step that is taken lands inside. */
  ghost predicate StepsLandInside(t: Tree, p: Path, region: set<Path>)
    requires p != []
  {
    && (Exists(t, p) && Copies(t, p) && !NothingCopied(t, p) ==> Inside(region, OpensAt(t, Side(p, BACKUP)).value))
    && (Reaches(t, p) ==> Inside(region, OpensAt(t, Side(p, TEMP)).value) && Inside(region, Side(p, TEMP)))
  }

  lemma LandingInsideConfines(t: Tree, p: Path, region: set<Path>, bytes: seq<nat>, stop: Stop, q: Path)
    requires Writable(t, p) && Inside(region, p) && StepsLandInside(t, p, region) && Changed(t, p, bytes, stop, q)
    ensures Inside(region, q)
  {
    WriteChanges(t, p, bytes, stop);
    assert q in Touched(t, p);
    if Exists(t, p) && Copies(t, p) && NothingCopied(t, p) {
      EmptyCopyChanges(t, p, bytes, stop);
    }
  }

  lemma EmptyCopyChanges(t: Tree, p: Path, bytes: seq<nat>, stop: Stop)
    requires Writable(t, p) && Exists(t, p) && Copies(t, p) && NothingCopied(t, p) && TreeAt(t, p, bytes, stop).Some?
    ensures OnlyChanges(t, TreeAt(t, p, bytes, stop).value,
              if Reaches(t, p) then {OpensAt(t, Side(p, TEMP)).value, Side(p, TEMP), p} else {})
  {
    OpensFillable(t, Side(p, BACKUP));
    forall n ensures Copy(t, p, n) == [] { }
    match stop
    case Started =>
    case Copying(n) => CopyStep(t, p, n);
    case Copied => BackupStep(t, p);
    case Writing(n) => TempStep(t, p, bytes, n);
    case Renamed =>
      RenameStep(t, p, bytes);
      TempStep(t, p, bytes, |bytes|);
  }

  /** A copy that is not empty onto empty shows at its landing place at some point. */
  lemma CopyShows(t: Tree, p: Path) returns (n: nat)
    requires p != [] && Exists(t, p) && Copies(t, p) && !NothingCopied(t, p)
    ensures Changed(t, p, [], Copying(n), OpensAt(t, Side(p, BACKUP)).value)
  {
    var b := OpensAt(t, Side(p, BACKUP)).value;
    OpensFillable(t, Side(p, BACKUP));
    ReadsWhereItLands(t, p);
    n := if At(t, b) == Some(File([])) then 1 else 0;
    CopyStep(t, p, n);
  }

  lemma TempShows(t: Tree, p: Path) returns (bytes: seq<nat>)
    requires p != [] && Reaches(t, p)
    ensures Changed(t, p, bytes, Writing(1), OpensAt(t, Side(p, TEMP)).value)
  {
    var l := OpensAt(t, Side(p, TEMP)).value;
    OpensFillable(t, Side(p, TEMP));
    bytes := if At(t, l) == Some(File([0])) then [1] else [0];
    TempStep(t, p, bytes, 1);
  }

  lemma RenameShows(t: Tree, p: Path)
    requires Writable(t, p) && Reaches(t, p) && IsLink(t, Side(p, TEMP)) && Side(p, TEMP) != p
    ensures Changed(t, p, [], Renamed, Side(p, TEMP))
  {
    RenameStep(t, p, []);
  }

  /** Over every tree and every authorised target: at every stop all changes lie under
      the allowed prefixes if and only if every step that is taken lands under them. */
  lemma ConfinedExactly(t: Tree, p: Path, region: set<Path>)
    requires Writable(t, p) && Inside(region, p)
    ensures Confined(t, p, region) <==> StepsLandInside(t, p, region)
  {
    if StepsLandInside(t, p, region) {
      forall bytes, stop, q | Changed(t, p, bytes, stop, q) ensures Inside(region, q) {
        LandingInsideConfines(t, p, region, bytes, stop, q);
      }
    }
    if Confined(t, p, region) {
      if Exists(t, p) && Copies(t, p) && !NothingCopied(t, p) {
        var n := CopyShows(t, p);
      }
      if Reaches(t, p) {
        var bytes := TempShows(t, p);
        SideWritable(t, p, TEMP);
        OpensThere(t, Side(p, TEMP));
        if IsLink(t, Side(p, TEMP)) && Side(p, TEMP) != p {
          RenameShows(t, p);
        }
      }
    }
  }

  /** The resolved allowed prefixes. */
  ghost function Region(t: Tree, cwd: Path, allowed: seq<RawPath>): set<Path> {
    set raw | raw in allowed && Canonicalize(t, cwd, raw).Some? :: Canonicalize(t, cwd, raw).value
  }

  /** End to end: an authorised write stays inside the allowed prefixes exactly when its
      side files land inside them. */
  lemma AuthorizedWriteConfined(t: Tree, cwd: Path, allowed: seq<RawPath>, r: RawPath)
    requires Canonical(t, cwd) && AuthorizePath(t, cwd, allowed, r, true).Some?
    requires AuthorizePath(t, cwd, allowed, r, true).value != []
    ensures var p, region := AuthorizePath(t, cwd, allowed, r, true).value, Region(t, cwd, allowed);
            Confined(t, p, region) <==> StepsLandInside(t, p, region)
  {
    var prefix := AuthorizedIsConfined(t, cwd, allowed, r, true);
    var p, region := AuthorizePath(t, cwd, allowed, r, true).value, Region(t, cwd, allowed);
    assert prefix in region && prefix <= p;
    ConfinedExactly(t, p, region);
  }

  /** That is so, in particular, below an allowed directory with side files that are no links. */
  lemma PlainSidesLandInside(t: Tree, p: Path, region: set<Path>, prefix: Path)
    requires Writable(t, p) && prefix in region && prefix < p
    requires !IsLink(t, Side(p, BACKUP)) && !IsLink(t, Side(p, TEMP))
    ensures StepsLandInside(t, p, region)
  {
    forall ext | ext == BACKUP || ext == TEMP
      ensures Inside(region, Side(p, ext))
      ensures OpensAt(t, Side(p, ext)).Some? ==> OpensAt(t, Side(p, ext)) == Some(Side(p, ext))
    {
      SideWritable(t, p, ext);
      assert prefix <= p[..|p| - 1];
      assert prefix <= Side(p, ext);
      if OpensAt(t, Side(p, ext)).Some? {
        OpensThere(t, Side(p, ext));
        assert IsLink(t, Side(p, ext)) <==> Side(p, ext) in t && t[Side(p, ext)].Link?;
      }
    }
  }

  // ---- All or nothing ----------------------------------------------------------------------

  /** Wherever a write stops, the target is as before, entry and content, or completely new. */
  ghost predicate TargetIntact(t: Tree, p: Path, bytes: seq<nat>, stop: Stop)
    requires p != []
  {
    var r := TreeAt(t, p, bytes, stop);
    r.Some? ==>
      || (At(r.value, p) == At(t, p) && ReadThrough(r.value, p) == ReadThrough(t, p))
      || At(r.value, p) == Some(File(bytes))
  }

  ghost predicate AllOrNothing(t: Tree, p: Path)
    requires p != []
  {
    forall bytes, stop :: TargetIntact(t, p, bytes, stop)
  }

  /** The side files land elsewhere than the target, unless an empty target passes for its
      own backup, and the temporary name that is moved onto the target is no link. */
  ghost predicate SidesApart(t: Tree, p: Path)
    requires p != []
  {
    && (Exists(t, p) && Copies(t, p) && ReadThrough(t, p) != Some([]) ==> OpensAt(t, Side(p, BACKUP)) != OpensAt(t, p))
    && (Reaches(t, p) ==> OpensAt(t, Side(p, TEMP)) != OpensAt(t, p) && !IsLink(t, Side(p, TEMP)))
  }

  /** A file write elsewhere, or of the same empty content, leaves the target alone. */
  lemma WrittenElsewhere(t: Tree, x: Path, bytes: seq<nat>, p: Path)
    requires Writable(t, p) && Fillable(t, x) && (OpensAt(t, p) == Some(x) ==> x in t && t[x] == File(bytes))
    requires x != p || OpensAt(t, p) == Some(p)
    ensures var r := t[x := File(bytes)]; At(r, p) == At(t, p) && ReadThrough(r, p) == ReadThrough(t, p)
  {
    SeenWhereItLands(t, x, bytes, p);
    ReadsWhereItLands(t, p);
  }

  /** A side file that lands on the target's own entry lands where the target does. */
  lemma OnTarget(t: Tree, p: Path, side: Path)
    requires Writable(t, p) && Writable(t, side) && SameDirectory(p, side) && OpensAt(t, side) == Some(p)
    ensures OpensAt(t, p) == Some(p)
  {
    OpensFillable(t, side);
    FillableOpens(t, p, 0, MAX_LINKS);
    assert p[..0] == [] && p[0..] == p;
  }

  lemma {:induction false} FillableOpens(t: Tree, p: Path, k: nat, links: nat)
    requires Fillable(t, p) && k <= |p|
    ensures k < |p| || p in t ==> Landing(t, p[..k], p[k..], links) == Some(p)
    decreases |p| - k
  {
    if k == |p| {
      assert p[..k] == p;
    } else {
      assert p[..k] + [p[k]] == p[..k + 1] && p[k..][1..] == p[k + 1..];
      if k + 1 == |p| { assert p[..k + 1] == p; }
      FillableOpens(t, p, k + 1, links);
    }
  }

  lemma CopyKeepsTarget(t: Tree, p: Path, n: nat)
    requires Writable(t, p) && Exists(t, p) && Copies(t, p) && SidesApart(t, p)
    ensures var r := t[OpensAt(t, Side(p, BACKUP)).value := File(Copy(t, p, n))];
            At(r, p) == At(t, p) && ReadThrough(r, p) == ReadThrough(t, p)
  {
    var b := OpensAt(t, Side(p, BACKUP)).value;
    OpensFillable(t, Side(p, BACKUP));
    SideWritable(t, p, BACKUP);
    ReadsWhereItLands(t, p);
    if b == p {
      OnTarget(t, p, Side(p, BACKUP));
    }
    WrittenElsewhere(t, b, Copy(t, p, n), p);
  }

  lemma BackedKeepsTarget(t: Tree, p: Path)
    requires Writable(t, p) && (Exists(t, p) ==> Copies(t, p)) && SidesApart(t, p)
    ensures At(Backed(t, p), p) == At(t, p) && ReadThrough(Backed(t, p), p) == ReadThrough(t, p)
  {
    if Exists(t, p) {
      CopyKeepsTarget(t, p, |ReadThrough(t, p).value|);
    }
  }

  lemma TempKeepsTarget(t: Tree, p: Path, bytes: seq<nat>, n: nat)
    requires Writable(t, p) && Reaches(t, p) && SidesApart(t, p)
    ensures var r := AfterTemp(t, p, bytes, n);
            r.Some? && At(r.value, p) == At(t, p) && ReadThrough(r.value, p) == ReadThrough(t, p)
  {
    var l, t1 := OpensAt(t, Side(p, TEMP)).value, Backed(t, p);
    TempStep(t, p, bytes, n);
    BackupStep(t, p);
    BackedKeepsTarget(t, p);
    OpensFillable(t1, Side(p, TEMP));
    SideWritable(t, p, TEMP);
    if l == p {
      OnTarget(t, p, Side(p, TEMP));
    }
    SeenWhereItLands(t1, l, Partly(bytes, n).bytes, p);
  }

  lemma ApartIsIntact(t: Tree, p: Path, bytes: seq<nat>, stop: Stop)
    requires Writable(t, p) && SidesApart(t, p) && TreeAt(t, p, bytes, stop).Some?
    ensures TargetIntact(t, p, bytes, stop)
  {
    match stop
    case Started =>
    case Copying(n) =>
      CopyStep(t, p, n);
      CopyKeepsTarget(t, p, n);
    case Copied =>
      BackupStep(t, p);
      BackedKeepsTarget(t, p);
    case Writing(n) =>
      TempStep(t, p, bytes, n);
      TempKeepsTarget(t, p, bytes, n);
    case Renamed => RenameStep(t, p, bytes);
  }

  lemma StaysWritable(t: Tree, x: Path, bytes: seq<nat>, p: Path)
    requires Writable(t, p) && Fillable(t, x)
    ensures Writable(t[x := File(bytes)], p)
  {
  }

  /** Where a path lands on something else than the new file, it is not the new file itself. */
  lemma NotTheNewFile(r: Tree, p: Path, x: Path, bytes: seq<nat>)
    requires Writable(r, p) && OpensAt(r, p) == Some(x) && x in r && r[x] != File(bytes)
    ensures At(r, p) != Some(File(bytes))
  {
    OpensThere(r, p);
  }

  lemma CopyTears(t: Tree, p: Path)
    requires Writable(t, p) && Exists(t, p) && Copies(t, p) && ReadThrough(t, p) != Some([])
    requires OpensAt(t, Side(p, BACKUP)) == OpensAt(t, p)
    ensures !AllOrNothing(t, p)
  {
    var b := OpensAt(t, p).value;
    CopyStep(t, p, 0);
    OpensFillable(t, p);
    SeenWhereItLands(t, b, [], p);
    StaysWritable(t, b, [], p);
    NotTheNewFile(t[b := File([])], p, b, [0]);
    assert !TargetIntact(t, p, [0], Copying(0));
  }

  lemma BackedWritable(t: Tree, p: Path)
    requires Writable(t, p) && (Exists(t, p) ==> Copies(t, p))
    ensures Writable(Backed(t, p), p)
  {
    if Exists(t, p) {
      OpensFillable(t, Side(p, BACKUP));
      StaysWritable(t, OpensAt(t, Side(p, BACKUP)).value, Copy(t, p, |ReadThrough(t, p).value|), p);
    }
  }

  lemma TempTears(t: Tree, p: Path)
    requires Writable(t, p) && Reaches(t, p) && OpensAt(t, Side(p, TEMP)) == OpensAt(t, p)
    ensures !AllOrNothing(t, p)
  {
    var bytes: seq<nat>, x, t1 := [0, 0], OpensAt(t, p).value, Backed(t, p);
    BackupStep(t, p);
    BackedWritable(t, p);
    OpensFillable(t1, p);
    forall n | n == 0 || n == 1
      ensures TreeAt(t, p, bytes, Writing(n)).Some?
      ensures var r := TreeAt(t, p, bytes, Writing(n)).value;
              ReadThrough(r, p) == Some(bytes[..n]) && At(r, p) != Some(File(bytes))
    {
      TempStep(t, p, bytes, n);
      SeenWhereItLands(t1, x, bytes[..n], p);
      StaysWritable(t1, x, bytes[..n], p);
      NotTheNewFile(t1[x := File(bytes[..n])], p, x, bytes);
    }
    if ReadThrough(t, p) == Some([]) {
      assert !TargetIntact(t, p, bytes, Writing(1));
    } else {
      assert !TargetIntact(t, p, bytes, Writing(0));
    }
  }

  lemma LinkReplacesTarget(t: Tree, p: Path)
    requires Writable(t, p) && Reaches(t, p) && OpensAt(t, Side(p, TEMP)) != OpensAt(t, p) && IsLink(t, Side(p, TEMP))
    ensures !AllOrNothing(t, p)
  {
    var side := Side(p, TEMP);
    RenameStep(t, p, []);
    SideWritable(t, p, TEMP);
    if At(t, p) == Some(t[side]) {
      TwinLinks(t, p, side);
    }
    assert !TargetIntact(t, p, [], Renamed);
  }

  /** Over every tree and target: a write is all or nothing, at every stop, if and only if
      its side files land apart from the target and the temporary name is no link. */
  lemma AllOrNothingExactly(t: Tree, p: Path)
    requires Writable(t, p)
    ensures AllOrNothing(t, p) <==> SidesApart(t, p)
  {
    if SidesApart(t, p) {
      forall bytes, stop ensures TargetIntact(t, p, bytes, stop) {
        if TreeAt(t, p, bytes, stop).Some? {
          ApartIsIntact(t, p, bytes, stop);
        }
      }
    } else if Exists(t, p) && Copies(t, p) && ReadThrough(t, p) != Some([]) && OpensAt(t, Side(p, BACKUP)) == OpensAt(t, p) {
      CopyTears(t, p);
    } else if OpensAt(t, Side(p, TEMP)) == OpensAt(t, p) {
      TempTears(t, p);
    } else {
      LinkReplacesTarget(t, p);
    }
  }

  // ---- What a completed write leaves -------------------------------------------------------

  /** A write goes through exactly when its side files can be opened; then the temporary name
      is gone, and the target is the new file exactly when that name was no link. */
  lemma WriteResult(t: Tree, p: Path, bytes: seq<nat>)
    requires Writable(t, p)
    ensures TreeAt(t, p, bytes, Renamed).Some? <==> Reaches(t, p)
    ensures Reaches(t, p) ==>
              var r := TreeAt(t, p, bytes, Renamed).value;
              && (Side(p, TEMP) == p || Side(p, TEMP) !in r)
              && (At(r, p) == Some(File(bytes)) <==> !IsLink(t, Side(p, TEMP)))
  {
    RenameStep(t, p, bytes);
  }

  /** After a completed write of `bytes`, the backup is the old content. */
  ghost predicate BackupHolds(t: Tree, p: Path, bytes: seq<nat>)
    requires p != [] && Exists(t, p) && Copies(t, p)
  {
    var r := TreeAt(t, p, bytes, Renamed);
    r.Some? && At(r.value, OpensAt(t, Side(p, BACKUP)).value) == Some(File(ReadThrough(t, p).value))
  }

  /** Whatever is written, the backup holds the old content if and only if it lands apart from
      the temporary file and the target, or the target is a link to it and empty. */
  lemma BackupKeptExactly(t: Tree, p: Path)
    requires Writable(t, p) && Exists(t, p) && Reaches(t, p)
    ensures (forall bytes :: BackupHolds(t, p, bytes))
       <==> var b := OpensAt(t, Side(p, BACKUP));
            b != OpensAt(t, Side(p, TEMP)) && b != Some(p) && (b != OpensAt(t, p) || ReadThrough(t, p) == Some([]))
  {
    var other := ReadThrough(t, p).value + [0];
    assert other != ReadThrough(t, p).value;
    BackupAfter(t, p, other);
    if forall bytes :: BackupHolds(t, p, bytes) {
      assert BackupHolds(t, p, other);
    }
    if BackupHolds(t, p, other) {
      forall bytes ensures BackupHolds(t, p, bytes) {
        BackupAfter(t, p, bytes);
      }
    }
  }

  lemma BackupAfter(t: Tree, p: Path, bytes: seq<nat>)
    requires Writable(t, p) && Exists(t, p) && Reaches(t, p)
    ensures var b, apart := OpensAt(t, Side(p, BACKUP)), ReadThrough(t, p) == Some([]) || OpensAt(t, Side(p, BACKUP)) != OpensAt(t, p);
            && (b != OpensAt(t, Side(p, TEMP)) && b != Some(p) && apart ==> BackupHolds(t, p, bytes))
            && (bytes != ReadThrough(t, p).value && BackupHolds(t, p, bytes) ==>
                  b != OpensAt(t, Side(p, TEMP)) && b != Some(p) && apart)
  {
    var side := Side(p, TEMP);
    RenameStep(t, p, bytes);
    TempStep(t, p, bytes, |bytes|);
    OpensFillable(t, Side(p, BACKUP));
    OpensFillable(t, side);
    SideWritable(t, p, TEMP);
    OpensThere(t, side);
    ReadsWhereItLands(t, p);
  }
}
