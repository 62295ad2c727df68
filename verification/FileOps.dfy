/** Policy-scoped file operations (src/agent/file_ops.rs). */
module FileOps {
  import opened Wrappers
  import opened Paths
  import opened FileTree

  // ---- Authorisation --------------------------------------------------------------

  /** The resolved path, or for a write the resolved parent and the last name. */
  function Located(t: Tree, cwd: Path, r: RawPath, forWrite: bool): Option<Path> {
    match Canonicalize(t, cwd, r)
    case Some(p) => Some(p)
    case None =>
      if !forWrite then None
      else
        match ParentAndName(r)
        case None => None
        case Some((parent, name)) =>
          match Canonicalize(t, cwd, parent) { case None => None case Some(dir) => Some(dir + [name]) }
  }

  predicate Under(t: Tree, cwd: Path, prefix: RawPath, p: Path) {
    var resolved := Canonicalize(t, cwd, prefix);
    resolved.Some? && resolved.value <= p
  }

  function AuthorizePath(t: Tree, cwd: Path, allowed: seq<RawPath>, r: RawPath, forWrite: bool): Option<Path> {
    match Located(t, cwd, r, forWrite)
    case None => None
    case Some(p) => if exists prefix :: prefix in allowed && Under(t, cwd, prefix, p) then Some(p) else None
  }

  /** No directory component is a link. */
  ghost predicate NoLinksAbove(t: Tree, p: Path) {
    forall i :: 0 <= i < |p| ==> At(t, p[..i]).Some? && !At(t, p[..i]).value.Link?
  }

  lemma LocatedDirs(t: Tree, cwd: Path, r: RawPath, forWrite: bool)
    requires Canonical(t, cwd) && Located(t, cwd, r, forWrite).Some?
    ensures NoLinksAbove(t, Located(t, cwd, r, forWrite).value) && PlainNames(Located(t, cwd, r, forWrite).value)
    ensures Canonicalize(t, cwd, r).None? ==> Located(t, cwd, r, forWrite).value != []
  {
    if Canonicalize(t, cwd, r).Some? {
      CanonicalizeIsCanonical(t, cwd, r);
    } else {
      var (parent, name) := ParentAndName(r).value;
      CanonicalizeIsCanonical(t, cwd, parent);
      var dir := Canonicalize(t, cwd, parent).value;
      forall i | 0 <= i < |dir + [name]|
        ensures At(t, (dir + [name])[..i]).Some? && !At(t, (dir + [name])[..i]).value.Link?
      {
        assert (dir + [name])[..i] == if i == |dir| then dir else dir[..i];
      }
    }
  }

  /** The path handed out has no link among its directories and lies below a
      resolved allowed prefix; for reads it has no link at all, so opening it
      reaches exactly that file. */
  lemma AuthorizedIsConfined(t: Tree, cwd: Path, allowed: seq<RawPath>, r: RawPath, forWrite: bool) returns (prefix: Path)
    requires Canonical(t, cwd)
    requires AuthorizePath(t, cwd, allowed, r, forWrite).Some?
    ensures var p := AuthorizePath(t, cwd, allowed, r, forWrite).value;
            && prefix <= p && Canonical(t, prefix)
            && (exists raw :: raw in allowed && Canonicalize(t, cwd, raw) == Some(prefix))
            && NoLinksAbove(t, p) && PlainNames(p)
            && (!forWrite ==> Canonical(t, p) && Resolve(t, [], p, MAX_LINKS) == Some(p))
  {
    var p := AuthorizePath(t, cwd, allowed, r, forWrite).value;
    var raw :| raw in allowed && Under(t, cwd, raw, p);
    prefix := Canonicalize(t, cwd, raw).value;
    CanonicalizeIsCanonical(t, cwd, raw);
    LocatedDirs(t, cwd, r, forWrite);
    if !forWrite {
      CanonicalizeIsCanonical(t, cwd, r);
      CanonicalResolves(t, p, 0, MAX_LINKS);
      assert p[..0] == [] && p[0..] == p;
    }
  }

  lemma CanonicalizeIsCanonical(t: Tree, cwd: Path, r: RawPath)
    requires Canonical(t, cwd) && Canonicalize(t, cwd, r).Some?
    ensures Canonical(t, Canonicalize(t, cwd, r).value)
  {
    assert Canonical(t, []);
    ResolvesToCanonical(t, if r.absolute then [] else cwd, r.comps, MAX_LINKS);
  }

  // ---- Writing ----------------------------------------------------------------------

  const BACKUP := "guestkit-bak"
  const TEMP := "guestkit-tmp"

  /** `with_extension` on the last component. */
  function Side(p: Path, ext: string): Path
    requires p != []
  {
    p[..|p| - 1] + [WithExtension(p[|p| - 1], ext)]
  }

  /** Where opening a path for writing lands: links are followed, also to a file that does not exist yet. */
  function Landing(t: Tree, cur: Path, todo: seq<string>, links: nat): Option<Path>
    decreases links, |todo|
  {
    if todo == [] then if At(t, cur) == Some(Dir) then None else Some(cur)
    else if At(t, cur) != Some(Dir) then None
    else
      var c, rest := todo[0], todo[1..];
      if c == "." then Landing(t, cur, rest, links)
      else if c == ".." then Landing(t, Parent(cur), rest, links)
      else
        match At(t, cur + [c])
        case None => if rest == [] then Some(cur + [c]) else None
        case Some(Link(absolute, target)) =>
          if links == 0 then None else Landing(t, if absolute then [] else cur, target + rest, links - 1)
        case Some(_) => Landing(t, cur + [c], rest, links)
  }

  function OpensAt(t: Tree, p: Path): Option<Path> {
    Landing(t, [], p, MAX_LINKS)
  }

  /** The bytes a read of `p` yields, links followed. */
  function ReadThrough(t: Tree, p: Path): Option<seq<nat>> {
    match Resolve(t, [], p, MAX_LINKS)
    case Some(q) => if At(t, q).Some? && At(t, q).value.File? then Some(At(t, q).value.bytes) else None
    case None => None
  }

  predicate Exists(t: Tree, p: Path) {
    Resolve(t, [], p, MAX_LINKS).Some?
  }

  /** How far a write got before the agent stopped or a step failed. */
  datatype Stop = Started | Copying(n: nat) | Copied | Writing(n: nat) | Renamed

  /** Truncate on opening, then the first `n` bytes. */
  function Partly(bytes: seq<nat>, n: nat): Node {
    File(if n < |bytes| then bytes[..n] else bytes)
  }

  /** The backup, `n` bytes into it. Copying a file onto itself truncates it first. */
  function AfterCopy(t: Tree, p: Path, n: nat): Option<Tree>
    requires p != []
  {
    var source, to := ReadThrough(t, p), OpensAt(t, Side(p, BACKUP));
    if source.None? || to.None? then None
    else if Some(to.value) == Resolve(t, [], p, MAX_LINKS) then Some(t[to.value := File([])])
    else Some(t[to.value := Partly(source.value, n)])
  }

  /** The tree before the temporary file is written: with a backup if the target exists. */
  function BackedUp(t: Tree, p: Path): Option<Tree>
    requires p != []
  {
    if Exists(t, p) then AfterCopy(t, p, |if ReadThrough(t, p).Some? then ReadThrough(t, p).value else []|) else Some(t)
  }

  function AfterTemp(t: Tree, p: Path, bytes: seq<nat>, n: nat): Option<Tree>
    requires p != []
  {
    match BackedUp(t, p)
    case None => None
    case Some(t1) =>
      match OpensAt(t1, Side(p, TEMP)) { case None => None case Some(l) => Some(t1[l := Partly(bytes, n)]) }
  }

  /** `rename` moves the entry itself, link or not; onto itself it does nothing. */
  function Renaming(t: Tree, from: Path, onto: Path): Option<Tree> {
    if from !in t || At(t, onto) == Some(Dir) then None
    else if from == onto then Some(t)
    else Some((t - {from})[onto := t[from]])
  }

  /** The tree at a stop, when the write gets that far. */
  function TreeAt(t: Tree, p: Path, bytes: seq<nat>, stop: Stop): Option<Tree>
    requires p != []
  {
    match stop
    case Started => Some(t)
    case Copying(n) => if Exists(t, p) then AfterCopy(t, p, n) else None
    case Copied => BackedUp(t, p)
    case Writing(n) => AfterTemp(t, p, bytes, n)
    case Renamed =>
      match AfterTemp(t, p, bytes, |bytes|) { case None => None case Some(t2) => Renaming(t2, Side(p, TEMP), p) }
  }

  /** The target can be read and the backup opened. */
  predicate Copies(t: Tree, p: Path)
    requires p != []
  {
    ReadThrough(t, p).Some? && OpensAt(t, Side(p, BACKUP)).Some?
  }

  /** Every step can be taken: the backup if the target exists, then the temporary file. */
  predicate Reaches(t: Tree, p: Path)
    requires p != []
  {
    (Exists(t, p) ==> Copies(t, p)) && OpensAt(t, Side(p, TEMP)).Some?
  }

  predicate IsLink(t: Tree, p: Path) {
    p in t && t[p].Link?
  }

  /** What authorisation guarantees of a path to be written. */
  ghost predicate Writable(t: Tree, p: Path) {
    p != [] && NoLinksAbove(t, p) && PlainNames(p)
  }
}
