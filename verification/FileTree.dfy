/** A file tree with symbolic links, and path resolution over it (what
    `canonicalize` does for src/agent/file_ops.rs). */
module FileTree {
  import opened Wrappers
  import opened Text

  /** A canonical path: its components from the root. */
  type Path = seq<string>

  datatype Node = Dir | File(bytes: seq<nat>) | Link(absolute: bool, target: seq<string>)

  type Tree = map<Path, Node>

  function At(t: Tree, p: Path): Option<Node> {
    if p == [] then Some(Dir) else if p in t then Some(t[p]) else None
  }

  /** How many links a resolution may follow before it gives up. */
  const MAX_LINKS: nat := 40

  function Parent(p: Path): Path {
    if p == [] then [] else p[..|p| - 1]
  }

  /** Walk `todo` from `cur`, following at most `links` links. */
  function Resolve(t: Tree, cur: Path, todo: seq<string>, links: nat): Option<Path>
    decreases links, |todo|
  {
    if todo == [] then Some(cur)
    else if At(t, cur) != Some(Dir) then None
    else
      var c, rest := todo[0], todo[1..];
      if c == "." then Resolve(t, cur, rest, links)
      else if c == ".." then Resolve(t, Parent(cur), rest, links)
      else
        match At(t, cur + [c])
        case None => None
        case Some(Link(absolute, target)) =>
          if links == 0 then None else Resolve(t, if absolute then [] else cur, target + rest, links - 1)
        case Some(_) => Resolve(t, cur + [c], rest, links)
  }

  /** Every directory component is a directory. */
  ghost predicate DirsAbove(t: Tree, p: Path) {
    forall i :: 0 <= i < |p| ==> At(t, p[..i]) == Some(Dir)
  }

  ghost predicate PlainNames(p: Path) {
    forall i :: 0 <= i < |p| ==> p[i] != "." && p[i] != ".."
  }

  /** A path without links anywhere, to something that exists. */
  ghost predicate Canonical(t: Tree, p: Path) {
    DirsAbove(t, p) && PlainNames(p) && (At(t, p) == Some(Dir) || (At(t, p).Some? && At(t, p).value.File?))
  }

  lemma ParentCanonical(t: Tree, p: Path)
    requires Canonical(t, p)
    ensures Canonical(t, Parent(p)) && At(t, Parent(p)) == Some(Dir)
  {
    if p != [] {
      assert forall i :: 0 <= i < |Parent(p)| ==> Parent(p)[..i] == p[..i];
    }
  }

  lemma ChildCanonical(t: Tree, p: Path, c: string)
    requires Canonical(t, p) && At(t, p) == Some(Dir) && c != "." && c != ".."
    ensures DirsAbove(t, p + [c]) && PlainNames(p + [c])
  {
    forall i | 0 <= i < |p + [c]|
      ensures At(t, (p + [c])[..i]) == Some(Dir)
    {
      assert (p + [c])[..i] == if i == |p| then p else p[..i];
    }
  }

  /** Resolution ends at a path without links. */
  lemma {:induction false} ResolvesToCanonical(t: Tree, cur: Path, todo: seq<string>, links: nat)
    requires Canonical(t, cur) && Resolve(t, cur, todo, links).Some?
    ensures Canonical(t, Resolve(t, cur, todo, links).value)
    decreases links, |todo|
  {
    if todo != [] {
      var c, rest := todo[0], todo[1..];
      ParentCanonical(t, cur);
      if c == "." {
        ResolvesToCanonical(t, cur, rest, links);
      } else if c == ".." {
        ResolvesToCanonical(t, Parent(cur), rest, links);
      } else {
        ChildCanonical(t, cur, c);
        match At(t, cur + [c]).value
        case Link(absolute, target) =>
          assert Canonical(t, []);
          ResolvesToCanonical(t, if absolute then [] else cur, target + rest, links - 1);
        case _ => ResolvesToCanonical(t, cur + [c], rest, links);
      }
    }
  }

  /** A path without links resolves to itself, whatever the link budget. */
  lemma {:induction false} CanonicalResolves(t: Tree, p: Path, k: nat, links: nat)
    requires Canonical(t, p) && k <= |p|
    ensures Resolve(t, p[..k], p[k..], links) == Some(p)
    decreases |p| - k
  {
    if k == |p| {
      assert p[..k] == p;
    } else {
      assert p[..k] + [p[k]] == p[..k + 1] && p[k..][1..] == p[k + 1..];
      CanonicalResolves(t, p, k + 1, links);
    }
  }

  // ---- Paths as text ------------------------------------------------------------

  /** A path before resolution; `.` components are kept, and a trailing slash counts as one. */
  datatype RawPath = RawPath(absolute: bool, comps: seq<string>, empty: bool)

  function NonEmptyPieces(pieces: seq<string>): seq<string> {
    if pieces == [] then [] else (if pieces[0] == "" then [] else [pieces[0]]) + NonEmptyPieces(pieces[1..])
  }

  function ParsePath(s: string): RawPath {
    RawPath(s != "" && s[0] == '/',
            NonEmptyPieces(Split(s, '/')) + (if s != "" && s[|s| - 1] == '/' then ["."] else []),
            s == "")
  }

  /** `canonicalize`, relative paths starting at the working directory. */
  function Canonicalize(t: Tree, cwd: Path, r: RawPath): Option<Path> {
    if r.empty then None else Resolve(t, if r.absolute then [] else cwd, r.comps, MAX_LINKS)
  }

  /** `components`: `.` is dropped except at the start of a relative path. */
  function Components(r: RawPath): seq<string> {
    (if !r.absolute && r.comps != [] && r.comps[0] == "." then ["."] else []) + WithoutDots(r.comps)
  }

  function WithoutDots(comps: seq<string>): seq<string> {
    if comps == [] then [] else (if comps[0] == "." then [] else [comps[0]]) + WithoutDots(comps[1..])
  }

  /** `parent` and `file_name`, when the path has both. */
  function ParentAndName(r: RawPath): Option<(RawPath, string)> {
    var cs := Components(r);
    if cs == [] || cs[|cs| - 1] == "." || cs[|cs| - 1] == ".." then None
    else Some((RawPath(r.absolute, cs[..|cs| - 1], !r.absolute && |cs| == 1), cs[|cs| - 1]))
  }
}
