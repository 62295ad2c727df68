/** Where opening a path lands, and what writing a file there does to every other path. */
module FileLanding {
  import opened Wrappers
  import opened FileTree
  import opened FileOps

  /** A place a file can be put: below directories, and empty or a file already. */
  ghost predicate Fillable(t: Tree, x: Path) {
    x != [] && DirsAbove(t, x) && PlainNames(x) && (x in t ==> t[x].File?)
  }

  /** Opening a path for writing lands on a place without links. */
  lemma {:induction false} LandsFillable(t: Tree, cur: Path, todo: seq<string>, links: nat)
    requires Canonical(t, cur) && Landing(t, cur, todo, links).Some?
    ensures Fillable(t, Landing(t, cur, todo, links).value)
    decreases links, |todo|
  {
    if todo != [] {
      var c, rest := todo[0], todo[1..];
      ParentCanonical(t, cur);
      if c == "." {
        LandsFillable(t, cur, rest, links);
      } else if c == ".." {
        LandsFillable(t, Parent(cur), rest, links);
      } else {
        ChildCanonical(t, cur, c);
        match At(t, cur + [c])
        case None =>
        case Some(Link(absolute, target)) =>
          assert Canonical(t, []);
          LandsFillable(t, if absolute then [] else cur, target + rest, links - 1);
        case Some(_) => LandsFillable(t, cur + [c], rest, links);
      }
    }
  }

  /** Putting a file where there was a file or nothing moves no landing. */
  lemma {:induction false} LandingStable(t: Tree, x: Path, bytes: seq<nat>, cur: Path, todo: seq<string>, links: nat)
    requires x != [] && (x in t ==> t[x].File?)
    ensures Landing(t[x := File(bytes)], cur, todo, links) == Landing(t, cur, todo, links)
    decreases links, |todo|
  {
    if todo != [] && At(t, cur) == Some(Dir) {
      var c, rest := todo[0], todo[1..];
      if c == "." {
        LandingStable(t, x, bytes, cur, rest, links);
      } else if c == ".." {
        LandingStable(t, x, bytes, Parent(cur), rest, links);
      } else {
        match At(t, cur + [c])
        case None =>
        case Some(Link(absolute, target)) =>
          if links > 0 {
            LandingStable(t, x, bytes, if absolute then [] else cur, target + rest, links - 1);
          }
        case Some(_) => LandingStable(t, x, bytes, cur + [c], rest, links);
      }
    }
  }

  /** Resolution of a path, told by where opening it lands. */
  ghost predicate Agreeing(t: Tree, landing: Option<Path>, resolved: Option<Path>) {
    match landing
    case Some(x) => resolved == if x in t then Some(x) else None
    case None => resolved.None? || At(t, resolved.value) == Some(Dir)
  }

  lemma {:induction false} ResolvesAsItLands(t: Tree, cur: Path, todo: seq<string>, links: nat)
    requires Canonical(t, cur)
    ensures Agreeing(t, Landing(t, cur, todo, links), Resolve(t, cur, todo, links))
    decreases links, |todo|
  {
    if todo != [] && At(t, cur) == Some(Dir) {
      var c, rest := todo[0], todo[1..];
      ParentCanonical(t, cur);
      if c == "." {
        ResolvesAsItLands(t, cur, rest, links);
      } else if c == ".." {
        ResolvesAsItLands(t, Parent(cur), rest, links);
      } else {
        ChildCanonical(t, cur, c);
        match At(t, cur + [c])
        case None =>
        case Some(Link(absolute, target)) =>
          if links > 0 {
            assert Canonical(t, []);
            ResolvesAsItLands(t, if absolute then [] else cur, target + rest, links - 1);
          }
        case Some(_) => ResolvesAsItLands(t, cur + [c], rest, links);
      }
    }
  }

  lemma OpensFillable(t: Tree, p: Path)
    requires OpensAt(t, p).Some?
    ensures Fillable(t, OpensAt(t, p).value)
  {
    assert Canonical(t, []);
    LandsFillable(t, [], p, MAX_LINKS);
  }

  /** What reading a path yields is what stands where opening it lands. */
  lemma ReadsWhereItLands(t: Tree, p: Path)
    ensures ReadThrough(t, p)
         == match OpensAt(t, p) { case Some(x) => if x in t && t[x].File? then Some(t[x].bytes) else None case None => None }
    ensures ReadThrough(t, p).Some? ==> Exists(t, p) && Resolve(t, [], p, MAX_LINKS) == OpensAt(t, p)
    ensures Exists(t, p) && ReadThrough(t, p).None? ==> OpensAt(t, p).None?
  {
    assert Canonical(t, []);
    ResolvesAsItLands(t, [], p, MAX_LINKS);
    if OpensAt(t, p).Some? {
      OpensFillable(t, p);
    }
  }

  /** Writing a file is seen through exactly the paths that land on it. */
  lemma SeenWhereItLands(t: Tree, x: Path, bytes: seq<nat>, p: Path)
    requires Fillable(t, x)
    ensures OpensAt(t[x := File(bytes)], p) == OpensAt(t, p)
    ensures ReadThrough(t[x := File(bytes)], p) == if OpensAt(t, p) == Some(x) then Some(bytes) else ReadThrough(t, p)
  {
    LandingStable(t, x, bytes, [], p, MAX_LINKS);
    ReadsWhereItLands(t, p);
    ReadsWhereItLands(t[x := File(bytes)], p);
  }

  /** A path whose own entry is no link lands on itself or nowhere. */
  lemma {:induction false} LandsThere(t: Tree, p: Path, k: nat, links: nat)
    requires Writable(t, p) && (p in t ==> !t[p].Link?) && k <= |p|
    ensures Landing(t, p[..k], p[k..], links).None? || Landing(t, p[..k], p[k..], links) == Some(p)
    decreases |p| - k
  {
    if k == |p| {
      assert p[..k] == p;
    } else {
      assert p[..k] + [p[k]] == p[..k + 1] && p[k..][1..] == p[k + 1..];
      if k + 1 == |p| { assert p[..k + 1] == p; }
      LandsThere(t, p, k + 1, links);
    }
  }

  /** A path lands on itself only if it is no link, and elsewhere only if it is one. */
  lemma OpensThere(t: Tree, p: Path)
    requires Writable(t, p) && OpensAt(t, p).Some?
    ensures OpensAt(t, p) == Some(p) <==> !(p in t && t[p].Link?)
  {
    OpensFillable(t, p);
    if !(p in t && t[p].Link?) {
      LandsThere(t, p, 0, MAX_LINKS);
      assert p[..0] == [] && p[0..] == p;
    }
  }

  /** What lands has been reached through directories only. */
  lemma {:induction false} ReachedDirectories(t: Tree, p: Path, k: nat, links: nat)
    requires Writable(t, p) && k < |p| && Landing(t, p[..k], p[k..], links).Some?
    ensures forall i :: k <= i < |p| ==> At(t, p[..i]) == Some(Dir)
    decreases |p| - k
  {
    if k + 1 < |p| {
      assert p[..k] + [p[k]] == p[..k + 1] && p[k..][1..] == p[k + 1..];
      ReachedDirectories(t, p, k + 1, links);
    }
  }

  /** Down to its directory a path without links above is just walked. */
  lemma {:induction false} WalksDown(t: Tree, p: Path, k: nat, links: nat)
    requires PlainNames(p) && DirsAbove(t, p) && k < |p|
    ensures Landing(t, p[..k], p[k..], links) == Landing(t, p[..|p| - 1], [p[|p| - 1]], links)
    decreases |p| - k
  {
    if k + 1 == |p| {
      assert p[k..] == [p[|p| - 1]];
    } else {
      assert p[..k] + [p[k]] == p[..k + 1] && p[k..][1..] == p[k + 1..];
      WalksDown(t, p, k + 1, links);
    }
  }

  ghost predicate SameDirectory(p: Path, q: Path) {
    p != [] && |q| == |p| && forall i :: 0 <= i < |p| ==> q[..i] == p[..i]
  }

  /** Two links with the same content in the same directory land on the same place. */
  lemma TwinLinks(t: Tree, p: Path, q: Path)
    requires Writable(t, p) && Writable(t, q) && SameDirectory(p, q)
    requires IsLink(t, p) && IsLink(t, q) && t[p] == t[q] && OpensAt(t, q).Some?
    ensures OpensAt(t, p) == OpensAt(t, q)
  {
    var n := |p| - 1;
    assert p[..0] == [] && p[0..] == p && q[..0] == [] && q[0..] == q;
    ReachedDirectories(t, q, 0, MAX_LINKS);
    WalksDown(t, p, 0, MAX_LINKS);
    WalksDown(t, q, 0, MAX_LINKS);
    assert p[..n] + [p[n]] == p && q[..n] + [q[n]] == q;
    assert [p[n]][1..] == [] && [q[n]][1..] == [];
  }
}
