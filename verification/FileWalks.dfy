/** What a path names, as a walk of single steps, and that resolving and opening follow it
    (`canonicalize` and `open` for src/agent/file_ops.rs). */
module FileWalks {
  import opened Wrappers
  import opened FileTree
  import opened FileOps

  /** Where a walk stands: in which place, the names still to take, the links it may follow. */
  datatype Walker = Walker(at: Path, todo: seq<string>, links: nat)

  /** `p` is the directory that contains `q`; the root contains itself. */
  ghost predicate Contains(p: Path, q: Path) {
    (q == [] && p == []) || exists name: string :: q == p + [name]
  }

  /** One step: `.` stays, `..` leads to the containing directory, a link leads to its target,
      from the root or from the link's own directory, and any other name to what it names there. */
  ghost predicate StepsTo(t: Tree, a: Walker, b: Walker) {
    && a.todo != [] && At(t, a.at) == Some(Dir)
    && var name, rest := a.todo[0], a.todo[1..];
       if name == "." then b == Walker(a.at, rest, a.links)
       else if name == ".." then Contains(b.at, a.at) && b.todo == rest && b.links == a.links
       else
         match At(t, a.at + [name])
         case None => false
         case Some(Link(true, target)) => b == Walker([], target + rest, b.links) && b.links + 1 == a.links
         case Some(Link(false, target)) => b == Walker(a.at, target + rest, b.links) && b.links + 1 == a.links
         case Some(_) => b == Walker(a.at + [name], rest, a.links)
  }

  /** A walk: each walker steps to the next. */
  ghost predicate Walk(t: Tree, walk: seq<Walker>) {
    walk != [] && forall i :: 0 <= i < |walk| - 1 ==> StepsTo(t, walk[i], walk[i + 1])
  }

  ghost predicate Leads(t: Tree, walk: seq<Walker>, from: Walker, to: Walker) {
    Walk(t, walk) && walk[0] == from && walk[|walk| - 1] == to
  }

  lemma Extend(t: Tree, first: Walker, walk: seq<Walker>, to: Walker)
    requires walk != [] && StepsTo(t, first, walk[0]) && Leads(t, walk, walk[0], to)
    ensures Leads(t, [first] + walk, first, to)
  {
    var longer := [first] + walk;
    forall i | 0 <= i < |longer| - 1
      ensures StepsTo(t, longer[i], longer[i + 1])
    {
      if i > 0 {
        assert StepsTo(t, walk[i - 1], walk[i]);
      }
    }
  }

  lemma Shorten(t: Tree, walk: seq<Walker>, from: Walker, to: Walker)
    requires Leads(t, walk, from, to) && |walk| > 1
    ensures StepsTo(t, from, walk[1]) && Leads(t, walk[1..], walk[1], to)
  {
    var rest := walk[1..];
    assert StepsTo(t, walk[0], walk[1]);
    forall i | 0 <= i < |rest| - 1
      ensures StepsTo(t, rest[i], rest[i + 1])
    {
      assert StepsTo(t, walk[i + 1], walk[i + 2]);
    }
  }

  lemma ParentContains(p: Path)
    ensures Contains(Parent(p), p)
  {
    if p != [] {
      assert p == p[..|p| - 1] + [p[|p| - 1]];
    }
  }

  lemma OneContainer(p: Path, q: Path)
    requires Contains(p, q)
    ensures p == Parent(q)
  {
    if q != [] {
      var name: string :| q == p + [name];
    }
  }

  // ---- Resolving --------------------------------------------------------------------------

  /** Where the walk goes next, if it goes on. */
  function Next(t: Tree, a: Walker): Option<Walker> {
    if a.todo == [] || At(t, a.at) != Some(Dir) then None
    else
      var c, rest := a.todo[0], a.todo[1..];
      if c == "." then Some(a.(todo := rest))
      else if c == ".." then Some(Walker(Parent(a.at), rest, a.links))
      else
        match At(t, a.at + [c])
        case None => None
        case Some(Link(absolute, target)) =>
          if a.links == 0 then None else Some(Walker(if absolute then [] else a.at, target + rest, a.links - 1))
        case Some(_) => Some(Walker(a.at + [c], rest, a.links))
  }

  /** There is exactly one step to take, or none. */
  lemma NextExactly(t: Tree, a: Walker, b: Walker)
    ensures StepsTo(t, a, b) <==> Next(t, a) == Some(b)
  {
    ParentContains(a.at);
    if Contains(b.at, a.at) {
      OneContainer(b.at, a.at);
    }
  }

  lemma ResolveStep(t: Tree, a: Walker)
    ensures Resolve(t, a.at, a.todo, a.links)
         == if a.todo == [] then Some(a.at)
            else match Next(t, a) { case None => None case Some(b) => Resolve(t, b.at, b.todo, b.links) }
  {
  }

  lemma {:induction false} ResolveWalks(t: Tree, a: Walker) returns (walk: seq<Walker>)
    requires Resolve(t, a.at, a.todo, a.links).Some?
    ensures walk != [] && Leads(t, walk, a, walk[|walk| - 1])
    ensures walk[|walk| - 1].at == Resolve(t, a.at, a.todo, a.links).value && walk[|walk| - 1].todo == []
    decreases a.links, |a.todo|
  {
    if a.todo == [] {
      walk := [a];
    } else {
      ResolveStep(t, a);
      var b := Next(t, a).value;
      NextExactly(t, a, b);
      var rest := ResolveWalks(t, b);
      Extend(t, a, rest, rest[|rest| - 1]);
      walk := [a] + rest;
    }
  }

  lemma {:induction false} WalkResolves(t: Tree, walk: seq<Walker>, a: Walker, b: Walker)
    requires Leads(t, walk, a, b) && b.todo == []
    ensures Resolve(t, a.at, a.todo, a.links) == Some(b.at)
  {
    if |walk| > 1 {
      Shorten(t, walk, a, b);
      NextExactly(t, a, walk[1]);
      WalkResolves(t, walk[1..], walk[1], b);
      ResolveStep(t, a);
    }
  }

  /** A walk over the names of a path, from a place, with a budget of links, ends at `p`. */
  ghost predicate WalksTo(t: Tree, from: Path, names: seq<string>, links: nat, p: Path) {
    exists walk, left: nat :: Leads(t, walk, Walker(from, names, links), Walker(p, [], left))
  }

  /** Resolving a path yields `p` if and only if the walk it names, within the budget of links,
      ends at `p`; so it fails if and only if there is no such walk. */
  lemma ResolvesExactly(t: Tree, from: Path, names: seq<string>, links: nat, p: Path)
    ensures Resolve(t, from, names, links) == Some(p) <==> WalksTo(t, from, names, links, p)
  {
    if Resolve(t, from, names, links) == Some(p) {
      var walk := ResolveWalks(t, Walker(from, names, links));
      assert walk[|walk| - 1] == Walker(p, [], walk[|walk| - 1].links);
      assert Leads(t, walk, Walker(from, names, links), Walker(p, [], walk[|walk| - 1].links));
    }
    if WalksTo(t, from, names, links, p) {
      var walk, left: nat :| Leads(t, walk, Walker(from, names, links), Walker(p, [], left));
      WalkResolves(t, walk, Walker(from, names, links), Walker(p, [], left));
    }
  }

  // ---- Opening for writing -----------------------------------------------------------------

  lemma LandingStep(t: Tree, a: Walker)
    requires a.todo != []
    ensures Landing(t, a.at, a.todo, a.links)
         == match Next(t, a)
            case Some(b) => Landing(t, b.at, b.todo, b.links)
            case None => if Creates(t, a) then Some(a.at + a.todo) else None
  {
    assert |a.todo| == 1 ==> a.todo == [a.todo[0]];
  }

  /** The walk stands in a directory before its last name, and nothing is there by that name. */
  ghost predicate Creates(t: Tree, a: Walker) {
    && |a.todo| == 1 && a.todo[0] != "." && a.todo[0] != ".." && At(t, a.at) == Some(Dir) && At(t, a.at + a.todo).None?
  }

  /** The walk is over at something that is no directory. */
  ghost predicate Arrives(t: Tree, a: Walker) {
    a.todo == [] && At(t, a.at) != Some(Dir)
  }

  /** The walk over a path ends at `p`, which is no directory, or in the directory in which `p`
      would be created under the last name. */
  ghost predicate OpensBy(t: Tree, from: Path, names: seq<string>, links: nat, p: Path) {
    exists walk, end :: Leads(t, walk, Walker(from, names, links), end)
                        && ((Arrives(t, end) && end.at == p) || (Creates(t, end) && end.at + end.todo == p))
  }

  lemma {:induction false} LandingWalks(t: Tree, a: Walker) returns (walk: seq<Walker>, end: Walker)
    requires Landing(t, a.at, a.todo, a.links).Some?
    ensures Leads(t, walk, a, end)
    ensures var p := Landing(t, a.at, a.todo, a.links).value;
            (Arrives(t, end) && end.at == p) || (Creates(t, end) && end.at + end.todo == p)
    decreases a.links, |a.todo|
  {
    if a.todo == [] || Next(t, a).None? {
      walk, end := [a], a;
      if a.todo != [] {
        LandingStep(t, a);
      }
    } else {
      LandingStep(t, a);
      var b := Next(t, a).value;
      NextExactly(t, a, b);
      var rest;
      rest, end := LandingWalks(t, b);
      Extend(t, a, rest, end);
      walk := [a] + rest;
    }
  }

  lemma NothingFollows(t: Tree, a: Walker)
    requires Arrives(t, a) || Creates(t, a)
    ensures Next(t, a).None?
  {
    if Creates(t, a) {
      assert a.todo == [a.todo[0]];
    }
  }

  lemma {:induction false} WalkLands(t: Tree, walk: seq<Walker>, a: Walker, end: Walker)
    requires Leads(t, walk, a, end) && (Arrives(t, end) || Creates(t, end))
    ensures Landing(t, a.at, a.todo, a.links) == Some(if Arrives(t, end) then end.at else end.at + end.todo)
  {
    if |walk| > 1 {
      Shorten(t, walk, a, end);
      NextExactly(t, a, walk[1]);
      WalkLands(t, walk[1..], walk[1], end);
      LandingStep(t, a);
    } else if Creates(t, a) {
      NothingFollows(t, a);
      LandingStep(t, a);
    }
  }

  /** Opening a path for writing lands on `p` if and only if the walk it names ends at `p`, no
      directory, or in the directory in which its last name is free and gives `p`. */
  lemma LandsExactly(t: Tree, from: Path, names: seq<string>, links: nat, p: Path)
    ensures Landing(t, from, names, links) == Some(p) <==> OpensBy(t, from, names, links, p)
  {
    var a := Walker(from, names, links);
    if Landing(t, from, names, links) == Some(p) {
      var walk, end := LandingWalks(t, a);
    }
    if OpensBy(t, from, names, links, p) {
      var walk, end :| Leads(t, walk, a, end)
                       && ((Arrives(t, end) && end.at == p) || (Creates(t, end) && end.at + end.todo == p));
      WalkLands(t, walk, a, end);
    }
  }

  // ---- `..` -------------------------------------------------------------------------------------

  /** Following two paths in turn is following one after the other. */
  lemma {:induction false} ResolveAppend(t: Tree, a: Walker, more: seq<string>) returns (left: nat)
    requires Resolve(t, a.at, a.todo, a.links).Some?
    ensures left <= a.links
    ensures Resolve(t, a.at, a.todo + more, a.links) == Resolve(t, Resolve(t, a.at, a.todo, a.links).value, more, left)
    decreases a.links, |a.todo|
  {
    if a.todo == [] {
      left := a.links;
      assert a.todo + more == more;
    } else {
      ResolveStep(t, a);
      var b := Next(t, a).value;
      left := ResolveAppend(t, b, more);
      NextAppend(t, a, more);
      ResolveStep(t, a.(todo := a.todo + more));
    }
  }

  lemma NextAppend(t: Tree, a: Walker, more: seq<string>)
    requires Next(t, a).Some?
    ensures Next(t, a.(todo := a.todo + more)) == Some(Next(t, a).value.(todo := Next(t, a).value.todo + more))
  {
    var rest := a.todo[1..];
    assert (a.todo + more)[1..] == rest + more;
    if a.todo[0] != "." && a.todo[0] != ".." && At(t, a.at + [a.todo[0]]).value.Link? {
      var target := At(t, a.at + [a.todo[0]]).value.target;
      assert target + (rest + more) == (target + rest) + more;
    }
  }

  /** `dir/..` is the parent of what `dir` resolves to, if that is a directory, links included. */
  lemma DotDotIsParent(t: Tree, from: Path, names: seq<string>, links: nat)
    requires Resolve(t, from, names, links).Some?
    ensures var dir := Resolve(t, from, names, links).value;
            Resolve(t, from, names + [".."], links) == if At(t, dir) == Some(Dir) then Some(Parent(dir)) else None
  {
    var left := ResolveAppend(t, Walker(from, names, links), [".."]);
    assert [".."][1..] == [];
  }

  // ---- Authorisation -----------------------------------------------------------------------------

  /** The path names `p`: its walk, from the root or the working directory, ends there within
      forty links. */
  ghost predicate Names(t: Tree, cwd: Path, r: RawPath, p: Path) {
    !r.empty && WalksTo(t, if r.absolute then [] else cwd, r.comps, 40, p)
  }

  /** Some allowed prefix names `p` or a place above it. */
  ghost predicate Allowed(t: Tree, cwd: Path, allowed: seq<RawPath>, p: Path) {
    exists raw, q: Path :: raw in allowed && Names(t, cwd, raw, q) && q <= p
  }

  lemma NamesExactly(t: Tree, cwd: Path, r: RawPath, p: Path)
    ensures Canonicalize(t, cwd, r) == Some(p) <==> Names(t, cwd, r, p)
  {
    ResolvesExactly(t, if r.absolute then [] else cwd, r.comps, 40, p);
  }

  lemma AllowedExactly(t: Tree, cwd: Path, allowed: seq<RawPath>, p: Path)
    ensures (exists prefix :: prefix in allowed && Under(t, cwd, prefix, p)) <==> Allowed(t, cwd, allowed, p)
  {
    if prefix :| prefix in allowed && Under(t, cwd, prefix, p) {
      NamesExactly(t, cwd, prefix, Canonicalize(t, cwd, prefix).value);
    }
    if Allowed(t, cwd, allowed, p) {
      var raw, q: Path :| raw in allowed && Names(t, cwd, raw, q) && q <= p;
      NamesExactly(t, cwd, raw, q);
      assert Under(t, cwd, raw, p);
    }
  }

  /** A read is authorised for `p` if and only if the path names `p` and an allowed prefix names a
      place at or above it. */
  lemma ReadAuthorizedExactly(t: Tree, cwd: Path, allowed: seq<RawPath>, r: RawPath, p: Path)
    ensures AuthorizePath(t, cwd, allowed, r, false) == Some(p) <==> Names(t, cwd, r, p) && Allowed(t, cwd, allowed, p)
  {
    NamesExactly(t, cwd, r, p);
    AllowedExactly(t, cwd, allowed, p);
  }

  /** The path names nothing, but its parent names the directory and `p` is its last name there. */
  ghost predicate NamesNew(t: Tree, cwd: Path, r: RawPath, p: Path) {
    && (forall q :: !Names(t, cwd, r, q))
    && exists parent, name, dir: Path :: ParentAndName(r) == Some((parent, name)) && Names(t, cwd, parent, dir) && p == dir + [name]
  }

  lemma NamesNothing(t: Tree, cwd: Path, r: RawPath)
    ensures Canonicalize(t, cwd, r).None? <==> forall q :: !Names(t, cwd, r, q)
  {
    if Canonicalize(t, cwd, r).Some? {
      NamesExactly(t, cwd, r, Canonicalize(t, cwd, r).value);
    } else {
      forall q ensures !Names(t, cwd, r, q) {
        NamesExactly(t, cwd, r, q);
      }
    }
  }

  lemma LocatedNew(t: Tree, cwd: Path, r: RawPath, p: Path)
    requires Canonicalize(t, cwd, r).None?
    ensures Located(t, cwd, r, true) == Some(p) <==> NamesNew(t, cwd, r, p)
  {
    NamesNothing(t, cwd, r);
    if Located(t, cwd, r, true) == Some(p) {
      var (parent, name) := ParentAndName(r).value;
      NamesExactly(t, cwd, parent, Canonicalize(t, cwd, parent).value);
    }
    if NamesNew(t, cwd, r, p) {
      var parent, name, dir: Path :| ParentAndName(r) == Some((parent, name)) && Names(t, cwd, parent, dir) && p == dir + [name];
      NamesExactly(t, cwd, parent, dir);
    }
  }

  /** A write is authorised for `p` if and only if the path names `p`, or names nothing and its
      parent the directory of `p`; and an allowed prefix names a place at or above it. */
  lemma WriteAuthorizedExactly(t: Tree, cwd: Path, allowed: seq<RawPath>, r: RawPath, p: Path)
    ensures AuthorizePath(t, cwd, allowed, r, true) == Some(p)
       <==> (Names(t, cwd, r, p) || NamesNew(t, cwd, r, p)) && Allowed(t, cwd, allowed, p)
  {
    AllowedExactly(t, cwd, allowed, p);
    NamesExactly(t, cwd, r, p);
    NamesNothing(t, cwd, r);
    if Canonicalize(t, cwd, r).None? {
      LocatedNew(t, cwd, r, p);
    } else {
      var q := Canonicalize(t, cwd, r).value;
      NamesExactly(t, cwd, r, q);
    }
  }
}
