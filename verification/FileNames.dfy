/** Paths as text (what `Path::new`, `parent` and `file_name` make of it for
    src/agent/file_ops.rs), and where a new file goes. */
module FileNames {
  import opened Wrappers
  import opened Sequences
  import opened Text
  import opened FileTree
  import opened FileOps
  import opened FileWalks

  // ---- Components ------------------------------------------------------------------------

  lemma {:induction false} SplitJoined(a: string, b: string)
    ensures Split(a + "/" + b, '/') == Split(a, '/') + Split(b, '/')
  {
    var s := a + "/" + b;
    if a == "" {
      assert s[1..] == b;
    } else {
      SplitJoined(a[1..], b);
      assert s[1..] == a[1..] + "/" + b && s[0] == a[0];
      var first, others := Split(a[1..], '/'), Split(b, '/');
      if a[0] == '/' {
        Regroup([""], first, others);
      } else {
        Uncons(first, others);
        Regroup([[a[0]] + first[0]], first[1..], others);
      }
    }
  }

  lemma {:induction false} PiecesAppend(x: seq<string>, y: seq<string>)
    ensures NonEmptyPieces(x + y) == NonEmptyPieces(x) + NonEmptyPieces(y)
  {
    if x == [] {
      assert x + y == y;
    } else {
      PiecesAppend(x[1..], y);
      Uncons(x, y);
      Regroup(if x[0] == "" then [] else [x[0]], NonEmptyPieces(x[1..]), NonEmptyPieces(y));
    }
  }

  /** The names in a text: its non-empty stretches between slashes. */
  function NamesIn(s: string): seq<string> {
    NonEmptyPieces(Split(s, '/'))
  }

  /** A slash separates names, wherever it stands and however many there are. */
  lemma SlashSeparates(a: string, b: string)
    ensures NamesIn(a + "/" + b) == NamesIn(a) + NamesIn(b)
  {
    SplitJoined(a, b);
    PiecesAppend(Split(a, '/'), Split(b, '/'));
  }

  lemma {:induction false} NoSlashSplit(s: string)
    requires '/' !in s
    ensures Split(s, '/') == [s]
  {
    if s != "" {
      NoSlashSplit(s[1..]);
      assert [s[0]] + s[1..] == s;
    }
  }

  /** A text without slashes is one name, or none if it is empty. */
  lemma OneName(s: string)
    requires '/' !in s
    ensures NamesIn(s) == if s == "" then [] else [s]
  {
    NoSlashSplit(s);
    assert [s][1..] == [];
    assert NonEmptyPieces([s]) == (if s == "" then [] else [s]) + NonEmptyPieces([]);
  }

  ghost predicate ProperNames(names: seq<string>) {
    forall i :: 0 <= i < |names| ==> names[i] != "" && '/' !in names[i]
  }

  lemma {:induction false} JoinedNames(names: seq<string>)
    requires ProperNames(names)
    ensures NamesIn(Join(names, '/')) == names
  {
    if |names| == 1 {
      OneName(names[0]);
    } else if |names| > 1 {
      JoinedNames(names[1..]);
      SlashSeparates(names[0], Join(names[1..], '/'));
      OneName(names[0]);
      assert names == [names[0]] + names[1..];
    } else {
      OneName("");
    }
  }

  lemma {:induction false} JoinEnds(names: seq<string>)
    requires ProperNames(names) && names != []
    ensures var s := Join(names, '/'); s != "" && s[0] != '/' && s[|s| - 1] != '/'
  {
    assert names[0][0] in names[0] && names[0][|names[0]| - 1] in names[0];
    if |names| > 1 {
      JoinEnds(names[1..]);
    }
  }

  /** Written out with slashes between its names, and one in front if it is absolute, a path
      reads back. */
  lemma PathReadsBack(absolute: bool, names: seq<string>)
    requires ProperNames(names) && names != []
    ensures ParsePath((if absolute then "/" else "") + Join(names, '/')) == RawPath(absolute, names, false)
  {
    var text := Join(names, '/');
    JoinEnds(names);
    JoinedNames(names);
    if absolute {
      var s := "/" + text;
      assert s == "" + "/" + text;
      SlashSeparates("", text);
      OneName("");
      assert s[|s| - 1] == text[|text| - 1];
    } else {
      assert "" + text == text;
    }
  }

  /** What else there is: a path is absolute if and only if it begins with a slash, empty if and
      only if its text is, and one that ends with a slash ends in its directory. */
  lemma PathMarks(s: string)
    ensures ParsePath(s).absolute <==> "/" <= s
    ensures ParsePath(s).empty <==> s == ""
    ensures ParsePath(s).comps == if s != "" && s[|s| - 1] == '/' then NamesIn(s) + ["."] else NamesIn(s)
  {
  }

  // ---- The parent ----------------------------------------------------------------------------

  lemma {:induction false} DotsAppend(a: seq<string>, b: seq<string>)
    ensures WithoutDots(a + b) == WithoutDots(a) + WithoutDots(b)
  {
    if a == [] {
      assert a + b == b;
    } else {
      DotsAppend(a[1..], b);
      Uncons(a, b);
      Regroup(if a[0] == "." then [] else [a[0]], WithoutDots(a[1..]), WithoutDots(b));
    }
  }

  /** One step of a walk whose names come in two parts. */
  lemma {:induction false} DotsDoNotMatter(t: Tree, a: Walker, before: seq<string>, names: seq<string>)
    requires a.todo == before + names && Resolve(t, a.at, a.todo, a.links).Some?
    ensures Resolve(t, a.at, before + WithoutDots(names), a.links) == Resolve(t, a.at, a.todo, a.links)
    decreases a.links, |a.todo|
  {
    if a.todo != [] {
      ResolveStep(t, a);
      var b := Next(t, a).value;
      if before != [] {
        var more := WithFirst(t, a, b, before, names);
        DotsDoNotMatter(t, b, more, names);
        ResolveStep(t, a.(todo := before + WithoutDots(names)));
      } else {
        assert before + names == names && before + WithoutDots(names) == WithoutDots(names);
        var more := WithoutFirst(t, a, b, names);
        DotsDoNotMatter(t, b, more, names[1..]);
        if names[0] == "." {
          assert [] + WithoutDots(names[1..]) == WithoutDots(names);
        } else {
          ResolveStep(t, a.(todo := WithoutDots(names)));
        }
      }
    }
  }

  /** The names a step on `name` puts in front of the others: a link's target. */
  function Inserted(t: Tree, at: Path, name: string): seq<string> {
    if name != "." && name != ".." && At(t, at + [name]).Some? && At(t, at + [name]).value.Link? then At(t, at + [name]).value.target
    else []
  }

  lemma StepTodo(t: Tree, a: Walker, b: Walker, name: string, rest: seq<string>)
    requires a.todo == [name] + rest && Next(t, a) == Some(b)
    ensures b.todo == Inserted(t, a.at, name) + rest
    ensures forall other: seq<string> :: Next(t, a.(todo := [name] + other)) == Some(b.(todo := Inserted(t, a.at, name) + other))
  {
    assert a.todo[1..] == rest;
    assert forall s: seq<string> :: [] + s == s;
    forall other: seq<string>
      ensures Next(t, a.(todo := [name] + other)) == Some(b.(todo := Inserted(t, a.at, name) + other))
    {
      assert ([name] + other)[1..] == other;
    }
  }

  lemma WithFirst(t: Tree, a: Walker, b: Walker, before: seq<string>, names: seq<string>) returns (more: seq<string>)
    requires before != [] && a.todo == before + names && Next(t, a) == Some(b)
    ensures b.todo == more + names
    ensures Next(t, a.(todo := before + WithoutDots(names))) == Some(b.(todo := more + WithoutDots(names)))
  {
    var name, rest, into := before[0], before[1..], Inserted(t, a.at, before[0]);
    assert before == [name] + rest;
    Regroup([name], rest, names);
    Regroup([name], rest, WithoutDots(names));
    StepTodo(t, a, b, name, rest + names);
    more := into + rest;
    Regroup(into, rest, names);
    Regroup(into, rest, WithoutDots(names));
  }

  lemma WithoutFirst(t: Tree, a: Walker, b: Walker, names: seq<string>) returns (more: seq<string>)
    requires names != [] && a.todo == names && Next(t, a) == Some(b)
    ensures b.todo == more + names[1..]
    ensures names[0] == "." ==> more == [] && b.at == a.at && b.links == a.links
    ensures names[0] != "." ==> Next(t, a.(todo := WithoutDots(names))) == Some(b.(todo := more + WithoutDots(names[1..])))
  {
    assert names == [names[0]] + names[1..];
    StepTodo(t, a, b, names[0], names[1..]);
    more := Inserted(t, a.at, names[0]);
  }

  // ---- A new file ----------------------------------------------------------------------------------

  lemma ComponentsOf(r: RawPath, dir: seq<string>, name: string)
    requires r.comps == dir + [name] && name != "." && name != ".."
    ensures var cs := Components(r);
            && cs != [] && cs[|cs| - 1] == name
            && cs[..|cs| - 1] == (if !r.absolute && dir != [] && dir[0] == "." then ["."] else []) + WithoutDots(dir)
  {
    DotsAppend(dir, [name]);
    assert [name][1..] == [] && WithoutDots([name]) == [name] + WithoutDots([]);
    var lead := if !r.absolute && dir != [] && dir[0] == "." then ["."] else [];
    assert dir != [] ==> r.comps[0] == dir[0];
    assert Components(r) == lead + (WithoutDots(dir) + [name]);
    Regroup(lead, WithoutDots(dir), [name]);
  }

  lemma ParentResolves(t: Tree, from: Path, dir: seq<string>, q: Path, lead: bool)
    requires Resolve(t, from, dir, MAX_LINKS) == Some(q) && (lead ==> dir != [] && dir[0] == ".")
    ensures Resolve(t, from, (if lead then ["."] else []) + WithoutDots(dir), MAX_LINKS) == Some(q)
  {
    var a := Walker(from, dir, MAX_LINKS);
    if lead {
      assert dir == ["."] + dir[1..];
      DotsDoNotMatter(t, a, ["."], dir[1..]);
      assert WithoutDots(dir) == [] + WithoutDots(dir[1..]) == WithoutDots(dir[1..]);
    } else {
      assert dir == [] + dir;
      DotsDoNotMatter(t, a, [], dir);
    }
  }

  lemma NothingThere(t: Tree, from: Path, dir: seq<string>, q: Path, name: string)
    requires Resolve(t, from, dir, MAX_LINKS) == Some(q) && name != "." && name != ".." && At(t, q + [name]).None?
    ensures Resolve(t, from, dir + [name], MAX_LINKS).None?
  {
    var left := ResolveAppend(t, Walker(from, dir, MAX_LINKS), [name]);
    assert [name][1..] == [];
  }

  /** A path whose directory part names an existing directory in which its last name is free is
      located there for a write; except that a bare name has no parent to look in. */
  lemma NewFileExactly(t: Tree, cwd: Path, r: RawPath, dir: seq<string>, name: string, q: Path)
    requires !r.empty && r.comps == dir + [name] && name != "." && name != ".."
    requires WalksTo(t, if r.absolute then [] else cwd, dir, 40, q) && At(t, q) == Some(Dir) && At(t, q + [name]).None?
    ensures Located(t, cwd, r, true) == if r.absolute || dir != [] then Some(q + [name]) else None
  {
    var from, lead := if r.absolute then [] else cwd, !r.absolute && dir != [] && dir[0] == ".";
    ResolvesExactly(t, from, dir, 40, q);
    NothingThere(t, from, dir, q, name);
    ComponentsOf(r, dir, name);
    ParentResolves(t, from, dir, q, lead);
    if dir != [] && !r.absolute {
      SomeLeft(dir, lead);
    }
  }

  lemma SomeLeft(dir: seq<string>, lead: bool)
    requires dir != [] && (dir[0] == "." ==> lead)
    ensures (if lead then ["."] else []) + WithoutDots(dir) != []
  {
  }
}
