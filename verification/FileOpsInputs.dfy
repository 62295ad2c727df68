/** Trees on which a write leaves the allowed prefixes or tears its target. */
module FileOpsInputs {
  import opened Wrappers
  import opened Paths
  import opened FileTree
  import opened FileOps
  import opened FileOpsTheorems

  /** An absolute path of plain names. */
  function Absolute(comps: seq<string>): RawPath {
    RawPath(true, comps, false)
  }

  predicate Plain(name: string) {
    name != "." && name != ".."
  }

  /** One step down into an entry that is no link. */
  lemma OneName(t: Tree, cur: Path, name: string, rest: seq<string>, links: nat)
    requires Plain(name) && At(t, cur) == Some(Dir) && At(t, cur + [name]).Some? && !IsLink(t, cur + [name])
    ensures Resolve(t, cur, [name] + rest, links) == Resolve(t, cur + [name], rest, links)
    ensures Landing(t, cur, [name] + rest, links) == Landing(t, cur + [name], rest, links)
  {
    assert ([name] + rest)[0] == name && ([name] + rest)[1..] == rest;
  }

  lemma NoName(t: Tree, cur: Path, name: string, links: nat)
    requires Plain(name) && At(t, cur) == Some(Dir) && At(t, cur + [name]).None?
    ensures Resolve(t, cur, [name], links).None? && Landing(t, cur, [name], links) == Some(cur + [name])
  {
    assert [name][0] == name && [name][1..] == [];
  }

  lemma LinkName(t: Tree, cur: Path, name: string, links: nat)
    requires Plain(name) && At(t, cur) == Some(Dir) && IsLink(t, cur + [name]) && links > 0
    ensures var link := t[cur + [name]];
            Landing(t, cur, [name], links) == Landing(t, if link.absolute then [] else cur, link.target, links - 1)
  {
    assert [name][0] == name && [name][1..] == [] && t[cur + [name]].target + [] == t[cur + [name]].target;
  }

  /** Opening and resolving an entry of a top-level directory. */
  lemma InDirectory(t: Tree, d: string, name: string)
    requires Plain(d) && Plain(name) && At(t, [d]) == Some(Dir)
    ensures Canonicalize(t, [], Absolute([d])) == Some([d])
    ensures Canonicalize(t, [], Absolute([d, name])) == Resolve(t, [d], [name], MAX_LINKS)
    ensures OpensAt(t, [d, name]) == Landing(t, [d], [name], MAX_LINKS)
    ensures At(t, [d, name]).None? ==>
              Resolve(t, [d], [name], MAX_LINKS).None? && OpensAt(t, [d, name]) == Some([d, name])
    ensures At(t, [d, name]).Some? && At(t, [d, name]).value.File? ==>
              Resolve(t, [d], [name], MAX_LINKS) == Some([d, name]) && OpensAt(t, [d, name]) == Some([d, name])
  {
    assert [] + [d] == [d] && [d] + [] == [d] && [d] + [name] == [d, name] && [name] + [] == [name];
    OneName(t, [], d, [], MAX_LINKS);
    OneName(t, [], d, [name], MAX_LINKS);
    if At(t, [d, name]).None? {
      NoName(t, [d], name, MAX_LINKS);
    } else if At(t, [d, name]).value.File? {
      OneName(t, [d], name, [], MAX_LINKS);
    }
  }

  lemma Parts(d: string, name: string)
    requires Plain(d) && Plain(name)
    ensures ParentAndName(Absolute([d, name])) == Some((Absolute([d]), name))
  {
    assert WithoutDots([]) == [] && [name][1..] == [] && [d, name][1..] == [name];
    assert WithoutDots([name]) == [name];
    assert WithoutDots([d, name]) == [d, name];
    assert Components(Absolute([d, name])) == [d, name];
    assert [d, name][..1] == [d];
  }

  lemma SideOf(d: string, name: string, ext: string)
    ensures Side([d, name], ext) == [d, WithExtension(name, ext)]
  {
    assert [d, name][..1] == [d];
  }

  /** The directory `d` with a link under the temporary name of `name`. */
  function LinkedTemp(d: string, name: string, outside: string): Tree {
    map[[d] := Dir, [d, WithExtension(name, TEMP)] := Link(true, [outside])]
  }

  /** A link under the temporary name carries the write out of the allowed directory. */
  lemma LinkedTempEscapes(d: string, name: string, outside: string)
    requires Plain(d) && Plain(name) && Plain(outside) && Plain(WithExtension(name, TEMP))
    requires outside != d && WithExtension(name, TEMP) != name
    ensures var t, p := LinkedTemp(d, name, outside), [d, name];
            && AuthorizePath(t, [], [Absolute([d])], Absolute(p), true) == Some(p)
            && Changed(t, p, [7], Writing(1), [outside]) && !Confined(t, p, {[d]})
  {
    var t, p, temp := LinkedTemp(d, name, outside), [d, name], WithExtension(name, TEMP);
    assert p[1] != [d, temp][1];
    InDirectory(t, d, name);
    Parts(d, name);
    assert [d] + [name] == p;
    assert Under(t, [], Absolute([d]), p);
    InDirectory(t, d, temp);
    SideOf(d, name, TEMP);
    assert [d] + [temp] == [d, temp] && [] + [outside] == [outside];
    LinkName(t, [d], temp, MAX_LINKS);
    assert [outside][0] != [d][0];
    NoName(t, [], outside, MAX_LINKS - 1);
    TempStep(t, p, [7], 1);
    assert Changed(t, p, [7], Writing(1), [outside]) && !Inside({[d]}, [outside]);
  }

  /** An allowed prefix that is a file: its side files are its siblings. */
  lemma FilePrefixEscapes(d: string, name: string, bytes: seq<nat>)
    requires Plain(d) && Plain(name) && Plain(WithExtension(name, BACKUP)) && WithExtension(name, BACKUP) != name
    ensures var t: Tree, p := map[[d] := Dir, [d, name] := File(bytes)], [d, name];
            && AuthorizePath(t, [], [Absolute(p)], Absolute(p), true) == Some(p)
            && Changed(t, p, [], Copied, Side(p, BACKUP)) && !Confined(t, p, {p})
  {
    var t: Tree, p, backup := map[[d] := Dir, [d, name] := File(bytes)], [d, name], WithExtension(name, BACKUP);
    InDirectory(t, d, name);
    assert Under(t, [], Absolute(p), p);
    SideOf(d, name, BACKUP);
    assert p[1] != [d, backup][1];
    InDirectory(t, d, backup);
    BackupStep(t, p);
    assert Changed(t, p, [], Copied, [d, backup]) && !Inside({p}, [d, backup]);
  }

  /** A backup name that is a link to the target: copying empties the target first. */
  lemma LinkedBackupTears(d: string, name: string, bytes: seq<nat>)
    requires Plain(d) && Plain(name) && Plain(WithExtension(name, BACKUP)) && WithExtension(name, BACKUP) != name
    requires bytes != []
    ensures var p := [d, name];
            var t: Tree := map[[d] := Dir, p := File(bytes), Side(p, BACKUP) := Link(false, [name])];
            Writable(t, p) && !AllOrNothing(t, p) && TreeAt(t, p, bytes, Copying(0)) == Some(t[p := File([])])
  {
    var p := [d, name];
    SideOf(d, name, BACKUP);
    var backup := WithExtension(name, BACKUP);
    assert p[1] != [d, backup][1];
    var t: Tree := map[[d] := Dir, p := File(bytes), [d, backup] := Link(false, [name])];
    InDirectory(t, d, name);
    InDirectory(t, d, backup);
    assert [d] + [backup] == [d, backup] && [d] + [name] == p && [name] + [] == [name];
    LinkName(t, [d], backup, MAX_LINKS);
    OneName(t, [d], name, [], MAX_LINKS - 1);
    assert p[..0] == [] && p[..1] == [d];
    CopyStep(t, p, 0);
    CopyTears(t, p);
  }

  lemma TextNames()
    ensures WithExtension("c.txt", TEMP) == "c.guestkit-tmp" && WithExtension("c.txt", BACKUP) == "c.guestkit-bak"
  {
    StemOf("c", "txt");
    assert "c" + "." + "txt" == "c.txt";
  }

  /** The first two failures on actual names: `/d/c.txt` with a linked temporary name below
      the allowed `/d`, and the file `/d/c.txt` as the allowed prefix itself. */
  lemma EscapingInputs()
    ensures !Confined(LinkedTemp("d", "c.txt", "e"), ["d", "c.txt"], {["d"]})
    ensures !Confined(map[["d"] := Dir, ["d", "c.txt"] := File([1])], ["d", "c.txt"], {["d", "c.txt"]})
  {
    TextNames();
    LinkedTempEscapes("d", "c.txt", "e");
    FilePrefixEscapes("d", "c.txt", [1]);
  }

  /** The third: `/d/c.guestkit-bak` is a link to `/d/c.txt`. */
  lemma TornInput()
    ensures var t: Tree := map[["d"] := Dir, ["d", "c.txt"] := File([7]), Side(["d", "c.txt"], BACKUP) := Link(false, ["c.txt"])];
            !AllOrNothing(t, ["d", "c.txt"])
  {
    TextNames();
    LinkedBackupTears("d", "c.txt", [7]);
  }
}
