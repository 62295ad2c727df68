/** File reads and writes as the agent performs them (src/agent/file_ops.rs). */
module FileStore {
  import opened Wrappers
  import opened FileTree
  import opened FileOps
  import opened FileWalks

  datatype Policy = Policy(allowed: seq<string>, maxBytes: nat)

  function Prefixes(allowed: seq<string>): seq<RawPath> {
    seq(|allowed|, i requires 0 <= i < |allowed| => ParsePath(allowed[i]))
  }

  /** Where the system lets a write down, if anywhere: `n` bytes into one of its files, or at the rename. */
  datatype Fault = NoFault | InCopy(n: nat) | InTemp(n: nat) | InRename

  /** How far a write gets. */
  function Reached(t: Tree, p: Path, bytes: seq<nat>, fault: Fault): (stop: Stop)
    requires p != []
    ensures TreeAt(t, p, bytes, stop).Some?
  {
    if Exists(t, p) && AfterCopy(t, p, 0).None? then Started
    else if Exists(t, p) && fault.InCopy? then Copying(fault.n)
    else if AfterTemp(t, p, bytes, 0).None? then Copied
    else if fault.InTemp? then Writing(fault.n)
    else if fault.InRename? || TreeAt(t, p, bytes, Renamed).None? then Writing(|bytes|)
    else Renamed
  }

  /** Exactly how far: to the end if and only if every step can be taken and no fault comes in its
      way; and each fault lets the write down where it says, if the write gets there. */
  lemma ReachedExactly(t: Tree, p: Path, bytes: seq<nat>, fault: Fault)
    requires p != []
    ensures var stop := Reached(t, p, bytes, fault);
            && (stop == Renamed <==>
                  TreeAt(t, p, bytes, Renamed).Some? && !(fault.InCopy? && Exists(t, p)) && !fault.InTemp? && !fault.InRename?)
            && (stop == Started <==> Exists(t, p) && TreeAt(t, p, bytes, Copied).None?)
            && (stop.Copying? <==> Exists(t, p) && TreeAt(t, p, bytes, Copied).Some? && fault.InCopy?)
            && (stop.Copying? ==> stop.n == fault.n)
            && (stop.Writing? && fault.InTemp? ==> stop.n == fault.n) && (stop.Writing? && !fault.InTemp? ==> stop.n == |bytes|)
  {
  }

  class Files {
    var tree: Tree
    const cwd: Path

    constructor (tree: Tree, cwd: Path)
      ensures this.tree == tree && this.cwd == cwd
    {
      this.tree, this.cwd := tree, cwd;
    }

    function Authorized(t: Tree, policy: Policy, raw: string, forWrite: bool): Option<Path> {
      AuthorizePath(t, cwd, Prefixes(policy.allowed), ParsePath(raw), forWrite)
    }

    /** The text names `p`, and an allowed prefix a place at or above it. */
    ghost predicate MayRead(t: Tree, policy: Policy, raw: string, p: Path) {
      Names(t, cwd, ParsePath(raw), p) && Allowed(t, cwd, Prefixes(policy.allowed), p)
    }

    /** The text names `p`, or nothing yet and its parent the directory of `p`; and an allowed
        prefix a place at or above it. */
    ghost predicate MayWrite(t: Tree, policy: Policy, raw: string, p: Path) {
      (Names(t, cwd, ParsePath(raw), p) || NamesNew(t, cwd, ParsePath(raw), p)) && Allowed(t, cwd, Prefixes(policy.allowed), p)
    }

    /** `read`: the whole file, exactly when it is the one the text names, under an allowed prefix
        and within the size cap. */
    method Read(policy: Policy, raw: string) returns (r: Option<seq<nat>>)
      ensures forall bytes :: r == Some(bytes) <==>
                |bytes| <= policy.maxBytes && exists p: Path :: MayRead(tree, policy, raw, p) && At(tree, p) == Some(File(bytes))
    {
      forall p: Path ensures Authorized(tree, policy, raw, false) == Some(p) <==> MayRead(tree, policy, raw, p) {
        ReadAuthorizedExactly(tree, cwd, Prefixes(policy.allowed), ParsePath(raw), p);
      }
      var p := Authorized(tree, policy, raw, false);
      if p.None? {
        return None;
      }
      var node := At(tree, p.value);
      if node.None? || !node.value.File? || |node.value.bytes| > policy.maxBytes {
        return None;
      }
      return Some(node.value.bytes);
    }

    /** `write`: copy, write, rename. The tree is left where the write stopped, and the
        answer is good exactly when it got to its end. */
    method Write(policy: Policy, raw: string, bytes: seq<nat>, fault: Fault) returns (ok: bool)
      modifies this`tree
      ensures |bytes| > policy.maxBytes || (forall p: Path :: MayWrite(old(tree), policy, raw, p) ==> p == []) ==>
                !ok && tree == old(tree)
      ensures |bytes| <= policy.maxBytes ==> forall p: Path :: MayWrite(old(tree), policy, raw, p) && p != [] ==>
                var stop := Reached(old(tree), p, bytes, fault);
                Some(tree) == TreeAt(old(tree), p, bytes, stop) && (ok <==> stop == Renamed)
    {
      forall p: Path ensures Authorized(tree, policy, raw, true) == Some(p) <==> MayWrite(tree, policy, raw, p) {
        WriteAuthorizedExactly(tree, cwd, Prefixes(policy.allowed), ParsePath(raw), p);
      }
      if |bytes| > policy.maxBytes {
        return false;
      }
      var authorized := Authorized(tree, policy, raw, true);
      if authorized.None? || authorized.value == [] {
        return false;
      }
      ok := Replace(authorized.value, bytes, fault);
    }

    method Replace(p: Path, bytes: seq<nat>, fault: Fault) returns (ok: bool)
      requires p != []
      modifies this`tree
      ensures var stop := Reached(old(tree), p, bytes, fault);
              Some(tree) == TreeAt(old(tree), p, bytes, stop) && (ok <==> stop == Renamed)
    {
      if Exists(tree, p) {
        var source := ReadThrough(tree, p);
        var to := OpensAt(tree, Side(p, BACKUP));
        if source.None? || to.None? {
          return false;
        }
        var copied := if to == Resolve(tree, [], p, MAX_LINKS) then File([])
                      else if fault.InCopy? then Partly(source.value, fault.n) else File(source.value);
        tree := tree[to.value := copied];
        if fault.InCopy? {
          return false;
        }
      }
      assert TreeAt(old(tree), p, bytes, Copied) == Some(tree);
      var temp := OpensAt(tree, Side(p, TEMP));
      if temp.None? {
        return false;
      }
      tree := tree[temp.value := if fault.InTemp? then Partly(bytes, fault.n) else File(bytes)];
      if fault.InTemp? {
        return false;
      }
      assert TreeAt(old(tree), p, bytes, Writing(|bytes|)) == Some(tree);
      var renamed := Renaming(tree, Side(p, TEMP), p);
      if fault.InRename? || renamed.None? {
        return false;
      }
      tree := renamed.value;
      return true;
    }
  }
}
