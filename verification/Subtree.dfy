/** Collecting the cgroup ids below a directory (`subtree_ids` in src/agent/guest_ebpf.rs). */
module Subtree {
  import opened Sequences

  /** A directory entry. `stat` and `list` say whether its metadata and its
      children can be read; `Other` is anything that is not a directory. */
  datatype Node = Dir(ino: nat, stat: bool, list: bool, children: seq<Node>) | Other

  function Dirs(nodes: seq<Node>): (r: seq<Node>)
    ensures forall n :: n in r ==> n in nodes && n.Dir?
  {
    if nodes == [] then [] else (if nodes[0].Dir? then [nodes[0]] else []) + Dirs(nodes[1..])
  }

  /** The inode numbers a walk can see, each directory once. */
  ghost function Visible(n: Node): multiset<nat>
    decreases n, 1
  {
    if n.Dir? && n.stat then multiset{n.ino} + (if n.list then VisibleAll(n.children) else multiset{}) else multiset{}
  }

  ghost function VisibleAll(nodes: seq<Node>): multiset<nat>
    decreases nodes, 0
  {
    if nodes == [] then multiset{} else Visible(nodes[0]) + VisibleAll(nodes[1..])
  }

  ghost function Size(n: Node): nat
    decreases n, 1
  {
    if n.Dir? then 1 + SizeAll(n.children) else 0
  }

  ghost function SizeAll(nodes: seq<Node>): nat
    decreases nodes, 0
  {
    if nodes == [] then 0 else Size(nodes[0]) + SizeAll(nodes[1..])
  }

  lemma Front(n: Node, nodes: seq<Node>)
    ensures VisibleAll([n] + nodes) == Visible(n) + VisibleAll(nodes)
    ensures SizeAll([n] + nodes) == Size(n) + SizeAll(nodes)
  {
    assert ([n] + nodes)[1..] == nodes;
  }

  lemma {:induction false} VisibleAppended(a: seq<Node>, b: seq<Node>)
    ensures VisibleAll(a + b) == VisibleAll(a) + VisibleAll(b)
  {
    if a == [] {
      assert a + b == b;
    } else {
      VisibleAppended(a[1..], b);
      Uncons(a, b);
      Front(a[0], a[1..] + b);
    }
  }

  lemma {:induction false} SizeAppended(a: seq<Node>, b: seq<Node>)
    ensures SizeAll(a + b) == SizeAll(a) + SizeAll(b)
  {
    if a == [] {
      assert a + b == b;
    } else {
      SizeAppended(a[1..], b);
      Uncons(a, b);
      Front(a[0], a[1..] + b);
    }
  }

  lemma {:induction false} OnlyDirsCount(nodes: seq<Node>)
    ensures VisibleAll(Dirs(nodes)) == VisibleAll(nodes)
    ensures SizeAll(Dirs(nodes)) == SizeAll(nodes)
  {
    if nodes != [] {
      OnlyDirsCount(nodes[1..]);
      if nodes[0].Dir? {
        assert Dirs(nodes)[1..] == Dirs(nodes[1..]);
      } else {
        assert Dirs(nodes) == Dirs(nodes[1..]);
      }
    }
  }

  /** The stack after its top directory has been taken off and expanded. */
  function Expand(stack: seq<Node>): seq<Node>
    requires stack != [] && stack[|stack| - 1].Dir?
  {
    var d, rest := stack[|stack| - 1], stack[..|stack| - 1];
    if d.stat && d.list then rest + Dirs(d.children) else rest
  }

  lemma ExpansionShows(rest: seq<Node>, d: Node)
    requires d.Dir?
    ensures VisibleAll(rest + [d])
         == VisibleAll(Expand(rest + [d])) + (if d.stat then multiset{d.ino} else multiset{})
  {
    VisibleAppended(rest, [d]);
    assert VisibleAll([d]) == Visible(d) + VisibleAll([]);
    OnlyDirsCount(d.children);
    VisibleAppended(rest, Dirs(d.children));
  }

  lemma ExpansionShrinks(rest: seq<Node>, d: Node)
    requires d.Dir?
    ensures SizeAll(Expand(rest + [d])) < SizeAll(rest + [d])
  {
    SizeAppended(rest, [d]);
    assert SizeAll([d]) == Size(d) + SizeAll([]);
    OnlyDirsCount(d.children);
    SizeAppended(rest, Dirs(d.children));
  }

  lemma Expansion(stack: seq<Node>)
    requires stack != [] && forall n :: n in stack ==> n.Dir?
    ensures var d := stack[|stack| - 1];
            && VisibleAll(stack) == VisibleAll(Expand(stack)) + (if d.stat then multiset{d.ino} else multiset{})
            && SizeAll(Expand(stack)) < SizeAll(stack)
            && forall n :: n in Expand(stack) ==> n.Dir?
  {
    var d, rest := stack[|stack| - 1], stack[..|stack| - 1];
    assert stack == rest + [d];
    ExpansionShows(rest, d);
    ExpansionShrinks(rest, d);
  }

  lemma Balance(out: seq<nat>, stack: seq<Node>)
    requires stack != [] && forall n :: n in stack ==> n.Dir?
    ensures var d := stack[|stack| - 1];
            multiset(if d.stat then out + [d.ino] else out) + VisibleAll(Expand(stack)) == multiset(out) + VisibleAll(stack)
  {
    Expansion(stack);
  }

  /** The work-stack walk: it ends, and it returns every readable directory
      exactly as often as it occurs in the tree, the root's own id first. */
  method SubtreeIds(root: Node) returns (out: seq<nat>)
    requires root.Dir?
    ensures multiset(out) == Visible(root)
    ensures root.stat ==> out != [] && out[0] == root.ino
  {
    out := [];
    var stack := [root];
    assert VisibleAll(stack) == Visible(root) + VisibleAll([]);
    while stack != []
      invariant forall n :: n in stack ==> n.Dir?
      invariant multiset(out) + VisibleAll(stack) == Visible(root)
      invariant out == [] ==> stack == [root] || (stack == [] && !root.stat)
      invariant out != [] ==> out[0] == root.ino
      decreases SizeAll(stack)
    {
      Expansion(stack);
      Balance(out, stack);
      var d := stack[|stack| - 1];
      var next := stack[..|stack| - 1];
      if d.stat {
        out := out + [d.ino];
        if d.list {
          next := next + Dirs(d.children);
        }
      }
      stack := next;
    }
  }

  /** When no two directories share an inode number the ids are pairwise distinct. */
  lemma DistinctIds(out: seq<nat>, root: Node)
    requires multiset(out) == Visible(root)
    requires forall i :: i in Visible(root) ==> Visible(root)[i] == 1
    ensures Distinct(out)
  {
    forall i, j | 0 <= i < j < |out|
      ensures out[i] != out[j]
    {
      var before, after := multiset(out[..j]), multiset(out[j + 1..]);
      assert out == out[..j] + [out[j]] + out[j + 1..];
      assert Visible(root) == before + multiset{out[j]} + after;
      assert out[..j][i] in before;
      assert Visible(root)[out[j]] == 1;
    }
  }
}
