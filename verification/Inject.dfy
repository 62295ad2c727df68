/** Adding operations to a fix plan: the four steps that install the agent
    (src/agent/inject.rs) and single payload operations (src/assurance/inject.rs). */
module Inject {
  import opened Wrappers
  import opened Sequences
  import opened Text

  /** An operation's id, by how it is written: `agent-001`, `inject-001`, or any other text. */
  datatype Id = AgentNo(n: nat) | InjectNo(n: nat) | OtherText(text: string)

  function IdText(id: Id): string {
    match id
    case AgentNo(n) => "agent-" + Padded(n)
    case InjectNo(n) => "inject-" + Padded(n)
    case OtherText(text) => text
  }

  /** Where the install puts its two files. */
  datatype Place = AgentBinary | AgentUnit

  datatype Command = MakeExecutable | EnableService

  /** Where a copy takes its bytes from when the plan is carried out: a path the caller gave, or
      the file in which this process stages unit files. */
  datatype Source = Given(path: string) | StagingFile

  datatype Work = FileCopy(source: Source, destination: Place) | CommandExec(command: Command) | Payload(what: string)

  datatype Operation = Operation(id: Id, work: Work, dependsOn: seq<Id>)

  /** How writing the staging file goes; a failed write may leave some other content there. */
  datatype Staging = Written(unit: string) | Broken(left: Option<string>)

  /** One call on the plan. An agent install stops after its first operation when
      the unit file cannot be staged. */
  datatype Call = InstallAgent(binary: string, staging: Staging) | Push(what: string)

  function Install(n: nat, binary: string): seq<Operation> {
    [ Operation(AgentNo(n), FileCopy(Given(binary), AgentBinary), []),
      Operation(AgentNo(n + 1), FileCopy(StagingFile, AgentUnit), [AgentNo(n)]),
      Operation(AgentNo(n + 2), CommandExec(MakeExecutable), [AgentNo(n)]),
      Operation(AgentNo(n + 3), CommandExec(EnableService), [AgentNo(n + 1)]) ]
  }

  function Added(size: nat, call: Call): seq<Operation> {
    match call
    case InstallAgent(binary, staging) =>
      if staging.Written? then Install(size + 1, binary) else Install(size + 1, binary)[..1]
    case Push(what) => [Operation(InjectNo(size + 1), Payload(what), [])]
  }

  function After(ops: seq<Operation>, calls: seq<Call>): seq<Operation> {
    if calls == [] then ops
    else var before := After(ops, calls[..|calls| - 1]); before + Added(|before|, calls[|calls| - 1])
  }

  /** The ids some calls add to a plan of `size` operations: one per position they fill,
      under the prefix of the call that fills it. */
  function NewIds(size: nat, calls: seq<Call>): seq<Id> {
    if calls == [] then []
    else
      var before := NewIds(size, calls[..|calls| - 1]);
      before + IdsOf(Added(size + |before|, calls[|calls| - 1]))
  }

  function IdsOf(ops: seq<Operation>): seq<Id> {
    seq(|ops|, i requires 0 <= i < |ops| => ops[i].id)
  }

  /** A process's directory of temporary files, which all its plans share. */
  class TempDir {
    const dir: string
    const process: nat
    var files: map<string, string>

    constructor (dir: string, process: nat, files: map<string, string>)
      ensures this.dir == dir && this.process == process && this.files == files
    {
      this.dir, this.process, this.files := dir, process, files;
    }
  }

  class FixPlan {
    var operations: seq<Operation>
    var tags: seq<string>
    var notes: nat

    constructor (operations: seq<Operation>)
      ensures this.operations == operations && tags == [] && notes == 0
    {
      this.operations, tags, notes := operations, [], 0;
    }

    /** The tag and the first operation stay when staging fails; the closing
        message is only added by a complete install. */
    method AppendAgentOps(temp: TempDir, binary: string, staging: Staging) returns (ok: bool)
      modifies this, temp`files
      ensures ok == staging.Written?
      ensures operations == old(operations) + Added(|old(operations)|, InstallAgent(binary, staging))
      ensures temp.files == Staged(old(temp.files), StagingPath(temp.dir, temp.process), InstallAgent(binary, staging))
      ensures tags == old(tags) + ["inject-agent"]
      ensures notes == old(notes) + (if ok then 1 else 0)
    {
      tags := tags + ["inject-agent"];
      var base := |operations| + 1;
      operations := operations + [Operation(AgentNo(base), FileCopy(Given(binary), AgentBinary), [])];
      var path := StagingPath(temp.dir, temp.process);
      match staging {
        case Broken(left) =>
          if left.Some? {
            temp.files := temp.files[path := left.value];
          }
          return false;
        case Written(unit) =>
          temp.files := temp.files[path := unit];
      }
      operations := operations + [Operation(AgentNo(base + 1), FileCopy(StagingFile, AgentUnit), [AgentNo(base)])];
      operations := operations + [Operation(AgentNo(base + 2), CommandExec(MakeExecutable), [AgentNo(base)])];
      operations := operations + [Operation(AgentNo(base + 3), CommandExec(EnableService), [AgentNo(base + 1)])];
      notes := notes + 1;
      ok := true;
    }

    method PushPayload(what: string)
      modifies this`operations
      ensures operations == old(operations) + Added(|old(operations)|, Push(what))
    {
      var n := |operations| + 1;
      operations := operations + [Operation(InjectNo(n), Payload(what), [])];
    }
  }

  // ---- What an install does -------------------------------------------------------------

  /** Some operation before `i` does this work, and operation `i` depends on it. */
  predicate Follows(ops: seq<Operation>, i: nat, work: Work)
    requires i < |ops|
  {
    exists j :: 0 <= j < i && ops[j].work == work && ops[j].id in ops[i].dependsOn
  }

  predicate Does(ops: seq<Operation>, work: Work) {
    exists i :: 0 <= i < |ops| && ops[i].work == work
  }

  /** An install copies the binary; if the unit was staged it also copies the unit, makes the
      binary executable and enables the service, and nothing else. The unit and the mode follow
      the binary, and the service follows the unit, each depending on it. */
  lemma InstallExactly(size: nat, binary: string, staging: Staging)
    ensures var ops := Added(size, InstallAgent(binary, staging));
            var copy, unit := FileCopy(Given(binary), AgentBinary), FileCopy(StagingFile, AgentUnit);
            && ops != [] && ops[0].work == copy && ops[0].dependsOn == [] && |ops| == (if staging.Written? then 4 else 1)
            && (Does(ops, unit) <==> staging.Written?)
            && (Does(ops, CommandExec(MakeExecutable)) <==> staging.Written?)
            && (Does(ops, CommandExec(EnableService)) <==> staging.Written?)
            && forall i :: 0 <= i < |ops| ==>
                 && (ops[i].work == unit || ops[i].work == CommandExec(MakeExecutable) ==> Follows(ops, i, copy))
                 && (ops[i].work == CommandExec(EnableService) ==> Follows(ops, i, unit))
  {
    var ops := Added(size, InstallAgent(binary, staging));
    var copy, unit := FileCopy(Given(binary), AgentBinary), FileCopy(StagingFile, AgentUnit);
    if staging.Written? {
      assert ops[1].work == unit && ops[2].work == CommandExec(MakeExecutable) && ops[3].work == CommandExec(EnableService);
      assert ops[0].id in ops[1].dependsOn && ops[0].id in ops[2].dependsOn && ops[1].id in ops[3].dependsOn;
      assert Follows(ops, 1, copy) && Follows(ops, 2, copy) && Follows(ops, 3, unit);
    }
  }

  /** A payload is one operation that depends on nothing. */
  lemma PushExactly(size: nat, what: string)
    ensures var ops := Added(size, Push(what)); |ops| == 1 && ops[0].work == Payload(what) && ops[0].dependsOn == []
  {
  }

  // ---- The staging file -----------------------------------------------------------------

  /** The name holds the process's number, and nothing of the plan or the unit. */
  function StagingPath(dir: string, process: nat): string {
    dir + "/zyvor-guest-agent-" + Decimal(process) + ".service"
  }

  /** The temporary files after a call. */
  function Staged(files: map<string, string>, path: string, call: Call): map<string, string> {
    match Left(call) { case Some(text) => files[path := text] case None => files }
  }

  /** What a call leaves in the staging file, if it touches it. */
  function Left(call: Call): Option<string> {
    match call
    case Push(_) => None
    case InstallAgent(_, Written(unit)) => Some(unit)
    case InstallAgent(_, Broken(left)) => left
  }

  function StagedAll(files: map<string, string>, path: string, calls: seq<Call>): map<string, string> {
    if calls == [] then files else Staged(StagedAll(files, path, calls[..|calls| - 1]), path, calls[|calls| - 1])
  }

  /** Call `j` is the last to leave something in the staging file. */
  predicate LastLeft(calls: seq<Call>, j: nat) {
    j < |calls| && Left(calls[j]).Some? && forall k :: j < k < |calls| ==> Left(calls[k]).None?
  }

  /** Whatever plans the calls of one process go to, each unit copy, once carried out, installs
      what the last of them left in the staging file. */
  lemma {:induction false} InstallsLastLeft(files: map<string, string>, path: string, calls: seq<Call>, i: nat) returns (j: nat)
    requires i < |calls| && Left(calls[i]).Some?
    ensures i <= j && LastLeft(calls, j)
    ensures path in StagedAll(files, path, calls) && StagedAll(files, path, calls)[path] == Left(calls[j]).value
  {
    var last := |calls| - 1;
    if Left(calls[last]).Some? {
      j := last;
    } else {
      j := InstallsLastLeft(files, path, calls[..last], i);
    }
  }

  /** An agent install gets the unit it was called with if and only if the last call of the
      process to touch the staging file left the same text there. */
  lemma OwnUnitExactly(files: map<string, string>, path: string, calls: seq<Call>, i: nat)
    requires i < |calls| && calls[i].InstallAgent? && calls[i].staging.Written?
    ensures path in StagedAll(files, path, calls)
    ensures StagedAll(files, path, calls)[path] == calls[i].staging.unit
       <==> exists j: nat :: LastLeft(calls, j) && Left(calls[j]) == Some(calls[i].staging.unit)
  {
    var j := InstallsLastLeft(files, path, calls, i);
    assert forall k: nat :: LastLeft(calls, k) ==> k == j;
  }

  /** Two installs before either plan is carried out: both plans copy the second unit. */
  lemma SecondUnitForBoth(files: map<string, string>, path: string, binary: string, one: string, two: string)
    requires one != two
    ensures var calls := [InstallAgent(binary, Written(one)), InstallAgent(binary, Written(two))];
            path in StagedAll(files, path, calls) && StagedAll(files, path, calls)[path] == two
  {
    var calls := [InstallAgent(binary, Written(one)), InstallAgent(binary, Written(two))];
    var j := InstallsLastLeft(files, path, calls, 1);
  }

  lemma SameMiddle(a: string, x: string, y: string, b: string)
    requires a + x + b == a + y + b
    ensures x == y
  {
    assert |x| == |y|;
    assert x == (a + x + b)[|a|..|a| + |x|] == (a + y + b)[|a|..|a| + |y|] == y;
  }

  /** Processes share a staging file exactly when they are the same. */
  lemma StagingApart(dir: string, p: nat, q: nat)
    ensures StagingPath(dir, p) == StagingPath(dir, q) <==> p == q
  {
    if StagingPath(dir, p) == StagingPath(dir, q) {
      SameMiddle(dir + "/zyvor-guest-agent-", Decimal(p), Decimal(q), ".service");
      DecimalValue(p);
      DecimalValue(q);
    }
  }

  // ---- Ids and dependencies -------------------------------------------------------------

  predicate DistinctTexts(ids: seq<Id>) {
    forall i, j :: 0 <= i < j < |ids| ==> IdText(ids[i]) != IdText(ids[j])
  }

  /** No id of one list is written like one of the other. */
  predicate Apart(ids: seq<Id>, more: seq<Id>) {
    forall i, j :: 0 <= i < |ids| && 0 <= j < |more| ==> IdText(ids[i]) != IdText(more[j])
  }

  /** No two operations have the same id as text. */
  predicate DistinctIds(ops: seq<Operation>) {
    DistinctTexts(IdsOf(ops))
  }

  /** Operation `i` carries its own position as its number. */
  predicate Numbered(ops: seq<Operation>, i: nat)
    requires i < |ops|
  {
    ops[i].id == AgentNo(i + 1) || ops[i].id == InjectNo(i + 1)
  }

  /** Every dependency is the id of an operation between `from` and `i`. */
  predicate DependsBack(ops: seq<Operation>, from: nat, i: nat)
    requires i < |ops|
  {
    forall d :: d in ops[i].dependsOn ==> exists j :: from <= j < i && ops[j].id == d
  }

  lemma SameSuffix(prefix: string, m: nat, n: nat)
    requires m != n
    ensures prefix + Padded(m) != prefix + Padded(n)
  {
    PaddedValue(m);
    PaddedValue(n);
    assert (prefix + Padded(m))[|prefix|..] == Padded(m) && (prefix + Padded(n))[|prefix|..] == Padded(n);
  }

  lemma FirstLetters(m: nat, n: nat)
    ensures IdText(AgentNo(m)) != IdText(InjectNo(n))
  {
    assert IdText(AgentNo(m))[0] == 'a' && IdText(InjectNo(n))[0] == 'i';
  }

  /** Padding to three digits, or running past three, confuses no two numbers. */
  lemma IdsDiffer(a: Id, b: Id)
    requires a != b && !a.OtherText? && !b.OtherText?
    ensures IdText(a) != IdText(b)
  {
    match (a, b)
    case (AgentNo(m), AgentNo(n)) => SameSuffix("agent-", m, n);
    case (InjectNo(m), InjectNo(n)) => SameSuffix("inject-", m, n);
    case (AgentNo(m), InjectNo(n)) => FirstLetters(m, n);
    case (InjectNo(n), AgentNo(m)) => FirstLetters(m, n);
  }

  lemma {:induction false} AppendedAreNumbered(ops: seq<Operation>, calls: seq<Call>)
    ensures var after := After(ops, calls);
            && ops <= after
            && (forall i :: |ops| <= i < |after| ==> Numbered(after, i) && DependsBack(after, |ops|, i))
  {
    if calls != [] {
      AppendedAreNumbered(ops, calls[..|calls| - 1]);
      var before := After(ops, calls[..|calls| - 1]);
      OneCall(before, calls[|calls| - 1], |ops|);
    }
  }

  lemma OneCall(before: seq<Operation>, call: Call, from: nat)
    requires from <= |before|
    requires forall i :: from <= i < |before| ==> Numbered(before, i) && DependsBack(before, from, i)
    ensures var after := before + Added(|before|, call);
            forall i :: from <= i < |after| ==> Numbered(after, i) && DependsBack(after, from, i)
  {
    var after := before + Added(|before|, call);
    forall i | from <= i < |after|
      ensures Numbered(after, i) && DependsBack(after, from, i)
    {
      if i < |before| {
        Extended(before, after, from, i);
      } else {
        AddedInOrder(before, call, from, i);
      }
    }
  }

  lemma Extended(before: seq<Operation>, after: seq<Operation>, from: nat, i: nat)
    requires before <= after && from <= i < |before| && Numbered(before, i) && DependsBack(before, from, i)
    ensures Numbered(after, i) && DependsBack(after, from, i)
  {
    assert after[i] == before[i];
    forall d | d in after[i].dependsOn
      ensures exists j :: from <= j < i && after[j].id == d
    {
      var j :| from <= j < i && before[j].id == d;
      assert after[j].id == d;
    }
  }

  lemma AddedInOrder(before: seq<Operation>, call: Call, from: nat, i: nat)
    requires from <= |before| <= i < |before + Added(|before|, call)|
    ensures var after := before + Added(|before|, call); Numbered(after, i) && DependsBack(after, from, i)
  {
    var n, added := |before|, Added(|before|, call);
    var after := before + added;
    assert after[i] == added[i - n] && after[n] == added[0];
    if i > n {
      assert after[n + 1] == added[1];
    }
  }

  lemma IdsAppend(a: seq<Operation>, b: seq<Operation>)
    ensures IdsOf(a + b) == IdsOf(a) + IdsOf(b)
  {
  }

  /** A plan's ids after some calls are its own and then the new ones. */
  lemma {:induction false} IdsAfter(ops: seq<Operation>, calls: seq<Call>)
    ensures IdsOf(After(ops, calls)) == IdsOf(ops) + NewIds(|ops|, calls)
  {
    if calls != [] {
      IdsAfter(ops, calls[..|calls| - 1]);
      var before, ids := After(ops, calls[..|calls| - 1]), NewIds(|ops|, calls[..|calls| - 1]);
      assert |before| == |IdsOf(before)| == |ops| + |ids|;
      var added := Added(|before|, calls[|calls| - 1]);
      IdsAppend(before, added);
      Regroup(IdsOf(ops), ids, IdsOf(added));
    }
  }

  lemma DistinctAcross(ids: seq<Id>, more: seq<Id>)
    requires DistinctTexts(more)
    ensures DistinctTexts(ids + more) <==> DistinctTexts(ids) && Apart(ids, more)
  {
    if DistinctTexts(ids + more) {
      assert forall i :: 0 <= i < |ids| ==> (ids + more)[i] == ids[i];
      assert forall j :: 0 <= j < |more| ==> (ids + more)[|ids| + j] == more[j];
    }
  }

  /** Over any calls, failed installs included, no two added ids are the same, and the plan's
      ids are distinct exactly when they were before and none of them is `agent-` or `inject-`
      with the padded number of a position the calls fill under that prefix. */
  lemma IdsDistinctExactly(ops: seq<Operation>, calls: seq<Call>)
    ensures DistinctTexts(NewIds(|ops|, calls))
    ensures DistinctIds(After(ops, calls)) <==> DistinctIds(ops) && Apart(IdsOf(ops), NewIds(|ops|, calls))
  {
    NewAreNumbered(ops, calls);
    IdsAfter(ops, calls);
    NewDistinct(|ops|, NewIds(|ops|, calls));
    DistinctAcross(IdsOf(ops), NewIds(|ops|, calls));
  }

  /** The j-th added operation is numbered by its position, under one of the two prefixes. */
  lemma NewAreNumbered(ops: seq<Operation>, calls: seq<Call>)
    ensures var more := NewIds(|ops|, calls);
            forall j :: 0 <= j < |more| ==> more[j] == AgentNo(|ops| + 1 + j) || more[j] == InjectNo(|ops| + 1 + j)
  {
    AppendedAreNumbered(ops, calls);
    IdsAfter(ops, calls);
    var after, more := After(ops, calls), NewIds(|ops|, calls);
    forall j | 0 <= j < |more|
      ensures more[j] == AgentNo(|ops| + 1 + j) || more[j] == InjectNo(|ops| + 1 + j)
    {
      assert Numbered(after, |ops| + j) && IdsOf(after)[|ops| + j] == more[j];
    }
  }

  lemma NewDistinct(size: nat, more: seq<Id>)
    requires forall j :: 0 <= j < |more| ==> more[j] == AgentNo(size + 1 + j) || more[j] == InjectNo(size + 1 + j)
    ensures DistinctTexts(more)
  {
    forall i, j | 0 <= i < j < |more|
      ensures IdText(more[i]) != IdText(more[j])
    {
      IdsDiffer(more[i], more[j]);
    }
  }

  lemma OtherPrefix(text: string, id: Id)
    requires !("agent-" <= text) && !("inject-" <= text) && !id.OtherText?
    ensures IdText(id) != text
  {
    assert id.AgentNo? ==> IdText(id)[..6] == "agent-";
    assert id.InjectNo? ==> IdText(id)[..7] == "inject-";
  }

  lemma PrefixesApart(ids: seq<Id>, more: seq<Id>)
    requires forall k :: 0 <= k < |ids| ==> !("agent-" <= IdText(ids[k])) && !("inject-" <= IdText(ids[k]))
    requires forall j :: 0 <= j < |more| ==> !more[j].OtherText?
    ensures Apart(ids, more)
  {
    forall k, m | 0 <= k < |ids| && 0 <= m < |more|
      ensures IdText(ids[k]) != IdText(more[m])
    {
      OtherPrefix(IdText(ids[k]), more[m]);
    }
  }

  /** A plan whose ids are distinct and use neither prefix stays distinct, and each
      dependency of an added operation names exactly one operation, an earlier one. */
  lemma PlanStaysOrdered(ops: seq<Operation>, calls: seq<Call>, i: nat, d: Id) returns (j: nat)
    requires DistinctIds(ops)
    requires forall k :: 0 <= k < |ops| ==> !("agent-" <= IdText(ops[k].id)) && !("inject-" <= IdText(ops[k].id))
    requires |ops| <= i < |After(ops, calls)| && d in After(ops, calls)[i].dependsOn
    ensures DistinctIds(After(ops, calls))
    ensures |ops| <= j < i
    ensures forall k :: 0 <= k < |After(ops, calls)| ==> (IdText(After(ops, calls)[k].id) == IdText(d) <==> k == j)
  {
    AppendedAreNumbered(ops, calls);
    IdsDistinctExactly(ops, calls);
    NewAreNumbered(ops, calls);
    var after := After(ops, calls);
    PrefixesApart(IdsOf(ops), NewIds(|ops|, calls));
    assert DependsBack(after, |ops|, i);
    j :| |ops| <= j < i && after[j].id == d;
    OnlyOne(after, j);
  }

  lemma OnlyOne(ops: seq<Operation>, j: nat)
    requires DistinctIds(ops) && j < |ops|
    ensures forall k :: 0 <= k < |ops| ==> (IdText(ops[k].id) == IdText(ops[j].id) <==> k == j)
  {
    assert forall k :: 0 <= k < |ops| ==> IdsOf(ops)[k] == ops[k].id;
  }
}
