/** VM definitions, their validation and the start plan (src/vm.rs). */
module VmDefinition {
  import opened Wrappers
  import opened Shell

  datatype Architecture = X86_64 | Aarch64
  datatype ImageFormat = Qcow2 | Raw | Vmdk | Vdi | Vhd
  datatype DiskBus = VirtioBlk | VirtioScsi

  /** A path is text only if its bytes are UTF-8. */
  datatype Path = Utf8(text: string) | Bytes(raw: seq<nat>)

  datatype Network = NoNetwork | User(sshPort: Option<nat>) | Tap(ifname: string, vhost: bool)
  datatype Uefi = Uefi(code: Path, vars: Path)

  datatype Definition = Definition(
    schemaVersion: nat, name: string, image: Path, imageFormat: ImageFormat, architecture: Architecture,
    memoryMb: nat, vcpus: nat, diskBus: DiskBus, network: Network, readonly: bool,
    vsockCid: Option<nat>, uefiRequired: bool, uefi: Option<Uefi>, minBootScore: real)

  datatype Problem =
    | BadName | BadSchema | NoImage | LowMemory | NoCpus | BadScore | ReservedCid | BadTap
    | UefiUnset | NoUefiCode | NoUefiVars | ZeroPort | NotUtf8

  predicate NameChar(c: char) {
    IsAlnum(c) || c == '-' || c == '_' || c == '.'
  }

  predicate ValidName(name: string) {
    1 <= |name| <= 64 && forall i :: 0 <= i < |name| ==> NameChar(name[i])
  }

  predicate ValidToken(value: string) {
    value != "" && forall i :: 0 <= i < |value| ==> NameChar(value[i]) || value[i] == ':'
  }

  /** `validate_for_storage`: the first problem found; `present` are the files that exist. */
  function StorageProblem(d: Definition, present: set<Path>): Option<Problem> {
    if !ValidName(d.name) then Some(BadName)
    else if d.schemaVersion != 1 then Some(BadSchema)
    else if d.image !in present then Some(NoImage)
    else if d.memoryMb < 128 then Some(LowMemory)
    else if d.vcpus == 0 then Some(NoCpus)
    else if !(0.0 <= d.minBootScore <= 100.0) then Some(BadScore)
    else if d.vsockCid.Some? && d.vsockCid.value < 3 then Some(ReservedCid)
    else if d.network.Tap? && !ValidToken(d.network.ifname) then Some(BadTap)
    else None
  }

  /** `validate_for_start`. */
  function StartProblem(d: Definition, present: set<Path>): Option<Problem> {
    if StorageProblem(d, present).Some? then StorageProblem(d, present)
    else if d.uefiRequired && d.uefi.None? then Some(UefiUnset)
    else if d.uefi.Some? && d.uefi.value.code !in present then Some(NoUefiCode)
    else if d.uefi.Some? && d.uefi.value.vars !in present then Some(NoUefiVars)
    else None
  }

  /** ASCII letters and digits, hyphen, underscore and dot. */
  ghost predicate PlainChar(c: char) {
    'a' <= c <= 'z' || 'A' <= c <= 'Z' || '0' <= c <= '9' || c == '-' || c == '_' || c == '.'
  }

  /** A name has between one and 64 such characters; an interface token any number, colons too. */
  lemma NamesExactly(s: string)
    ensures ValidName(s) <==> s != "" && |s| <= 64 && forall i :: 0 <= i < |s| ==> PlainChar(s[i])
    ensures ValidToken(s) <==> s != "" && forall i :: 0 <= i < |s| ==> PlainChar(s[i]) || s[i] == ':'
  {
    forall c: char ensures NameChar(c) <==> PlainChar(c) {
    }
  }

  /** What is wrong with a definition, in the order in which it is looked for. */
  ghost predicate Wrong(d: Definition, present: set<Path>, p: Problem) {
    match p
    case BadName => !ValidName(d.name)
    case BadSchema => d.schemaVersion != 1
    case NoImage => d.image !in present
    case LowMemory => d.memoryMb < 128
    case NoCpus => d.vcpus < 1
    case BadScore => d.minBootScore < 0.0 || d.minBootScore > 100.0
    case ReservedCid => d.vsockCid.Some? && d.vsockCid.value <= 2
    case BadTap => d.network.Tap? && !ValidToken(d.network.ifname)
    case UefiUnset => d.uefiRequired && d.uefi.None?
    case NoUefiCode => d.uefi.Some? && d.uefi.value.code !in present
    case NoUefiVars => d.uefi.Some? && d.uefi.value.vars !in present
    case _ => false
  }

  function Place(p: Problem): nat {
    match p
    case BadName => 0 case BadSchema => 1 case NoImage => 2 case LowMemory => 3 case NoCpus => 4 case BadScore => 5
    case ReservedCid => 6 case BadTap => 7 case UefiUnset => 8 case NoUefiCode => 9 case NoUefiVars => 10
    case ZeroPort => 11 case NotUtf8 => 12
  }

  /** Validation for storage looks for the first eight problems, for start for all of them; each
      answers with the first one there is, and with none if and only if there is none. */
  lemma ProblemsExactly(d: Definition, present: set<Path>, p: Problem)
    ensures StorageProblem(d, present) == Some(p)
       <==> Wrong(d, present, p) && Place(p) < 8 && forall q :: Place(q) < Place(p) ==> !Wrong(d, present, q)
    ensures StartProblem(d, present) == Some(p)
       <==> Wrong(d, present, p) && forall q :: Place(q) < Place(p) ==> !Wrong(d, present, q)
  {
    assert Place(BadName) == 0 && Place(BadSchema) == 1 && Place(NoImage) == 2 && Place(LowMemory) == 3;
    assert Place(NoCpus) == 4 && Place(BadScore) == 5 && Place(ReservedCid) == 6 && Place(BadTap) == 7;
    assert Place(UefiUnset) == 8 && Place(NoUefiCode) == 9 && Place(NoUefiVars) == 10;
    assert Wrong(d, present, BadName) <==> !ValidName(d.name);
    assert Wrong(d, present, BadSchema) <==> d.schemaVersion != 1;
    assert Wrong(d, present, NoImage) <==> d.image !in present;
    assert Wrong(d, present, LowMemory) <==> d.memoryMb < 128;
    assert Wrong(d, present, NoCpus) <==> d.vcpus == 0;
    assert Wrong(d, present, BadScore) <==> !(0.0 <= d.minBootScore <= 100.0);
    assert Wrong(d, present, ReservedCid) <==> d.vsockCid.Some? && d.vsockCid.value < 3;
    assert Wrong(d, present, BadTap) <==> d.network.Tap? && !ValidToken(d.network.ifname);
    assert Wrong(d, present, UefiUnset) <==> d.uefiRequired && d.uefi.None?;
    assert Wrong(d, present, NoUefiCode) <==> d.uefi.Some? && d.uefi.value.code !in present;
    assert Wrong(d, present, NoUefiVars) <==> d.uefi.Some? && d.uefi.value.vars !in present;
  }

  // ---- The plan -----------------------------------------------------------

  datatype BootReport = BootReport(blockers: seq<string>, score: real)

  datatype Reason = Blockers(count: nat) | ScoreTooLow | UefiNeeded | UefiCodeMissing | UefiVarsMissing

  /** The reasons `plan_from_boot` collects, in order. */
  method PlanReasons(d: Definition, boot: BootReport, present: set<Path>) returns (reasons: seq<Reason>)
    ensures forall r :: r in reasons <==> Applies(d, boot, present, r)
  {
    reasons := [];
    if boot.blockers != [] {
      reasons := reasons + [Blockers(|boot.blockers|)];
    }
    if boot.score < d.minBootScore {
      reasons := reasons + [ScoreTooLow];
    }
    if d.uefiRequired && d.uefi.None? {
      reasons := reasons + [UefiNeeded];
    }
    if d.uefi.Some? {
      if d.uefi.value.code !in present {
        reasons := reasons + [UefiCodeMissing];
      }
      if d.uefi.value.vars !in present {
        reasons := reasons + [UefiVarsMissing];
      }
    }
  }

  ghost predicate Applies(d: Definition, boot: BootReport, present: set<Path>, r: Reason) {
    match r
    case Blockers(n) => boot.blockers != [] && n == |boot.blockers|
    case ScoreTooLow => boot.score < d.minBootScore
    case UefiNeeded => d.uefiRequired && d.uefi.None?
    case UefiCodeMissing => d.uefi.Some? && d.uefi.value.code !in present
    case UefiVarsMissing => d.uefi.Some? && d.uefi.value.vars !in present
  }

  /** A plan is ready when no reason applies. */
  ghost predicate Ready(d: Definition, boot: BootReport, present: set<Path>) {
    forall r :: !Applies(d, boot, present, r)
  }

  /** The reason a start problem of a loaded definition shows up as. */
  function ReasonFor(p: Problem): Option<Reason> {
    match p
    case UefiUnset => Some(UefiNeeded)
    case NoUefiCode => Some(UefiCodeMissing)
    case NoUefiVars => Some(UefiVarsMissing)
    case _ => None
  }

  /** Whatever would stop a loaded definition from starting is among the plan's reasons. */
  lemma StartProblemsAreReasons(d: Definition, boot: BootReport, present: set<Path>)
    requires StorageProblem(d, present).None? && StartProblem(d, present).Some?
    ensures var r := ReasonFor(StartProblem(d, present).value);
            r.Some? && Applies(d, boot, present, r.value)
  {
  }
}
