/** Frames as they arrive (src/agent/handler.rs, src/agent/qga.rs): a JSON-RPC request and a
    `guestkit-rpc` envelope go through the gate; every other QGA `execute` command goes to the
    compatibility handler, which asks no policy. */
module GateEntry {
  import opened Wrappers
  import opened Rpc
  import opened Gate
  import opened GateTheorems

  /** The commands the compatibility handler serves. */
  datatype Command =
    | GuestPing | GuestSync | GuestSyncDelimited | GuestInfo | GuestGetOsinfo | GuestGetFsinfo | GuestGetUsers
    | GuestGetTimezone | GuestGetTime | GuestSetTime | GuestFstrim
    | GuestFsfreezeStatus | GuestFsfreezeFreeze | GuestFsfreezeThaw
    | GuestNetworkGetInterfaces | GuestGetHostName | GuestExec | GuestExecStatus | GuestShutdown | GuestReboot
    | GuestkitGetEvidence | GuestkitDoctor | GuestkitGetCapabilities | GuestkitGetVersion | GuestkitRunFixPlan
    | GuestkitMigrateScore | GuestkitGetMetrics | GuestkitGetFilesystem | GuestkitGetGuestHealth
    | GuestkitGetGuestInfo | GuestkitGetSystemdUnits | GuestkitGetSystemdUnit | GuestkitGetSystemdEvents
    | GuestkitGetProcesses | GuestkitGetJournalSlice | GuestkitGetFailedUnits | GuestkitGetBootAnalysis
    | GuestkitGetLoginState | GuestkitGetDnsState | GuestkitGetSnapshotReadiness
    | GuestkitExec | GuestkitEnableRdp | GuestkitDisableRdp
    | GuestSuspendDisk | GuestSuspendRam | GuestSuspendHybrid
    | Unsupported(name: string)

  /** The arguments of a `guestkit-rpc` envelope that has a method. */
  datatype Envelope = Envelope(wireName: string, op: Method, params: Option<Json>, id: Option<Json>)

  /** A frame by what it is: a `guestkit-rpc` command, with its envelope if it has a method;
      another `execute` command; anything else. */
  datatype Arrived =
    | Passthrough(envelope: Option<Envelope>)
    | Execute(command: Command)
    | Plain(frame: Frame)

  /** The request rebuilt from an envelope: only method, parameters and id survive. A null id
      reads as none. */
  function Unwrapped(e: Envelope): Request {
    var id := match e.id { case None => Some(Number(1.0)) case Some(id) => if id == Null then None else Some(id) };
    Request("2.0", e.wireName, e.op, if e.params.Some? then e.params.value else Object([]), id, None, None, None, None)
  }

  datatype Route = ToGate(frame: Frame) | ToCompat(command: Command)

  /** `handle_frame_on` */
  function RouteOf(a: Arrived): Route {
    match a
    case Plain(frame) => ToGate(frame)
    case Passthrough(Some(e)) => ToGate(Parsed(Unwrapped(e)))
    case Passthrough(None) => ToCompat(Unsupported("guestkit-rpc"))
    case Execute(command) => ToCompat(command)
  }

  // ---- Runs from arriving frames -------------------------------------------------

  datatype Event =
    | Arrives(rid: nat, arrived: Arrived, env: Arrival)
    | Proceeds(action: Action)  // a later step of a request inside the gate

  /** The gate, and the frames that went to the compatibility handler. */
  datatype Entry = Entry(gate: State, commands: map<nat, Command>)

  const Idle := Entry(Initial, map[])

  predicate CanHappen(s: Entry, e: Event) {
    match e
    case Arrives(rid, _, _) => rid !in s.gate.pcs && rid !in s.commands
    case Proceeds(a) => !a.Begin? && Enabled(s.gate, a)
  }

  function Happens(s: Entry, e: Event): Entry
    requires CanHappen(s, e)
  {
    match e
    case Arrives(rid, arrived, env) =>
      (match RouteOf(arrived)
       case ToGate(frame) => s.(gate := Step(s.gate, Begin(rid, frame, env)))
       case ToCompat(command) => s.(commands := s.commands[rid := command]))
    case Proceeds(a) => s.(gate := Step(s.gate, a))
  }

  ghost predicate History(evs: seq<Event>)
    decreases |evs|, 0
  {
    evs == [] || (History(evs[..|evs| - 1]) && CanHappen(Then(evs[..|evs| - 1]), evs[|evs| - 1]))
  }

  ghost function Then(evs: seq<Event>): Entry
    requires History(evs)
    decreases |evs|, 1
  {
    if evs == [] then Idle else Happens(Then(evs[..|evs| - 1]), evs[|evs| - 1])
  }

  lemma {:induction false} HistoryPrefix(evs: seq<Event>, k: nat)
    requires History(evs) && k <= |evs|
    ensures History(evs[..k])
  {
    if k < |evs| {
      HistoryPrefix(evs[..|evs| - 1], k);
      assert evs[..|evs| - 1][..k] == evs[..k];
    } else {
      assert evs[..k] == evs;
    }
  }

  ghost function Upto(evs: seq<Event>, k: nat): Entry
    requires History(evs) && k <= |evs|
  {
    HistoryPrefix(evs, k);
    Then(evs[..k])
  }

  lemma EventAt(evs: seq<Event>, k: nat)
    requires History(evs) && k < |evs|
    ensures CanHappen(Upto(evs, k), evs[k]) && Upto(evs, k + 1) == Happens(Upto(evs, k), evs[k])
  {
    HistoryPrefix(evs, k);
    HistoryPrefix(evs, k + 1);
    assert evs[..k + 1][..k] == evs[..k];
  }

  function Rid(e: Event): nat {
    match e case Arrives(rid, _, _) => rid case Proceeds(a) => a.rid
  }

  /** What the gate sees of a history. */
  function GateSteps(evs: seq<Event>): seq<Action> {
    if evs == [] then []
    else
      var e := evs[|evs| - 1];
      GateSteps(evs[..|evs| - 1])
      + match e
        case Proceeds(a) => [a]
        case Arrives(rid, arrived, env) =>
          match RouteOf(arrived) { case ToGate(frame) => [Begin(rid, frame, env)] case ToCompat(_) => [] }
  }

  /** On the gate, every history is one of its runs, so all that holds over runs holds here. */
  lemma {:induction false} HistoriesAreRuns(evs: seq<Event>)
    requires History(evs)
    ensures Run(GateSteps(evs)) && After(GateSteps(evs)) == Then(evs).gate
  {
    if evs != [] {
      var init, e := evs[..|evs| - 1], evs[|evs| - 1];
      HistoriesAreRuns(init);
      var before := GateSteps(init);
      match e {
        case Proceeds(a) =>
          var longer := Grow(before, Then(init).gate, a);
        case Arrives(rid, arrived, env) =>
          if RouteOf(arrived).ToGate? {
            var longer := Grow(before, Then(init).gate, Begin(rid, RouteOf(arrived).frame, env));
          } else {
            assert before + [] == before;
          }
      }
    }
  }

  // ---- Authorisation -----------------------------------------------------------------

  /** Event `k` runs something: the dispatch of a request, or a command that is served. */
  ghost predicate Takes(evs: seq<Event>, k: nat) {
    k < |evs| &&
    match evs[k]
    case Proceeds(a) => a.Finish?
    case Arrives(_, arrived, _) => RouteOf(arrived).ToCompat? && !RouteOf(arrived).command.Unsupported?
  }

  /** The frame of event `k` arrived at event `b`. */
  ghost predicate FrameOf(evs: seq<Event>, b: nat, k: nat) {
    b <= k < |evs| && evs[b].Arrives? && evs[b].rid == Rid(evs[k])
  }

  /** The frame was let in by the policy in force when it arrived, or negotiates. */
  predicate LetIn(arrived: Arrived, env: Arrival) {
    && RouteOf(arrived).ToGate? && RouteOf(arrived).frame.Parsed?
    && var req := RouteOf(arrived).frame.req;
       req.op.Negotiation() || Authorized(env.policy, env.matches, req.op, req.wireName)
  }

  lemma AskedStep(s: Entry, e: Event, rid: nat)
    requires CanHappen(s, e) && rid in Happens(s, e).gate.pcs && !Happens(s, e).gate.pcs[rid].Replied?
    ensures if e.Arrives? && e.rid == rid then LetIn(e.arrived, e.env)
            else rid in s.gate.pcs && !s.gate.pcs[rid].Replied?
  {
    match e
    case Proceeds(a) => BegunStep(s.gate, a, rid);
    case Arrives(r, arrived, env) =>
      if RouteOf(arrived).ToGate? {
        BegunStep(s.gate, Begin(r, RouteOf(arrived).frame, env), rid);
      }
  }

  /** A request under way in the gate was let in when it arrived. */
  lemma {:induction false} LetInBefore(evs: seq<Event>, k: nat, rid: nat) returns (b: nat)
    requires History(evs) && k <= |evs| && rid in Upto(evs, k).gate.pcs && !Upto(evs, k).gate.pcs[rid].Replied?
    ensures b < k && evs[b].Arrives? && evs[b].rid == rid && LetIn(evs[b].arrived, evs[b].env)
  {
    assert evs[..0] == [];
    EventAt(evs, k - 1);
    AskedStep(Upto(evs, k - 1), evs[k - 1], rid);
    if evs[k - 1].Arrives? && evs[k - 1].rid == rid {
      b := k - 1;
    } else {
      b := LetInBefore(evs, k - 1, rid);
    }
  }

  predicate Known(s: Entry, rid: nat) {
    rid in s.gate.pcs || rid in s.commands
  }

  lemma KnownStep(s: Entry, e: Event, rid: nat)
    requires CanHappen(s, e) && (Known(s, rid) || (e.Arrives? && e.rid == rid))
    ensures Known(Happens(s, e), rid)
  {
  }

  lemma {:induction false} StaysKnown(evs: seq<Event>, b: nat, k: nat)
    requires History(evs) && b < k <= |evs| && evs[b].Arrives?
    ensures Known(Upto(evs, k), evs[b].rid)
    decreases k
  {
    EventAt(evs, k - 1);
    if b < k - 1 {
      StaysKnown(evs, b, k - 1);
    }
    KnownStep(Upto(evs, k - 1), evs[k - 1], evs[b].rid);
  }

  /** A frame arrives once. */
  lemma ArrivesOnce(evs: seq<Event>, b: nat, c: nat)
    requires History(evs) && b < |evs| && c < |evs| && evs[b].Arrives? && evs[c].Arrives? && evs[b].rid == evs[c].rid
    ensures b == c
  {
    EventAt(evs, b);
    EventAt(evs, c);
    if b < c {
      StaysKnown(evs, b, c);
    } else if c < b {
      StaysKnown(evs, c, b);
    }
  }

  lemma FrameOfTaken(evs: seq<Event>, k: nat) returns (b: nat)
    requires History(evs) && Takes(evs, k)
    ensures FrameOf(evs, b, k) && (LetIn(evs[b].arrived, evs[b].env) <==> !evs[b].arrived.Execute?)
  {
    EventAt(evs, k);
    match evs[k]
    case Proceeds(a) => b := LetInBefore(evs, k, a.rid);
    case Arrives(_, _, _) => b := k;
  }

  /** Over every history: what runs was not let in by a policy if and only if its frame is an
      `execute` command other than `guestkit-rpc`. */
  lemma UnauthorizedExactly(evs: seq<Event>, b: nat, k: nat)
    requires History(evs) && Takes(evs, k) && FrameOf(evs, b, k)
    ensures !LetIn(evs[b].arrived, evs[b].env) <==> evs[b].arrived.Execute?
  {
    var c := FrameOfTaken(evs, k);
    ArrivesOnce(evs, b, c);
  }

  predicate Denies(env: Arrival, name: string) {
    exists d :: d in env.policy.deny && env.matches(d, name)
  }

  /** The policy denies every method. */
  ghost predicate DeniesAll(env: Arrival) {
    forall name :: Denies(env, name)
  }

  /** Under a policy that denies everything, exactly negotiation and these commands still run. */
  lemma DenyAllLeaves(evs: seq<Event>, b: nat, k: nat)
    requires History(evs) && Takes(evs, k) && FrameOf(evs, b, k) && DeniesAll(evs[b].env)
    ensures evs[b].arrived.Execute? || (LetIn(evs[b].arrived, evs[b].env) && RouteOf(evs[b].arrived).frame.req.op.Negotiation())
  {
    UnauthorizedExactly(evs, b, k);
    if LetIn(evs[b].arrived, evs[b].env) {
      assert Denies(evs[b].env, RouteOf(evs[b].arrived).frame.req.wireName);
    }
  }

  /** A deny-all policy, and `guest-exec` runs. */
  lemma DenyAllRunsExec(env: Arrival)
    requires DeniesAll(env)
    ensures var evs := [Arrives(0, Execute(GuestExec), env)];
            History(evs) && Takes(evs, 0) && !LetIn(evs[0].arrived, env)
  {
    var evs := [Arrives(0, Execute(GuestExec), env)];
    assert evs[..0] == [];
  }

  // ---- The passthrough -----------------------------------------------------------------

  /** What of a request survives an envelope: its method and its parameters, the empty object if
      there are none, and its id, the number one if there is none; a null id counts as none. No
      timestamp, nonce or key does. */
  lemma EnvelopeCarries(e: Envelope)
    ensures var req := Unwrapped(e);
            && req.wireName == e.wireName && req.op == e.op && req.jsonrpc == "2.0"
            && (e.params.Some? ==> req.params == e.params.value) && (e.params.None? ==> req.params == Object([]))
            && (e.id.None? ==> req.id == Some(Number(1.0))) && (e.id == Some(Null) ==> req.id == None)
            && (e.id.Some? && e.id != Some(Null) ==> req.id == e.id)
            && req.ts.None? && req.ttlMs.None? && req.nonce.None? && req.idempotencyKey.None?
  {
  }

  /** A mutating method in an envelope gets past the first checks exactly when the policy lets
      it in and does not require an expiry: an envelope has none to offer. */
  lemma PassthroughAdmittedExactly(e: Envelope, env: Arrival)
    requires e.op.Mutating()
    ensures Decide(Parsed(Unwrapped(e)), env).Mutates?
       <==> e.wireName != "" && Authorized(env.policy, env.matches, e.op, e.wireName) && !env.security.requireExpiry
  {
  }

  /** The request of `rid`, while it is under way, is one that an envelope carried. */
  ghost predicate FromEnvelope(s: Entry, rid: nat) {
    rid in s.gate.pcs && !s.gate.pcs[rid].Replied? ==>
      s.gate.pcs[rid].req.nonce.None? && s.gate.pcs[rid].req.idempotencyKey.None?
  }

  lemma EnvelopeStep(s: Entry, e: Event, rid: nat)
    requires CanHappen(s, e) && (if e.Arrives? && e.rid == rid then e.arrived.Passthrough? else FromEnvelope(s, rid))
    ensures FromEnvelope(Happens(s, e), rid)
    ensures Rid(e) == rid ==> Happens(s, e).gate.order == s.gate.order && Happens(s, e).gate.idem == s.gate.idem
  {
  }

  lemma {:induction false} StaysFromEnvelope(evs: seq<Event>, b: nat, k: nat)
    requires History(evs) && b < k <= |evs| && evs[b].Arrives? && evs[b].arrived.Passthrough?
    ensures FromEnvelope(Upto(evs, k), evs[b].rid)
    decreases k
  {
    EventAt(evs, k - 1);
    if b < k - 1 {
      StaysFromEnvelope(evs, b, k - 1);
      if evs[k - 1].Arrives? && evs[k - 1].rid == evs[b].rid {
        ArrivesOnce(evs, b, k - 1);
      }
    }
    EnvelopeStep(Upto(evs, k - 1), evs[k - 1], evs[b].rid);
  }

  /** Over every history: no step of a request that came in an envelope touches the nonces or
      the stored responses. It is never a replay, and never answered from the cache. */
  lemma PassthroughLeavesNoTrace(evs: seq<Event>, b: nat, k: nat)
    requires History(evs) && FrameOf(evs, b, k) && evs[b].arrived.Passthrough?
    ensures Upto(evs, k + 1).gate.order == Upto(evs, k).gate.order && Upto(evs, k + 1).gate.idem == Upto(evs, k).gate.idem
  {
    EventAt(evs, k);
    if b < k {
      StaysFromEnvelope(evs, b, k);
      if evs[k].Arrives? {
        ArrivesOnce(evs, b, k);
      }
    }
    EnvelopeStep(Upto(evs, k), evs[k], evs[b].rid);
  }
}
