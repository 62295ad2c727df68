/** Event push over the agent's channels (src/agent/daemon.rs,
    src/agent/heartbeat.rs, src/agent/state.rs and the subscription methods of
    src/agent/handler.rs), as steps that may interleave in any order. */
module Channels {
  // ---- Ports and plans ----------------------------------------------------------

  const QGA_PATH := "/dev/virtio-ports/org.qemu.guest_agent.0"
  const GUESTKIT_PATH := "/dev/virtio-ports/org.zyvor.guestkit.0"
  const LEGACY_PATH := "/dev/virtio-ports/com.zyvor.guestkit.0"
  const WINDOWS_QGA_PATH := "\\\\.\\Global\\org.qemu.guest_agent.0"

  datatype Platform = Linux | Windows

  datatype Kind = Virtio | Vsock | Stdio

  /** A virtio-serial port, as the host sees it. */
  datatype Port = QgaPort | OtherPort(number: nat)

  /** The agent's machine: its platform, and the port behind each device path that opens one. */
  datatype Machine = Machine(platform: Platform, ports: map<string, Port>)

  function DefaultDevice(platform: Platform): string {
    match platform case Linux => QGA_PATH case Windows => WINDOWS_QGA_PATH
  }

  /** What `virtio::open` opens: an empty path stands for the platform's default. */
  function Opened(m: Machine, path: string): string {
    if path == "" then DefaultDevice(m.platform) else path
  }

  datatype Plan = Plan(kind: Kind, path: string, pushCapable: bool, required: bool)

  /** The channel a plain QGA host listens on: whatever its path, it opens that port. */
  predicate QgaShared(m: Machine, p: Plan) {
    p.kind.Virtio? && Opened(m, p.path) in m.ports && m.ports[Opened(m, p.path)] == QgaPort
  }

  /** A plan as `channel_plans` makes it: push is refused for one text only. */
  predicate Built(p: Plan) {
    p.pushCapable <==> !(p.kind.Virtio? && p.path == QGA_PATH)
  }

  function Optional(path: string, nodes: set<string>, extra: string): seq<Plan> {
    if extra != path && extra in nodes then [Plan(Virtio, extra, true, false)] else []
  }

  /** `channel_plans`: the primary channel, then, next to a virtio primary, the extra device
      nodes that exist. */
  method ChannelPlans(kind: Kind, path: string, nodes: set<string>) returns (plans: seq<Plan>)
    ensures plans == [Plan(kind, path, !kind.Virtio? || path != QGA_PATH, true)]
                     + if kind.Virtio? then Optional(path, nodes, GUESTKIT_PATH) + Optional(path, nodes, LEGACY_PATH) else []
  {
    plans := [Plan(kind, path, !kind.Virtio? || path != QGA_PATH, true)];
    if kind.Virtio? {
      ghost var primary := plans;
      for i := 0 to 2
        invariant plans == primary + (if i >= 1 then Optional(path, nodes, GUESTKIT_PATH) else [])
                           + (if i >= 2 then Optional(path, nodes, LEGACY_PATH) else [])
      {
        var extra := if i == 0 then GUESTKIT_PATH else LEGACY_PATH;
        if extra != path && extra in nodes {
          plans := plans + [Plan(Virtio, extra, true, false)];
        }
      }
    }
  }

  /** The QGA port has one name on both platforms, each with its own prefix for such ports. */
  lemma SamePortName()
    ensures QGA_PATH[18..] == WINDOWS_QGA_PATH[11..]
  {
    assert |QGA_PATH| == 40 && |WINDOWS_QGA_PATH| == 33;
  }

  /** All three ports lie in one directory on Linux. */
  lemma SameDirectory()
    ensures QGA_PATH[..18] == GUESTKIT_PATH[..18] == LEGACY_PATH[..18]
  {
  }

  lemma PathsDiffer()
    ensures GUESTKIT_PATH != QGA_PATH && LEGACY_PATH != QGA_PATH && GUESTKIT_PATH != LEGACY_PATH
    ensures WINDOWS_QGA_PATH != QGA_PATH && WINDOWS_QGA_PATH != "" && QGA_PATH != ""
  {
    assert GUESTKIT_PATH[18] == 'o' && GUESTKIT_PATH[22] == 'z' && QGA_PATH[22] == 'q' && LEGACY_PATH[18] == 'c';
    assert WINDOWS_QGA_PATH[0] == '\\' && QGA_PATH[0] == '/';
  }

  /** The plans of one daemon: built as above, the primary first and alone required, no path twice. */
  lemma PlansOf(kind: Kind, path: string, nodes: set<string>, plans: seq<Plan>)
    requires plans == [Plan(kind, path, !kind.Virtio? || path != QGA_PATH, true)]
                      + if kind.Virtio? then Optional(path, nodes, GUESTKIT_PATH) + Optional(path, nodes, LEGACY_PATH) else []
    ensures forall p :: p in plans ==> Built(p)
    ensures forall i :: 0 <= i < |plans| ==> (plans[i].required <==> i == 0)
    ensures forall i, j :: 0 <= i < j < |plans| ==> plans[i].path != plans[j].path
  {
    PathsDiffer();
  }

  // ---- The protocol -----------------------------------------------------------

  datatype Channel = Channel(plan: Plan, subscribed: bool)

  /** `pending` are the channels of the current tick's snapshot still to be written to. */
  datatype State = State(channels: map<nat, Channel>, registered: seq<nat>, pending: seq<nat>)

  datatype Action =
    | Open(id: nat, plan: Plan)
    | Subscribe(id: nat, heartbeat: bool)   // a request on the channel; does it ask for heartbeats?
    | Unsubscribe(id: nat)
    | WriteFails(id: nat)                   // the response could not be written: unregister
    | Snapshot                              // the heartbeat task collects subscribers
    | Skip                                  // the heartbeat could not be built
    | Push(written: bool)                   // the next notification; a failed write unsubscribes

  predicate Enabled(s: State, a: Action) {
    match a
    case Open(id, _) => id !in s.channels
    case Subscribe(id, _) => id in s.channels
    case Unsubscribe(id) => id in s.channels
    case WriteFails(id) => id in s.channels
    case Snapshot => s.pending == []
    case Skip => true
    case Push(_) => s.pending != [] && s.pending[0] in s.channels
  }

  function Without<T(==)>(s: seq<T>, x: T): seq<T> {
    if s == [] then [] else (if s[0] == x then [] else [s[0]]) + Without(s[1..], x)
  }

  function Subscribers(channels: map<nat, Channel>, ids: seq<nat>): (r: seq<nat>)
    ensures forall id :: id in r <==> id in ids && id in channels && channels[id].subscribed
  {
    if ids == [] then []
    else (if ids[0] in channels && channels[ids[0]].subscribed then [ids[0]] else []) + Subscribers(channels, ids[1..])
  }

  function SetSubscribed(s: State, id: nat, on: bool): State
    requires id in s.channels
  {
    s.(channels := s.channels[id := s.channels[id].(subscribed := on)])
  }

  function Step(s: State, a: Action): State
    requires Enabled(s, a)
  {
    match a
    case Open(id, plan) => State(s.channels[id := Channel(plan, false)], s.registered + [id], s.pending)
    case Subscribe(id, heartbeat) =>
      if s.channels[id].plan.pushCapable && heartbeat then SetSubscribed(s, id, true) else s
    case Unsubscribe(id) => SetSubscribed(s, id, false)
    case WriteFails(id) => s.(registered := Without(s.registered, id))
    case Snapshot => s.(pending := Subscribers(s.channels, s.registered))
    case Skip => s.(pending := [])
    case Push(written) =>
      var s' := s.(pending := s.pending[1..]);
      if written then s' else SetSubscribed(s', s.pending[0], false)
  }

  const Initial := State(map[], [], [])

  ghost predicate Run(tr: seq<Action>)
    decreases |tr|, 0
  {
    tr == [] || (Run(tr[..|tr| - 1]) && Enabled(After(tr[..|tr| - 1]), tr[|tr| - 1]))
  }

  ghost function After(tr: seq<Action>): State
    requires Run(tr)
    decreases |tr|, 1
  {
    if tr == [] then Initial else Step(After(tr[..|tr| - 1]), tr[|tr| - 1])
  }

  lemma {:induction false} RunPrefix(tr: seq<Action>, k: nat)
    requires Run(tr) && k <= |tr|
    ensures Run(tr[..k])
  {
    if k < |tr| {
      RunPrefix(tr[..|tr| - 1], k);
      assert tr[..|tr| - 1][..k] == tr[..k];
    } else {
      assert tr[..k] == tr;
    }
  }

  ghost function Before(tr: seq<Action>, k: nat): State
    requires Run(tr) && k <= |tr|
  {
    RunPrefix(tr, k);
    After(tr[..k])
  }

  lemma StepAt(tr: seq<Action>, k: nat)
    requires Run(tr) && k < |tr|
    ensures Enabled(Before(tr, k), tr[k])
    ensures Before(tr, k + 1) == Step(Before(tr, k), tr[k])
  {
    RunPrefix(tr, k);
    RunPrefix(tr, k + 1);
    assert tr[..k + 1][..k] == tr[..k];
  }

  /** Subscribed or waiting for a notification implies push-capable. */
  ghost predicate Inv(s: State) {
    && (forall id :: id in s.channels && s.channels[id].subscribed ==> s.channels[id].plan.pushCapable)
    && (forall id :: id in s.pending ==> id in s.channels && s.channels[id].plan.pushCapable)
    && (forall id :: id in s.registered ==> id in s.channels)
  }

  lemma {:induction false} WithoutKeeps<T>(s: seq<T>, x: T)
    ensures forall y :: y in Without(s, x) <==> y in s && y != x
  {
    if s != [] {
      WithoutKeeps(s[1..], x);
    }
  }

  lemma InvStep(s: State, a: Action)
    requires Inv(s) && Enabled(s, a)
    ensures Inv(Step(s, a))
  {
    match a
    case Open(_, _) =>
    case Subscribe(_, _) =>
    case Unsubscribe(_) =>
    case WriteFails(id) => WithoutKeeps(s.registered, id);
    case Snapshot =>
    case Skip =>
    case Push(written) => PushKeeps(s, written);
  }

  lemma PushKeeps(s: State, written: bool)
    requires Inv(s) && Enabled(s, Push(written))
    ensures Inv(Step(s, Push(written)))
  {
    assert forall id :: id in s.pending[1..] ==> id in s.pending;
  }

  lemma {:induction false} InvHolds(tr: seq<Action>, k: nat)
    requires Run(tr) && k <= |tr|
    ensures Inv(Before(tr, k))
  {
    if k > 0 {
      InvHolds(tr, k - 1);
      StepAt(tr, k - 1);
      InvStep(Before(tr, k - 1), tr[k - 1]);
    } else {
      assert tr[..0] == [];
    }
  }

  /** The channel step `p` writes a notification to. */
  ghost function Target(tr: seq<Action>, p: nat): nat
    requires Run(tr) && p < |tr| && tr[p].Push?
  {
    StepAt(tr, p);
    Before(tr, p).pending[0]
  }

  /** In every interleaving, a notification goes to a channel that was registered
      and subscribed when the tick's snapshot was taken. */
  lemma PushedOnlyToSubscribers(tr: seq<Action>, p: nat) returns (s: nat)
    requires Run(tr) && p < |tr| && tr[p].Push?
    ensures s < p && tr[s].Snapshot? && forall m :: s < m < p ==> !tr[m].Snapshot?
    ensures var id, at := Target(tr, p), Before(tr, s);
            id in at.registered && id in at.channels && at.channels[id].subscribed
  {
    StepAt(tr, p);
    s := PendingSince(tr, p, Target(tr, p));
  }

  lemma PendingNeedsSteps(tr: seq<Action>, k: nat, id: nat)
    requires Run(tr) && k <= |tr| && id in Before(tr, k).pending
    ensures k > 0
  {
    assert tr[..0] == [];
  }

  /** A waiting notification was waiting before, or the snapshot has just put it there. */
  lemma PendingBack(tr: seq<Action>, k: nat, id: nat)
    requires Run(tr) && k < |tr| && id in Before(tr, k + 1).pending
    ensures if tr[k].Snapshot? then id in Subscribers(Before(tr, k).channels, Before(tr, k).registered)
            else id in Before(tr, k).pending
  {
    StepAt(tr, k);
  }

  lemma {:induction false} PendingSince(tr: seq<Action>, k: nat, id: nat) returns (s: nat)
    requires Run(tr) && k <= |tr| && id in Before(tr, k).pending
    ensures s < k && tr[s].Snapshot? && forall m :: s < m < k ==> !tr[m].Snapshot?
    ensures id in Subscribers(Before(tr, s).channels, Before(tr, s).registered)
  {
    PendingNeedsSteps(tr, k, id);
    PendingBack(tr, k - 1, id);
    if tr[k - 1].Snapshot? {
      s := k - 1;
    } else {
      s := PendingSince(tr, k - 1, id);
    }
  }

  /** Plans never change, and a channel keeps its plan. */
  lemma {:induction false} PlanOfChannel(tr: seq<Action>, k: nat, id: nat) returns (o: nat)
    requires Run(tr) && k <= |tr| && id in Before(tr, k).channels
    ensures o < k && tr[o] == Open(id, Before(tr, k).channels[id].plan)
  {
    assert tr[..0] == [];
    StepAt(tr, k - 1);
    if tr[k - 1].Open? && tr[k - 1].id == id {
      o := k - 1;
    } else {
      o := PlanOfChannel(tr, k - 1, id);
    }
  }

  // ---- The QGA port ---------------------------------------------------------------------

  /** Channels are opened from these plans, and only those of `askers` ask for heartbeats. */
  ghost predicate Uses(tr: seq<Action>, plans: set<Plan>, askers: set<Plan>)
    requires Run(tr)
  {
    && (forall k :: 0 <= k < |tr| && tr[k].Open? ==> tr[k].plan in plans)
    && (forall k :: 0 <= k < |tr| && tr[k].Subscribe? && tr[k].heartbeat ==> AskedBy(tr, k) in askers)
  }

  /** The plan of the channel that asks at step `k`. */
  ghost function AskedBy(tr: seq<Action>, k: nat): Plan
    requires Run(tr) && k < |tr| && tr[k].Subscribe?
  {
    StepAt(tr, k);
    Before(tr, k).channels[tr[k].id].plan
  }

  /** The plan of the channel step `p` writes a notification to. */
  ghost function PushedTo(tr: seq<Action>, p: nat): Plan
    requires Run(tr) && p < |tr| && tr[p].Push?
  {
    StepAt(tr, p);
    Before(tr, p).channels[Before(tr, p).pending[0]].plan
  }

  lemma SubscribedStep(s: State, a: Action, id: nat)
    requires Enabled(s, a) && id in Step(s, a).channels && Step(s, a).channels[id].subscribed
    ensures || (id in s.channels && s.channels[id] == Step(s, a).channels[id])
            || (a == Subscribe(id, true) && id in s.channels && s.channels[id].plan == Step(s, a).channels[id].plan)
  {
  }

  /** A subscribed channel has asked for heartbeats. */
  lemma {:induction false} AskedBefore(tr: seq<Action>, k: nat, id: nat) returns (a: nat)
    requires Run(tr) && k <= |tr| && id in Before(tr, k).channels && Before(tr, k).channels[id].subscribed
    ensures a < k && tr[a] == Subscribe(id, true) && AskedBy(tr, a) == Before(tr, k).channels[id].plan
  {
    assert tr[..0] == [];
    StepAt(tr, k - 1);
    SubscribedStep(Before(tr, k - 1), tr[k - 1], id);
    if tr[k - 1] == Subscribe(id, true) {
      a := k - 1;
    } else {
      a := AskedBefore(tr, k - 1, id);
    }
  }

  lemma PlanStep(s: State, a: Action, id: nat)
    requires Enabled(s, a) && id in s.channels
    ensures id in Step(s, a).channels && Step(s, a).channels[id].plan == s.channels[id].plan
  {
  }

  lemma {:induction false} KeepsPlan(tr: seq<Action>, i: nat, k: nat, id: nat)
    requires Run(tr) && i <= k <= |tr| && id in Before(tr, i).channels
    ensures id in Before(tr, k).channels && Before(tr, k).channels[id].plan == Before(tr, i).channels[id].plan
    decreases k
  {
    if i < k {
      KeepsPlan(tr, i, k - 1, id);
      StepAt(tr, k - 1);
      PlanStep(Before(tr, k - 1), tr[k - 1], id);
    }
  }

  /** In every interleaving a notification goes to a channel that was opened push-capable and
      has asked for heartbeats. */
  lemma PushedOnRequest(tr: seq<Action>, p: nat) returns (o: nat, a: nat)
    requires Run(tr) && p < |tr| && tr[p].Push?
    ensures o < p && tr[o] == Open(Target(tr, p), PushedTo(tr, p)) && PushedTo(tr, p).pushCapable
    ensures a < p && tr[a] == Subscribe(Target(tr, p), true) && AskedBy(tr, a) == PushedTo(tr, p)
  {
    var id := Target(tr, p);
    StepAt(tr, p);
    InvHolds(tr, p);
    o := PlanOfChannel(tr, p, id);
    var s := PushedOnlyToSubscribers(tr, p);
    a := AskedBefore(tr, s, id);
    KeepsPlan(tr, s, p, id);
  }

  /** No notification ever reaches the QGA port, in any interleaving over these plans. */
  ghost predicate QgaQuiet(m: Machine, plans: set<Plan>, askers: set<Plan>) {
    forall tr: seq<Action>, p: nat ::
      Run(tr) && Uses(tr, plans, askers) && p < |tr| && tr[p].Push? ==> !QgaShared(m, PushedTo(tr, p))
  }

  lemma Subscribes(plan: Plan) returns (tr: seq<Action>)
    requires plan.pushCapable
    ensures tr == [Open(0, plan), Subscribe(0, true)] && Run(tr)
    ensures After(tr) == State(map[0 := Channel(plan, true)], [0], []) && AskedBy(tr, 1) == plan
  {
    var s1 := State(map[0 := Channel(plan, false)], [0], []);
    var t1 := Grow([], Initial, Open(0, plan));
    assert After(t1) == s1;
    tr := Grow(t1, s1, Subscribe(0, true));
    assert tr[..1] == t1;
  }

  lemma Ticks(tr: seq<Action>, plan: Plan) returns (longer: seq<Action>)
    requires Run(tr) && After(tr) == State(map[0 := Channel(plan, true)], [0], [])
    ensures longer == tr + [Snapshot] && Run(longer) && After(longer) == State(map[0 := Channel(plan, true)], [0], [0])
  {
    var s := State(map[0 := Channel(plan, true)], [0], []);
    assert [0][1..] == [] && Subscribers(s.channels, [0]) == [0] + Subscribers(s.channels, []);
    longer := Grow(tr, s, Snapshot);
  }

  /** Open, subscribe, tick, push. */
  lemma PushRun(plan: Plan) returns (tr: seq<Action>)
    requires plan.pushCapable
    ensures tr == [Open(0, plan), Subscribe(0, true), Snapshot, Push(true)]
    ensures Run(tr) && PushedTo(tr, 3) == plan && AskedBy(tr, 1) == plan
  {
    var t2 := Subscribes(plan);
    var t3 := Ticks(t2, plan);
    tr := Grow(t3, State(map[0 := Channel(plan, true)], [0], [0]), Push(true));
    assert tr[..3] == t3 && tr[..1] == t2[..1];
  }

  lemma Grow(tr: seq<Action>, s: State, a: Action) returns (longer: seq<Action>)
    requires Run(tr) && After(tr) == s && Enabled(s, a)
    ensures longer == tr + [a] && Run(longer) && After(longer) == Step(s, a)
  {
    longer := tr + [a];
    assert longer[..|tr|] == tr;
  }

  lemma OneUser(plan: Plan, tr: seq<Action>, plans: set<Plan>, askers: set<Plan>)
    requires plan in plans && plan in askers && tr == [Open(0, plan), Subscribe(0, true), Snapshot, Push(true)]
    requires Run(tr) && AskedBy(tr, 1) == plan
    ensures Uses(tr, plans, askers)
  {
  }

  lemma QgaReached(m: Machine, plan: Plan, plans: set<Plan>, askers: set<Plan>)
    requires plan in plans && plan in askers && plan.pushCapable && QgaShared(m, plan)
    ensures !QgaQuiet(m, plans, askers)
  {
    var tr := PushRun(plan);
    OneUser(plan, tr, plans, askers);
    assert QgaShared(m, PushedTo(tr, 3));
  }

  /** Over every interleaving, no notification reaches the QGA port if and only if no virtio
      channel that asks for heartbeats opens that port under another text than the one
      `channel_plans` compares with. */
  lemma QgaQuietExactly(m: Machine, plans: set<Plan>, askers: set<Plan>)
    requires forall p :: p in plans ==> Built(p)
    ensures QgaQuiet(m, plans, askers) <==> forall p :: p in plans && p in askers && QgaShared(m, p) ==> p.path == QGA_PATH
  {
    if forall p :: p in plans && p in askers && QgaShared(m, p) ==> p.path == QGA_PATH {
      forall tr: seq<Action>, p: nat | Run(tr) && Uses(tr, plans, askers) && p < |tr| && tr[p].Push?
        ensures !QgaShared(m, PushedTo(tr, p))
      {
        var o, a := PushedOnRequest(tr, p);
      }
    }
    forall p | p in plans && p in askers && QgaShared(m, p) && p.path != QGA_PATH
      ensures !QgaQuiet(m, plans, askers)
    {
      QgaReached(m, p, plans, askers);
    }
  }

  /** The shipped default on Windows: the primary channel is the QGA port, and push goes there. */
  lemma WindowsDefaultPushes(m: Machine)
    requires m.platform.Windows? && WINDOWS_QGA_PATH in m.ports && m.ports[WINDOWS_QGA_PATH] == QgaPort
    ensures var plan := Plan(Virtio, DefaultDevice(m.platform), DefaultDevice(m.platform) != QGA_PATH, true);
            Built(plan) && QgaShared(m, plan) && !QgaQuiet(m, {plan}, {plan})
  {
    var plan := Plan(Virtio, WINDOWS_QGA_PATH, WINDOWS_QGA_PATH != QGA_PATH, true);
    PathsDiffer();
    QgaQuietExactly(m, {plan}, {plan});
  }

  /** An empty path, on either platform, opens the default port and is push-capable. */
  lemma EmptyPathPushes(m: Machine)
    requires DefaultDevice(m.platform) in m.ports && m.ports[DefaultDevice(m.platform)] == QgaPort
    ensures var plan := Plan(Virtio, "", "" != QGA_PATH, true);
            Built(plan) && QgaShared(m, plan) && !QgaQuiet(m, {plan}, {plan})
  {
    var plan := Plan(Virtio, "", "" != QGA_PATH, true);
    PathsDiffer();
    QgaQuietExactly(m, {plan}, {plan});
  }
}
