/** Leased enforcement of per-container eBPF policies
    (src/agent/guest_ebpf.rs, crates/guestkit-ebpf-runtime/src/loader.rs).

    The network and LSM halves have the same shape: agent-side entries by
    target, a kernel map by cgroup id, and one flag bit that turns violations
    into denials until a deadline. `bit` is that flag. */
module Lease {
  import opened Wrappers
  import opened Text

  const MAX_LEASE_SECS: nat := 3600
  const SECOND: nat := 1_000_000_000
  const U64: nat := 0x1_0000_0000_0000_0000

  const NP_ENFORCE: bv32 := 4

  datatype Mode = Off | Audit | Enforce(leaseSecs: nat)

  /** Enforcement always comes with a lease of 1 to 3600 seconds. */
  function ParseMode(mode: string, leaseSecs: Option<nat>): (r: Result<Mode, string>)
    ensures r.Ok? && r.value.Enforce? ==> leaseSecs == Some(r.value.leaseSecs) && 1 <= r.value.leaseSecs <= 3600
    ensures r == Ok(Off) <==> ToAsciiLower(Trim(mode)) in {"off", "remove"}
    ensures r == Ok(Audit) <==> ToAsciiLower(Trim(mode)) in {"audit", "observe"}
    ensures r.Ok? && r.value.Enforce? <==>
              ToAsciiLower(Trim(mode)) == "enforce" && leaseSecs.Some? && 1 <= leaseSecs.value <= 3600
  {
    var m := ToAsciiLower(Trim(mode));
    if m == "off" || m == "remove" then Ok(Off)
    else if m == "audit" || m == "observe" then Ok(Audit)
    else if m == "enforce" then
      match leaseSecs
      case None => Err("enforce needs lease_secs")
      case Some(s) => if 1 <= s <= MAX_LEASE_SECS then Ok(Enforce(s)) else Err("lease_secs out of range")
    else Err("mode must be off, audit or enforce")
  }

  datatype Policy = Policy(flags: bv32, nrules: nat, deadline: nat)

  predicate Enforcing(p: Policy, bit: bv32) {
    p.flags & bit != 0
  }

  /** The kernel programs drop or deny a violation only under this condition. */
  predicate Denies(p: Policy, bit: bv32, now: nat) {
    Enforcing(p, bit) && now < p.deadline
  }

  datatype Entry = Entry(cgroup: string, ids: seq<nat>, enforce: bool, deadline: nat, leaseExpired: bool)

  datatype Tracked = Tracked(entry: Entry, policy: Policy)

  datatype Table = Table(kernel: map<nat, Policy>, entries: map<string, Tracked>)

  const Empty := Table(map[], map[])

  /** The kernel map after inserting one policy under each id. */
  function Insert(kernel: map<nat, Policy>, ids: seq<nat>, p: Policy): map<nat, Policy> {
    kernel + map id | id in ids :: p
  }

  function Remove(kernel: map<nat, Policy>, ids: set<nat>): map<nat, Policy> {
    map id | id in kernel && id !in ids :: kernel[id]
  }

  /** At most the first `n` of the ids: a failing insert ends a loop early. */
  function Prefix(ids: seq<nat>, n: nat): seq<nat> {
    if n < |ids| then ids[..n] else ids
  }

  /** How a removal goes: the ids tried before an error, those of them whose policy silently
      stays, and whether the rest of the work succeeds. */
  datatype Removal = Removal(tried: nat, stuck: set<nat>, rest: bool)

  /** The ids whose policy is gone afterwards. */
  function Dropped(r: Removal, ids: seq<nat>): set<nat> {
    set id | id in Prefix(ids, r.tried) && id !in r.stuck
  }

  predicate Completed(r: Removal, ids: seq<nat>) {
    r.tried >= |ids| && r.rest
  }

  function Expired(p: Policy, bit: bv32): Policy {
    p.(flags := p.flags & !bit, deadline := 0)
  }

  predicate Due(e: Entry, now: nat) {
    e.enforce && now >= e.deadline
  }

  /** `sweep` on one entry; `n` of its map writes succeed. */
  function SweepOne(t: Table, bit: bv32, now: nat, key: string, n: nat): Table {
    if key in t.entries && Due(t.entries[key].entry, now) then
      var Tracked(e, p) := t.entries[key];
      Table(Insert(t.kernel, Prefix(e.ids, n), Expired(p, bit)),
            t.entries[key := Tracked(e.(enforce := false, leaseExpired := true), Expired(p, bit))])
    else t
  }

  /** `sweep`: the entries in some order, each with the writes that succeed for it. */
  function Sweep(t: Table, bit: bv32, now: nat, visits: seq<(string, nat)>): Table {
    if visits == [] then t
    else SweepOne(Sweep(t, bit, now, visits[..|visits| - 1]), bit, now, visits[|visits| - 1].0, visits[|visits| - 1].1)
  }

  function LeaseDeadline(mode: Mode, now: nat): nat {
    match mode
    case Enforce(secs) => (now + secs * SECOND) % U64
    case _ => 0
  }

  datatype Cgroup = Cgroup(path: string, ids: seq<nat>)

  /** One `apply` call past its parameter checks. `flags` are the requested flags without
      `bit`; `removal` says how removing old policies goes; `attached` says whether there
      were ids and attaching the programs worked; `writes` is how many ids were written
      before a failure or the end of the agent. */
  datatype Apply = Apply(
    key: string, mode: string, leaseSecs: Option<nat>,
    target: Option<Cgroup>, flags: bv32, nrules: nat,
    now: nat, removal: Removal, attached: bool, writes: nat)

  function PolicyFor(a: Apply, mode: Mode, bit: bv32): Policy {
    Policy(if mode.Enforce? then (a.flags & !bit) | bit else a.flags & !bit, a.nrules, LeaseDeadline(mode, a.now))
  }

  predicate Moves(t: Table, key: string, target: Cgroup) {
    key in t.entries && t.entries[key].entry.cgroup != target.path
  }

  /** Drop the old kernel policies, then the entry, when the target is now another cgroup. */
  function Evict(t: Table, key: string, target: Cgroup, removal: Removal): Table {
    if Moves(t, key, target) then
      var ids := t.entries[key].entry.ids;
      Table(Remove(t.kernel, Dropped(removal, ids)), if Completed(removal, ids) then t.entries - {key} else t.entries)
    else t
  }

  function EntryFor(a: Apply, mode: Mode): Entry
    requires a.target.Some?
  {
    Entry(a.target.value.path, a.target.value.ids, mode.Enforce?, LeaseDeadline(mode, a.now), false)
  }

  function ApplyTo(t: Table, bit: bv32, a: Apply): Table {
    match ParseMode(a.mode, a.leaseSecs)
    case Err(_) => t
    case Ok(Off) =>
      if a.key in t.entries then
        Table(Remove(t.kernel, Dropped(a.removal, t.entries[a.key].entry.ids)), t.entries - {a.key})
      else t
    case Ok(mode) =>
      if a.target.None? then t
      else
        var t' := Evict(t, a.key, a.target.value, a.removal);
        if Moves(t', a.key, a.target.value) || !a.attached then t'
        else
          var ids, p := a.target.value.ids, PolicyFor(a, mode, bit);
          var kernel := Insert(t'.kernel, Prefix(ids, a.writes), p);
          if a.writes < |ids| then t'.(kernel := kernel)
          else Table(kernel, t'.entries[a.key := Tracked(EntryFor(a, mode), p)])
  }

  /** No step of the call fails. */
  predicate Succeeds(t: Table, a: Apply) {
    match ParseMode(a.mode, a.leaseSecs)
    case Err(_) => false
    case Ok(Off) => a.key in t.entries ==> Completed(a.removal, t.entries[a.key].entry.ids)
    case Ok(_) =>
      && a.target.Some? && a.attached && a.writes >= |a.target.value.ids|
      && (Moves(t, a.key, a.target.value) ==> Completed(a.removal, t.entries[a.key].entry.ids))
  }

  /** One RPC: a sweep, then possibly an apply; a status query is a sweep alone. */
  datatype Op = Op(sweepAt: nat, visits: seq<(string, nat)>, apply: Option<Apply>)

  function Operate(t: Table, bit: bv32, op: Op): Table {
    var swept := Sweep(t, bit, op.sweepAt, op.visits);
    match op.apply
    case None => swept
    case Some(a) => ApplyTo(swept, bit, a)
  }

  function After(bit: bv32, run: seq<Op>): Table {
    if run == [] then Empty else Operate(After(bit, run[..|run| - 1]), bit, run[|run| - 1])
  }

  // ---- Lease safety -------------------------------------------------------

  /** Call `k` asked for enforcement over `id`. */
  ghost predicate Grants(run: seq<Op>, k: nat, id: nat) {
    && k < |run| && run[k].apply.Some? && run[k].apply.value.target.Some?
    && id in run[k].apply.value.target.value.ids
    && ParseMode(run[k].apply.value.mode, run[k].apply.value.leaseSecs).Ok?
    && ParseMode(run[k].apply.value.mode, run[k].apply.value.leaseSecs).value.Enforce?
  }

  ghost function GrantEnd(run: seq<Op>, k: nat): nat
    requires k < |run| && run[k].apply.Some?
  {
    var a := run[k].apply.value;
    a.now + (if a.leaseSecs.Some? then a.leaseSecs.value else 0) * 1_000_000_000
  }

  /** A policy that can deny under `id` comes from a grant and ends with it. */
  ghost predicate Justified(run: seq<Op>, p: Policy, id: nat, bit: bv32) {
    Enforcing(p, bit) ==> exists k :: Grants(run, k, id) && p.deadline <= GrantEnd(run, k)
  }

  ghost predicate AllJustified(run: seq<Op>, kernel: map<nat, Policy>, bit: bv32) {
    forall id :: id in kernel ==> Justified(run, kernel[id], id, bit)
  }

  lemma ClearedBit(flags: bv32, bit: bv32)
    ensures flags & !bit & bit == 0
  {
  }

  lemma {:induction false} SweepJustified(run: seq<Op>, t: Table, bit: bv32, now: nat, visits: seq<(string, nat)>)
    requires AllJustified(run, t.kernel, bit)
    ensures AllJustified(run, Sweep(t, bit, now, visits).kernel, bit)
  {
    if visits != [] {
      SweepJustified(run, t, bit, now, visits[..|visits| - 1]);
      forall p: Policy ensures !Enforcing(Expired(p, bit), bit) {
        ClearedBit(p.flags, bit);
      }
    }
  }

  lemma {:induction false} RunJustified(bit: bv32, run: seq<Op>, k: nat)
    requires k <= |run|
    ensures AllJustified(run, After(bit, run[..k]).kernel, bit)
  {
    if k > 0 {
      assert run[..k][..k - 1] == run[..k - 1];
      RunJustified(bit, run, k - 1);
      var op := run[k - 1];
      var before := After(bit, run[..k - 1]);
      SweepJustified(run, before, bit, op.sweepAt, op.visits);
      if op.apply.Some? {
        ApplyJustified(run, Sweep(before, bit, op.sweepAt, op.visits), bit, k - 1);
      }
    }
  }

  /** An apply leaves an id's policy alone or puts its own there. */
  lemma ApplyEffect(t: Table, bit: bv32, a: Apply, id: nat)
    requires id in ApplyTo(t, bit, a).kernel
    ensures var p, mode := ApplyTo(t, bit, a).kernel[id], ParseMode(a.mode, a.leaseSecs);
            || (id in t.kernel && p == t.kernel[id])
            || (mode.Ok? && a.target.Some? && id in a.target.value.ids && p == PolicyFor(a, mode.value, bit))
  {
  }

  lemma ApplyJustified(run: seq<Op>, t: Table, bit: bv32, k: nat)
    requires k < |run| && run[k].apply.Some? && AllJustified(run, t.kernel, bit)
    ensures AllJustified(run, ApplyTo(t, bit, run[k].apply.value).kernel, bit)
  {
    var a := run[k].apply.value;
    var kernel := ApplyTo(t, bit, a).kernel;
    forall id | id in kernel
      ensures Justified(run, kernel[id], id, bit)
    {
      ApplyEffect(t, bit, a, id);
      if !(id in t.kernel && kernel[id] == t.kernel[id]) {
        OwnPolicyJustified(run, bit, k, id);
      }
    }
  }

  lemma OwnPolicyJustified(run: seq<Op>, bit: bv32, k: nat, id: nat)
    requires k < |run| && run[k].apply.Some?
    requires var a := run[k].apply.value;
             a.target.Some? && id in a.target.value.ids && ParseMode(a.mode, a.leaseSecs).Ok?
    ensures var a := run[k].apply.value;
            Justified(run, PolicyFor(a, ParseMode(a.mode, a.leaseSecs).value, bit), id, bit)
  {
    var a := run[k].apply.value;
    var mode := ParseMode(a.mode, a.leaseSecs).value;
    ClearedBit(a.flags, bit);
    if mode.Enforce? {
      assert Grants(run, k, id) && PolicyFor(a, mode, bit).deadline <= GrantEnd(run, k);
    }
  }

  /** Lease safety, for every run, every failing write and every point at which
      the agent may stop: if the kernel can deny for `id` at time `t`, some
      call asked for enforcement over `id` at most an hour before `t`. */
  lemma LeaseSafety(bit: bv32, run: seq<Op>, id: nat, t: nat) returns (k: nat)
    requires id in After(bit, run).kernel && Denies(After(bit, run).kernel[id], bit, t)
    requires forall j :: 0 <= j < |run| && run[j].apply.Some? ==> run[j].apply.value.now <= t
    ensures Grants(run, k, id)
    ensures run[k].apply.value.now <= t < run[k].apply.value.now + 3600 * 1_000_000_000
  {
    RunJustified(bit, run, |run|);
    assert run[..|run|] == run;
    k :| Grants(run, k, id) && After(bit, run).kernel[id].deadline <= GrantEnd(run, k);
  }

  /** An hour after the last call nothing is denied, whatever the agent does since. */
  lemma SilenceEndsEnforcement(bit: bv32, run: seq<Op>, id: nat, last: nat, t: nat)
    requires id in After(bit, run).kernel
    requires forall j :: 0 <= j < |run| && run[j].apply.Some? ==> run[j].apply.value.now <= last
    requires t >= last + 3600 * 1_000_000_000
    ensures !Denies(After(bit, run).kernel[id], bit, t)
  {
    if Denies(After(bit, run).kernel[id], bit, t) {
      var k := LeaseSafety(bit, run, id, t);
    }
  }
}
