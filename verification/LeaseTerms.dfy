/** How long an enforcing call is in force (src/agent/guest_ebpf.rs). */
module LeaseTerms {
  import opened Wrappers
  import opened Lease

  // ---- One call ---------------------------------------------------------------------

  /** A call that asks to enforce for `secs` seconds, on a clock that does not wrap before then. */
  ghost predicate Enforces(a: Apply, secs: nat) {
    ParseMode(a.mode, a.leaseSecs) == Ok(Enforce(secs)) && a.now + secs * 1_000_000_000 < U64
  }

  /** Apart from `bit`, the flags are these. */
  predicate OtherFlags(flags: bv32, bit: bv32, asked: bv32) {
    flags & !bit == asked & !bit
  }

  lemma BitSet(flags: bv32, bit: bv32)
    requires bit != 0
    ensures ((flags & !bit) | bit) & bit != 0
  {
  }

  lemma OthersWithBit(flags: bv32, bit: bv32)
    ensures OtherFlags((flags & !bit) | bit, bit, flags)
  {
  }

  lemma OthersWithoutBit(flags: bv32, bit: bv32)
    ensures OtherFlags(flags & !bit, bit, flags)
  {
  }

  lemma WritesAll(t: Table, bit: bv32, a: Apply, id: nat)
    requires Succeeds(t, a) && ParseMode(a.mode, a.leaseSecs) != Ok(Off) && id in a.target.value.ids
    ensures id in ApplyTo(t, bit, a).kernel
    ensures ApplyTo(t, bit, a).kernel[id] == PolicyFor(a, ParseMode(a.mode, a.leaseSecs).value, bit)
  {
  }

  /** A policy as asked for, denying exactly before `end`. */
  ghost predicate InForce(p: Policy, bit: bv32, a: Apply, end: nat) {
    && p.nrules == a.nrules && OtherFlags(p.flags, bit, a.flags)
    && forall time: nat :: Denies(p, bit, time) <==> time < end
  }

  lemma PolicyEnforces(a: Apply, bit: bv32, secs: nat)
    requires bit != 0
    ensures Enforcing(PolicyFor(a, Enforce(secs), bit), bit)
  {
    BitSet(a.flags, bit);
  }

  lemma PolicyFlags(a: Apply, bit: bv32, mode: Mode)
    ensures OtherFlags(PolicyFor(a, mode, bit).flags, bit, a.flags)
  {
    if mode.Enforce? {
      OthersWithBit(a.flags, bit);
    } else {
      OthersWithoutBit(a.flags, bit);
    }
  }

  lemma AuditAllows(a: Apply, bit: bv32)
    ensures !Enforcing(PolicyFor(a, Audit, bit), bit)
  {
    ClearedBit(a.flags, bit);
  }

  lemma EnforcePolicy(a: Apply, bit: bv32, secs: nat, p: Policy)
    requires a.now + secs * 1_000_000_000 < U64 && p == PolicyFor(a, Enforce(secs), bit)
    requires Enforcing(p, bit) && OtherFlags(p.flags, bit, a.flags)
    ensures InForce(p, bit, a, a.now + secs * 1_000_000_000)
  {
  }

  lemma AuditPolicy(a: Apply, bit: bv32, p: Policy)
    requires p == PolicyFor(a, Audit, bit) && !Enforcing(p, bit) && OtherFlags(p.flags, bit, a.flags)
    ensures InForce(p, bit, a, 0)
  {
  }

  /** After an enforcing call that succeeds, each id of its target is denied up to the end of the
      lease and no longer, under the rules and the other flags that were asked for. */
  lemma EnforcedExactly(t: Table, bit: bv32, a: Apply, secs: nat, id: nat)
    requires bit != 0 && Enforces(a, secs) && Succeeds(t, a) && id in a.target.value.ids
    ensures id in ApplyTo(t, bit, a).kernel && InForce(ApplyTo(t, bit, a).kernel[id], bit, a, a.now + secs * 1_000_000_000)
  {
    WritesAll(t, bit, a, id);
    PolicyEnforces(a, bit, secs);
    PolicyFlags(a, bit, Enforce(secs));
    EnforcePolicy(a, bit, secs, PolicyFor(a, Enforce(secs), bit));
  }

  /** After an auditing call that succeeds nothing is denied, whatever was before. */
  lemma AuditNeverDenies(t: Table, bit: bv32, a: Apply, id: nat)
    requires ParseMode(a.mode, a.leaseSecs) == Ok(Audit) && Succeeds(t, a) && id in a.target.value.ids
    ensures id in ApplyTo(t, bit, a).kernel && InForce(ApplyTo(t, bit, a).kernel[id], bit, a, 0)
  {
    WritesAll(t, bit, a, id);
    AuditAllows(a, bit);
    PolicyFlags(a, bit, Audit);
    AuditPolicy(a, bit, PolicyFor(a, Audit, bit));
  }

  /** After a call that turns a target off and succeeds, its entry is gone and so are the
      policies of its ids, unless they silently stay. */
  lemma OffEnds(t: Table, bit: bv32, a: Apply, id: nat)
    requires ParseMode(a.mode, a.leaseSecs) == Ok(Off) && Succeeds(t, a)
    requires a.key in t.entries && id in t.entries[a.key].entry.ids && id !in a.removal.stuck
    ensures a.key !in ApplyTo(t, bit, a).entries && id !in ApplyTo(t, bit, a).kernel
  {
  }

  /** What the agent records of an enforcing call that succeeds. */
  lemma EntryRecords(t: Table, bit: bv32, a: Apply, secs: nat)
    requires Enforces(a, secs) && Succeeds(t, a)
    ensures var entries, target := ApplyTo(t, bit, a).entries, a.target.value;
            && a.key in entries
            && entries[a.key].entry == Entry(target.path, target.ids, true, a.now + secs * 1_000_000_000, false)
  {
  }

  /** And of an auditing one: it has no deadline. */
  lemma AuditRecords(t: Table, bit: bv32, a: Apply)
    requires ParseMode(a.mode, a.leaseSecs) == Ok(Audit) && Succeeds(t, a)
    ensures var t', target := ApplyTo(t, bit, a), a.target.value;
            && a.key in t'.entries && t'.entries[a.key].entry == Entry(target.path, target.ids, false, 0, false)
            && t'.entries[a.key].policy.deadline == 0
  {
  }

  /** A call that fails records nothing: the entries are as they were, or without that of a target
      that has moved or was turned off. */
  lemma FailureRecordsNothing(t: Table, bit: bv32, a: Apply)
    requires !Succeeds(t, a)
    ensures ApplyTo(t, bit, a).entries == t.entries || ApplyTo(t, bit, a).entries == t.entries - {a.key}
  {
  }

  /** A removal is complete if and only if every id was tried and nothing failed afterwards. */
  lemma CompletedExactly(r: Removal, ids: seq<nat>)
    ensures Completed(r, ids) <==> r.rest && Prefix(ids, r.tried) == ids
  {
  }

  // ---- The sweep ------------------------------------------------------------------------

  /** The policy denies nothing any more, and is otherwise as it was. */
  ghost predicate Ended(p: Policy, was: Policy, bit: bv32) {
    p.nrules == was.nrules && OtherFlags(p.flags, bit, was.flags) && p.deadline == 0 && !Enforcing(p, bit)
  }

  lemma ExpiredEnds(p: Policy, bit: bv32)
    ensures Ended(Expired(p, bit), p, bit)
  {
    ExpiredFlags(p, bit);
    ExpiredClear(p, bit);
  }

  lemma ExpiredFlags(p: Policy, bit: bv32)
    ensures OtherFlags(Expired(p, bit).flags, bit, p.flags)
  {
    OthersWithoutBit(p.flags, bit);
  }

  lemma ExpiredClear(p: Policy, bit: bv32)
    ensures !Enforcing(Expired(p, bit), bit)
  {
    ClearedBit(p.flags, bit);
  }

  /** Sweeping one entry: if it enforces and its deadline is reached, it is marked as expired and
      no longer enforcing, and so is the policy of each of its ids that is written, in order;
      otherwise nothing changes. Other entries and ids are left alone. */
  lemma SweepOneExactly(t: Table, bit: bv32, now: nat, key: string, n: nat, id: nat)
    ensures var t' := SweepOne(t, bit, now, key, n);
            var due := key in t.entries && t.entries[key].entry.enforce && now >= t.entries[key].entry.deadline;
            && (!due ==> t' == t)
            && (due ==>
                  var was := t.entries[key];
                  && key in t'.entries && t'.entries.Keys == t.entries.Keys
                  && t'.entries[key].entry == Entry(was.entry.cgroup, was.entry.ids, false, was.entry.deadline, true)
                  && (forall k :: k in t.entries && k != key ==> t'.entries[k] == t.entries[k])
                  && (if exists i :: 0 <= i < n && i < |was.entry.ids| && was.entry.ids[i] == id then
                        id in t'.kernel && Ended(t'.kernel[id], was.policy, bit)
                      else (id in t'.kernel <==> id in t.kernel) && (id in t.kernel ==> t'.kernel[id] == t.kernel[id])))
  {
    if key in t.entries {
      ExpiredEnds(t.entries[key].policy, bit);
      FirstOnes(t.entries[key].entry.ids, n, id);
    }
  }

  lemma FirstOnes(ids: seq<nat>, n: nat, id: nat)
    ensures id in Prefix(ids, n) <==> exists i :: 0 <= i < n && i < |ids| && ids[i] == id
  {
    if n < |ids| {
      assert forall i :: 0 <= i < n ==> ids[..n][i] == ids[i];
    }
  }

  // ---- Over a run -----------------------------------------------------------------------

  /** The operation writes or removes the policy of `id`, or may: a due entry that covers it is
      visited, or the call is for the id or for an entry that covers it. */
  ghost predicate Touches(t: Table, op: Op, id: nat) {
    || (exists v :: v in op.visits && v.0 in t.entries && id in t.entries[v.0].entry.ids && Due(t.entries[v.0].entry, op.sweepAt))
    || (op.apply.Some? && op.apply.value.target.Some? && id in op.apply.value.target.value.ids)
    || (op.apply.Some? && op.apply.value.key in t.entries && id in t.entries[op.apply.value.key].entry.ids)
  }

  /** A sweep changes no entry's ids and deadline, and lets an entry enforce no more only if due. */
  lemma {:induction false} SweepKeeps(t: Table, bit: bv32, now: nat, visits: seq<(string, nat)>, id: nat)
    requires forall v :: v in visits && v.0 in t.entries && id in t.entries[v.0].entry.ids ==> !Due(t.entries[v.0].entry, now)
    ensures var t' := Sweep(t, bit, now, visits);
            && t'.entries.Keys == t.entries.Keys
            && (forall k :: k in t.entries ==> t'.entries[k].entry.ids == t.entries[k].entry.ids)
            && (forall k :: k in t.entries && id in t.entries[k].entry.ids ==> t'.entries[k] == t.entries[k])
            && (id in t'.kernel <==> id in t.kernel) && (id in t.kernel ==> t'.kernel[id] == t.kernel[id])
  {
    if visits != [] {
      SweepKeeps(t, bit, now, visits[..|visits| - 1], id);
      assert visits[|visits| - 1] in visits;
    }
  }

  lemma UntouchedStep(t: Table, bit: bv32, op: Op, id: nat)
    requires id in t.kernel && !Touches(t, op, id)
    ensures id in Operate(t, bit, op).kernel && Operate(t, bit, op).kernel[id] == t.kernel[id]
  {
    var swept := Sweep(t, bit, op.sweepAt, op.visits);
    SweepKeeps(t, bit, op.sweepAt, op.visits, id);
    if op.apply.Some? {
      ApplyLeaves(swept, bit, op.apply.value, id);
    }
  }

  lemma ApplyLeaves(t: Table, bit: bv32, a: Apply, id: nat)
    requires id in t.kernel && (a.target.Some? ==> id !in a.target.value.ids)
    requires a.key in t.entries ==> id !in t.entries[a.key].entry.ids
    ensures id in ApplyTo(t, bit, a).kernel && ApplyTo(t, bit, a).kernel[id] == t.kernel[id]
  {
  }

  /** No operation after the first `from` touches the id. */
  ghost predicate UntouchedFrom(bit: bv32, run: seq<Op>, from: nat, id: nat) {
    forall j :: from <= j < |run| ==> !Touches(After(bit, run[..j]), run[j], id)
  }

  lemma {:induction false} KernelKept(bit: bv32, run: seq<Op>, from: nat, n: nat, id: nat)
    requires from <= n <= |run| && UntouchedFrom(bit, run, from, id) && id in After(bit, run[..from]).kernel
    ensures id in After(bit, run[..n]).kernel && After(bit, run[..n]).kernel[id] == After(bit, run[..from]).kernel[id]
    decreases n
  {
    if from < n {
      KernelKept(bit, run, from, n - 1, id);
      assert run[..n][..n - 1] == run[..n - 1];
      UntouchedStep(After(bit, run[..n - 1]), bit, run[n - 1], id);
    }
  }

  /** Operation `k` enforces for `secs` seconds on `id`, and succeeds. */
  ghost predicate EnforcesAt(bit: bv32, run: seq<Op>, k: nat, secs: nat, id: nat) {
    && k < |run| && run[k].apply.Some? && Enforces(run[k].apply.value, secs)
    && Succeeds(Sweep(After(bit, run[..k]), bit, run[k].sweepAt, run[k].visits), run[k].apply.value)
    && id in run[k].apply.value.target.value.ids
  }

  /** Over every run: from an enforcing call that succeeds on, as long as no operation touches
      the id, the kernel denies for it up to the end of the lease and no longer. */
  lemma EnforcedOverRun(bit: bv32, run: seq<Op>, k: nat, n: nat, secs: nat, id: nat)
    requires bit != 0 && EnforcesAt(bit, run, k, secs, id) && k < n <= |run| && UntouchedFrom(bit, run, k + 1, id)
    ensures var kernel, a := After(bit, run[..n]).kernel, run[k].apply.value;
            id in kernel && InForce(kernel[id], bit, a, a.now + secs * 1_000_000_000)
  {
    var before := Sweep(After(bit, run[..k]), bit, run[k].sweepAt, run[k].visits);
    assert run[..k + 1][..k] == run[..k];
    EnforcedExactly(before, bit, run[k].apply.value, secs, id);
    KernelKept(bit, run, k + 1, n, id);
  }

  // ---- Targets without common ids -----------------------------------------------------------

  /** No entry but that of `key` covers the id, and that one enforces up to `end`. */
  ghost predicate OnlyCovers(t: Table, key: string, id: nat, end: nat) {
    && (forall k :: k in t.entries && id in t.entries[k].entry.ids ==> k == key)
    && key in t.entries && t.entries[key].entry.enforce && t.entries[key].entry.deadline == end
  }

  /** The operation is for another key and other ids, and its sweep reads a clock before `end`. */
  predicate Elsewhere(op: Op, key: string, id: nat, end: nat) {
    && op.sweepAt < end
    && (op.apply.Some? ==> op.apply.value.key != key && (op.apply.value.target.Some? ==> id !in op.apply.value.target.value.ids))
  }

  lemma ElsewhereStep(t: Table, bit: bv32, op: Op, key: string, id: nat, end: nat)
    requires OnlyCovers(t, key, id, end) && Elsewhere(op, key, id, end)
    ensures !Touches(t, op, id) && OnlyCovers(Operate(t, bit, op), key, id, end)
  {
    var swept := Sweep(t, bit, op.sweepAt, op.visits);
    SweepElsewhere(t, bit, op.sweepAt, op.visits, key, id, end);
    if op.apply.Some? {
      ApplyElsewhere(swept, bit, op.apply.value, key, id, end);
    }
  }

  lemma ApplyElsewhere(t: Table, bit: bv32, a: Apply, key: string, id: nat, end: nat)
    requires OnlyCovers(t, key, id, end) && a.key != key && (a.target.Some? ==> id !in a.target.value.ids)
    ensures OnlyCovers(ApplyTo(t, bit, a), key, id, end)
  {
  }

  lemma {:induction false} SweepElsewhere(t: Table, bit: bv32, now: nat, visits: seq<(string, nat)>, key: string, id: nat, end: nat)
    requires OnlyCovers(t, key, id, end) && now < end
    ensures OnlyCovers(Sweep(t, bit, now, visits), key, id, end)
  {
    if visits != [] {
      SweepElsewhere(t, bit, now, visits[..|visits| - 1], key, id, end);
    }
  }

  lemma {:induction false} ElsewhereRun(bit: bv32, run: seq<Op>, from: nat, n: nat, key: string, id: nat, end: nat)
    requires from <= n <= |run| && OnlyCovers(After(bit, run[..from]), key, id, end)
    requires forall j :: from <= j < |run| ==> Elsewhere(run[j], key, id, end)
    ensures OnlyCovers(After(bit, run[..n]), key, id, end)
    decreases n
  {
    if from < n {
      ElsewhereRun(bit, run, from, n - 1, key, id, end);
      assert run[..n][..n - 1] == run[..n - 1];
      ElsewhereStep(After(bit, run[..n - 1]), bit, run[n - 1], key, id, end);
    }
  }

  /** Over every run in which no other entry covers the id when the call succeeds, and later
      operations are for other targets and sweep before the lease ends: the kernel denies for the
      id up to that moment and no longer. */
  lemma EnforcedAmongOthers(bit: bv32, run: seq<Op>, k: nat, n: nat, secs: nat, id: nat)
    requires bit != 0 && EnforcesAt(bit, run, k, secs, id) && k < n <= |run|
    requires var a := run[k].apply.value;
             && (forall key :: key in After(bit, run[..k]).entries && key != a.key ==>
                   id !in After(bit, run[..k]).entries[key].entry.ids)
             && forall j :: k < j < |run| ==> Elsewhere(run[j], a.key, id, a.now + secs * 1_000_000_000)
    ensures var kernel, a := After(bit, run[..n]).kernel, run[k].apply.value;
            id in kernel && InForce(kernel[id], bit, a, a.now + secs * 1_000_000_000)
  {
    var a := run[k].apply.value;
    var end := a.now + secs * 1_000_000_000;
    var before := After(bit, run[..k]);
    assert run[..k + 1][..k] == run[..k];
    SweepIds(before, bit, run[k].sweepAt, run[k].visits);
    EntryRecords(Sweep(before, bit, run[k].sweepAt, run[k].visits), bit, a, secs);
    assert OnlyCovers(After(bit, run[..k + 1]), a.key, id, end);
    forall j | k + 1 <= j < |run| ensures !Touches(After(bit, run[..j]), run[j], id) {
      ElsewhereRun(bit, run, k + 1, j, a.key, id, end);
      ElsewhereStep(After(bit, run[..j]), bit, run[j], a.key, id, end);
    }
    EnforcedOverRun(bit, run, k, n, secs, id);
  }

  lemma {:induction false} SweepIds(t: Table, bit: bv32, now: nat, visits: seq<(string, nat)>)
    ensures var t' := Sweep(t, bit, now, visits);
            t'.entries.Keys == t.entries.Keys && forall k :: k in t.entries ==> t'.entries[k].entry.ids == t.entries[k].entry.ids
  {
    if visits != [] {
      SweepIds(t, bit, now, visits[..|visits| - 1]);
    }
  }
}
