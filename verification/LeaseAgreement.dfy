/** When the agent's entries describe what the kernel holds. */
module LeaseAgreement {
  import opened Wrappers
  import opened Lease
  import Text

  /** Every tracked id carries its entry's policy, and the entry's `enforce`
      and `deadline` are the policy's. */
  ghost predicate Agrees(t: Table, bit: bv32) {
    && (forall k :: k in t.entries ==> EntryAgrees(t.entries[k], bit))
    && (forall k, id :: k in t.entries && id in t.entries[k].entry.ids ==>
          id in t.kernel && t.kernel[id] == t.entries[k].policy)
  }

  ghost predicate EntryAgrees(x: Tracked, bit: bv32) {
    && x.entry.enforce == Enforcing(x.policy, bit)
    && (x.entry.enforce ==> x.entry.deadline == x.policy.deadline)
  }

  /** No entry still claims to enforce past its deadline. */
  ghost predicate NoneDue(t: Table, now: nat) {
    forall k :: k in t.entries ==> !Due(t.entries[k].entry, now)
  }

  // ---- Sweeping -----------------------------------------------------------------------

  ghost function Visited(visits: seq<(string, nat)>): set<string> {
    set v | v in visits :: v.0
  }

  /** Every entry once, in any order. */
  ghost predicate Walk(t: Table, visits: seq<(string, nat)>) {
    Visited(visits) == t.entries.Keys && EachOnce(visits)
  }

  ghost predicate EachOnce(visits: seq<(string, nat)>) {
    forall i, j :: 0 <= i < j < |visits| ==> visits[i].0 != visits[j].0
  }

  /** Some due entry got as far as writing `id`. */
  ghost predicate Wrote(t: Table, now: nat, visits: seq<(string, nat)>, id: nat) {
    exists v :: v in visits && Covers(t, now, v, id)
  }

  ghost predicate Covers(t: Table, now: nat, v: (string, nat), id: nat) {
    v.0 in t.entries && Due(t.entries[v.0].entry, now) && id in Prefix(t.entries[v.0].entry.ids, v.1)
  }

  ghost function SweptEntry(x: Tracked, bit: bv32): Tracked {
    Tracked(x.entry.(enforce := false, leaseExpired := true), Expired(x.policy, bit))
  }

  /** The effect of a sweep, without its order: which ids were written, which entries visited. */
  ghost function Swept(t: Table, bit: bv32, now: nat, visits: seq<(string, nat)>): Table {
    Table(
      map id | id in t.kernel :: if Wrote(t, now, visits, id) then Expired(t.kernel[id], bit) else t.kernel[id],
      map k | k in t.entries ::
        if k in Visited(visits) && Due(t.entries[k].entry, now) then SweptEntry(t.entries[k], bit) else t.entries[k])
  }

  lemma WroteMore(t: Table, now: nat, init: seq<(string, nat)>, v: (string, nat), id: nat)
    ensures Wrote(t, now, init + [v], id) <==> Wrote(t, now, init, id) || Covers(t, now, v, id)
  {
  }

  lemma VisitedMore(init: seq<(string, nat)>, v: (string, nat))
    ensures Visited(init + [v]) == Visited(init) + {v.0}
  {
  }

  lemma SweptEntries(t: Table, bit: bv32, now: nat, init: seq<(string, nat)>, v: (string, nat))
    requires v.0 !in Visited(init)
    ensures SweepOne(Swept(t, bit, now, init), bit, now, v.0, v.1).entries == Swept(t, bit, now, init + [v]).entries
  {
    VisitedMore(init, v);
  }

  lemma SweptKernel(t: Table, bit: bv32, now: nat, init: seq<(string, nat)>, v: (string, nat), id: nat)
    requires Agrees(t, bit) && v.0 !in Visited(init)
    ensures var r, s := SweepOne(Swept(t, bit, now, init), bit, now, v.0, v.1), Swept(t, bit, now, init + [v]);
            && (id in r.kernel <==> id in t.kernel)
            && (id in t.kernel ==> r.kernel[id] == s.kernel[id])
  {
    WroteMore(t, now, init, v, id);
    if Covers(t, now, v, id) {
      assert id in t.entries[v.0].entry.ids;
      assert t.kernel[id] == t.entries[v.0].policy;
    }
  }

  /** On a table that agrees, a sweep is its order-free effect, however far each write got. */
  lemma {:induction false} SweepIsSet(t: Table, bit: bv32, now: nat, visits: seq<(string, nat)>)
    requires Agrees(t, bit) && EachOnce(visits)
    ensures Sweep(t, bit, now, visits) == Swept(t, bit, now, visits)
  {
    if visits == [] {
      assert Swept(t, bit, now, []).kernel == t.kernel;
      assert Swept(t, bit, now, []).entries == t.entries;
    } else {
      var init, v := visits[..|visits| - 1], visits[|visits| - 1];
      assert visits == init + [v];
      SweepIsSet(t, bit, now, init);
      LastIsNew(init, v);
      SweptEntries(t, bit, now, init, v);
      SameKernel(t, bit, now, init, v);
    }
  }

  lemma LastIsNew(init: seq<(string, nat)>, v: (string, nat))
    requires EachOnce(init + [v])
    ensures v.0 !in Visited(init)
  {
    forall u | u in init ensures u.0 != v.0 {
      var i :| 0 <= i < |init| && init[i] == u;
      assert (init + [v])[i] == u && (init + [v])[|init|] == v;
    }
  }

  lemma SameKernel(t: Table, bit: bv32, now: nat, init: seq<(string, nat)>, v: (string, nat))
    requires Agrees(t, bit) && v.0 !in Visited(init)
    ensures SweepOne(Swept(t, bit, now, init), bit, now, v.0, v.1).kernel == Swept(t, bit, now, init + [v]).kernel
  {
    var r, s := SweepOne(Swept(t, bit, now, init), bit, now, v.0, v.1), Swept(t, bit, now, init + [v]);
    forall id
      ensures (id in r.kernel <==> id in s.kernel) && (id in s.kernel ==> r.kernel[id] == s.kernel[id])
    {
      SweptKernel(t, bit, now, init, v, id);
    }
  }

  /** Entries that share an id are due together. */
  lemma SharedIdsExpireTogether(t: Table, bit: bv32, now: nat, k: string, k': string, id: nat)
    requires Agrees(t, bit) && k in t.entries && k' in t.entries
    requires id in t.entries[k].entry.ids && id in t.entries[k'].entry.ids
    ensures Due(t.entries[k].entry, now) <==> Due(t.entries[k'].entry, now)
  {
    assert t.entries[k].policy == t.kernel[id] == t.entries[k'].policy;
    assert EntryAgrees(t.entries[k], bit) && EntryAgrees(t.entries[k'], bit);
  }

  /** Every id of every due entry is written, by that entry or by one that shares the id. */
  ghost predicate AllReached(t: Table, now: nat, visits: seq<(string, nat)>) {
    forall k, id :: k in t.entries && Due(t.entries[k].entry, now) && id in t.entries[k].entry.ids ==> Wrote(t, now, visits, id)
  }

  lemma SweptEntryAgrees(x: Tracked, bit: bv32)
    ensures EntryAgrees(SweptEntry(x, bit), bit) && (Enforcing(x.policy, bit) ==> Expired(x.policy, bit) != x.policy)
  {
    ClearedBit(x.policy.flags, bit);
  }

  lemma OneIdSwept(t: Table, bit: bv32, now: nat, visits: seq<(string, nat)>, k: string, id: nat)
    requires Agrees(t, bit) && Walk(t, visits) && k in t.entries && id in t.entries[k].entry.ids
    ensures var s := Swept(t, bit, now, visits);
            id in s.kernel && (s.kernel[id] == s.entries[k].policy
                               <==> (Due(t.entries[k].entry, now) ==> Wrote(t, now, visits, id)))
  {
    SweptEntryAgrees(t.entries[k], bit);
    assert EntryAgrees(t.entries[k], bit);
    if Wrote(t, now, visits, id) {
      var v :| v in visits && Covers(t, now, v, id);
      SharedIdsExpireTogether(t, bit, now, v.0, k, id);
    }
  }

  lemma SweptAgreesExactly(t: Table, bit: bv32, now: nat, visits: seq<(string, nat)>)
    requires Agrees(t, bit) && Walk(t, visits)
    ensures Agrees(Swept(t, bit, now, visits), bit) <==> AllReached(t, now, visits)
  {
    var s := Swept(t, bit, now, visits);
    forall k | k in s.entries
      ensures EntryAgrees(s.entries[k], bit) && s.entries[k].entry.ids == t.entries[k].entry.ids
    {
      SweptEntryAgrees(t.entries[k], bit);
    }
    forall k, id | k in t.entries && id in t.entries[k].entry.ids
      ensures id in s.kernel && (s.kernel[id] == s.entries[k].policy
                                 <==> (Due(t.entries[k].entry, now) ==> Wrote(t, now, visits, id)))
    {
      OneIdSwept(t, bit, now, visits, k, id);
    }
  }

  lemma SweptNoneDue(t: Table, bit: bv32, now: nat, visits: seq<(string, nat)>)
    requires Walk(t, visits)
    ensures NoneDue(Swept(t, bit, now, visits), now)
  {
  }

  /** A sweep keeps agent and kernel in agreement, even between targets that share ids, if and
      only if its writes reach every id of every due entry; no entry is due afterwards in any case. */
  lemma SweepAgreesExactly(t: Table, bit: bv32, now: nat, visits: seq<(string, nat)>)
    requires Agrees(t, bit) && Walk(t, visits)
    ensures Agrees(Sweep(t, bit, now, visits), bit) <==> AllReached(t, now, visits)
    ensures NoneDue(Sweep(t, bit, now, visits), now)
  {
    SweepIsSet(t, bit, now, visits);
    SweptAgreesExactly(t, bit, now, visits);
    SweptNoneDue(t, bit, now, visits);
  }

  // ---- Applying --------------------------------------------------------------------------

  /** The ids whose policy a call takes away before it writes. */
  ghost function RemovedIds(t: Table, a: Apply): set<nat> {
    match ParseMode(a.mode, a.leaseSecs)
    case Err(_) => {}
    case Ok(Off) => if a.key in t.entries then Dropped(a.removal, t.entries[a.key].entry.ids) else {}
    case Ok(_) =>
      if a.target.Some? && Moves(t, a.key, a.target.value) then Dropped(a.removal, t.entries[a.key].entry.ids) else {}
  }

  /** The call gets as far as writing policies. */
  ghost predicate Writes(t: Table, a: Apply) {
    var mode := ParseMode(a.mode, a.leaseSecs);
    && mode.Ok? && !mode.value.Off? && a.target.Some? && a.attached
    && (Moves(t, a.key, a.target.value) ==> Completed(a.removal, t.entries[a.key].entry.ids))
  }

  ghost function WrittenIds(t: Table, a: Apply): seq<nat> {
    if Writes(t, a) then Prefix(a.target.value.ids, a.writes) else []
  }

  /** The entry under the call's own key goes away or is replaced. */
  ghost predicate GivesUpEntry(t: Table, a: Apply) {
    var mode := ParseMode(a.mode, a.leaseSecs);
    && mode.Ok?
    && (|| mode.value.Off?
        || (Writes(t, a) && a.writes >= |a.target.value.ids|)
        || (a.target.Some? && Moves(t, a.key, a.target.value) && Completed(a.removal, t.entries[a.key].entry.ids)))
  }

  ghost predicate KeepsEntry(t: Table, a: Apply, k: string) {
    k in t.entries && (k == a.key ==> !GivesUpEntry(t, a))
  }

  /** The kernel's view of one id after a call, wherever it fails. */
  lemma KernelAfter(t: Table, bit: bv32, a: Apply, id: nat)
    ensures var s := ApplyTo(t, bit, a);
            if id in WrittenIds(t, a) then
              id in s.kernel && s.kernel[id] == PolicyFor(a, ParseMode(a.mode, a.leaseSecs).value, bit)
            else if id in RemovedIds(t, a) then id !in s.kernel
            else (id in s.kernel <==> id in t.kernel) && (id in t.kernel ==> s.kernel[id] == t.kernel[id])
  {
  }

  /** The entries after a call, wherever it fails. */
  lemma EntriesAfter(t: Table, bit: bv32, a: Apply)
    ensures var s := ApplyTo(t, bit, a);
            && (forall k :: KeepsEntry(t, a, k) ==> k in s.entries && s.entries[k] == t.entries[k])
            && (forall k :: k in s.entries && !KeepsEntry(t, a, k) ==>
                  && k == a.key && Writes(t, a) && a.writes >= |a.target.value.ids|
                  && s.entries[k] == Tracked(EntryFor(a, ParseMode(a.mode, a.leaseSecs).value),
                                             PolicyFor(a, ParseMode(a.mode, a.leaseSecs).value, bit)))
  {
  }

  /** No entry that stays loses an id, or is left with another policy on an id the call writes. */
  ghost predicate Undisturbed(t: Table, bit: bv32, a: Apply) {
    forall k, id :: KeepsEntry(t, a, k) && id in t.entries[k].entry.ids ==> IdUndisturbed(t, bit, a, k, id)
  }

  ghost predicate IdUndisturbed(t: Table, bit: bv32, a: Apply, k: string, id: nat)
    requires k in t.entries
  {
    if id in WrittenIds(t, a) then t.entries[k].policy == PolicyFor(a, ParseMode(a.mode, a.leaseSecs).value, bit)
    else id !in RemovedIds(t, a)
  }

  lemma OneIdApplied(t: Table, bit: bv32, a: Apply, k: string, id: nat)
    requires Agrees(t, bit) && k in t.entries && id in t.entries[k].entry.ids
    ensures var s := ApplyTo(t, bit, a);
            id in s.kernel && s.kernel[id] == t.entries[k].policy <==> IdUndisturbed(t, bit, a, k, id)
  {
    KernelAfter(t, bit, a, id);
  }

  lemma EnforcingFlags(flags: bv32, bit: bv32, nrules: nat, deadline: nat)
    requires bit != 0
    ensures Enforcing(Policy((flags & !bit) | bit, nrules, deadline), bit)
  {
    SetBit(flags, bit);
  }

  lemma AuditFlags(flags: bv32, bit: bv32, nrules: nat, deadline: nat)
    ensures !Enforcing(Policy(flags & !bit, nrules, deadline), bit)
  {
    ClearedBit(flags, bit);
  }

  lemma SetBit(flags: bv32, bit: bv32)
    ensures ((flags & !bit) | bit) & bit == bit
  {
  }

  lemma OwnEntryAgrees(a: Apply, mode: Mode, bit: bv32)
    requires bit != 0 && a.target.Some?
    ensures EntryAgrees(Tracked(EntryFor(a, mode), PolicyFor(a, mode, bit)), bit)
  {
    var deadline := LeaseDeadline(mode, a.now);
    if mode.Enforce? {
      EnforcingFlags(a.flags, bit, a.nrules, deadline);
    } else {
      AuditFlags(a.flags, bit, a.nrules, deadline);
    }
  }

  lemma NewEntryAgrees(t: Table, bit: bv32, a: Apply, k: string)
    requires bit != 0 && k in ApplyTo(t, bit, a).entries && !KeepsEntry(t, a, k)
    ensures var s := ApplyTo(t, bit, a);
            EntryAgrees(s.entries[k], bit)
            && forall id :: id in s.entries[k].entry.ids ==> id in s.kernel && s.kernel[id] == s.entries[k].policy
  {
    var s := ApplyTo(t, bit, a);
    EntriesAfter(t, bit, a);
    OwnEntryAgrees(a, ParseMode(a.mode, a.leaseSecs).value, bit);
    forall id | id in s.entries[k].entry.ids
      ensures id in s.kernel && s.kernel[id] == s.entries[k].policy
    {
      KernelAfter(t, bit, a, id);
    }
  }

  /** Exactly when a call keeps agreement: for every call, wherever it fails, no entry that
      stays loses an id or gets another policy on an id the call still wrote. */
  lemma ApplyAgreesExactly(t: Table, bit: bv32, a: Apply)
    requires bit != 0 && Agrees(t, bit)
    ensures Agrees(ApplyTo(t, bit, a), bit) <==> Undisturbed(t, bit, a)
  {
    var s := ApplyTo(t, bit, a);
    EntriesAfter(t, bit, a);
    forall k | k in s.entries && !KeepsEntry(t, a, k)
      ensures EntryAgrees(s.entries[k], bit)
      ensures forall id :: id in s.entries[k].entry.ids ==> id in s.kernel && s.kernel[id] == s.entries[k].policy
    {
      NewEntryAgrees(t, bit, a, k);
    }
    forall k, id | KeepsEntry(t, a, k) && id in t.entries[k].entry.ids
      ensures id in s.kernel && s.kernel[id] == s.entries[k].policy <==> IdUndisturbed(t, bit, a, k, id)
    {
      OneIdApplied(t, bit, a, k, id);
    }
  }

  /** An id neither in the call's target nor in its entry is neither written nor removed. */
  lemma OutOfReach(t: Table, a: Apply, id: nat)
    requires a.target.Some? ==> id !in a.target.value.ids
    requires a.key in t.entries ==> id !in t.entries[a.key].entry.ids
    ensures id !in WrittenIds(t, a) && id !in RemovedIds(t, a)
  {
  }

  /** A call that succeeds, over targets that share no ids, always keeps agreement. */
  lemma DisjointTargetsAgree(t: Table, bit: bv32, a: Apply)
    requires bit != 0 && Agrees(t, bit) && Succeeds(t, a)
    requires forall k, id :: k in t.entries && k != a.key && id in t.entries[k].entry.ids ==>
               && (a.target.Some? ==> id !in a.target.value.ids)
               && (a.key in t.entries ==> id !in t.entries[a.key].entry.ids)
    ensures Agrees(ApplyTo(t, bit, a), bit)
  {
    ApplyAgreesExactly(t, bit, a);
    assert GivesUpEntry(t, a);
    forall k, id | KeepsEntry(t, a, k) && id in t.entries[k].entry.ids
      ensures IdUndisturbed(t, bit, a, k, id)
    {
      OutOfReach(t, a, id);
    }
  }

  // ---- Whole runs ------------------------------------------------------------------------------

  /** The sweep reaches every due id, and the call disturbs no entry. */
  ghost predicate CleanOp(t: Table, bit: bv32, op: Op) {
    && Walk(t, op.visits) && AllReached(t, op.sweepAt, op.visits)
    && (op.apply.Some? ==> Undisturbed(Sweep(t, bit, op.sweepAt, op.visits), bit, op.apply.value))
  }

  lemma CleanStep(t: Table, bit: bv32, op: Op)
    requires bit != 0 && Agrees(t, bit) && CleanOp(t, bit, op)
    ensures Agrees(Operate(t, bit, op), bit)
    ensures NoneDue(Sweep(t, bit, op.sweepAt, op.visits), op.sweepAt)
  {
    SweepAgreesExactly(t, bit, op.sweepAt, op.visits);
    var swept := Sweep(t, bit, op.sweepAt, op.visits);
    if op.apply.Some? {
      ApplyAgreesExactly(swept, bit, op.apply.value);
    }
  }

  ghost predicate Clean(bit: bv32, run: seq<Op>, k: nat)
    requires k < |run|
  {
    CleanOp(After(bit, run[..k]), bit, run[k])
  }

  /** Agreement after every operation of a run whose sweeps reach every due id and whose
      calls disturb no entry; and nothing is due at the sweep's clock. */
  lemma {:induction false} RunAgrees(bit: bv32, run: seq<Op>, k: nat)
    requires bit != 0 && k <= |run| && forall j :: 0 <= j < k ==> Clean(bit, run, j)
    ensures Agrees(After(bit, run[..k]), bit)
    ensures k < |run| && Clean(bit, run, k) ==>
              NoneDue(Sweep(After(bit, run[..k]), bit, run[k].sweepAt, run[k].visits), run[k].sweepAt)
  {
    if k > 0 {
      RunAgrees(bit, run, k - 1);
      assert run[..k][..k - 1] == run[..k - 1];
      assert Clean(bit, run, k - 1);
      CleanStep(After(bit, run[..k - 1]), bit, run[k - 1]);
    }
    if k < |run| && Clean(bit, run, k) {
      CleanStep(After(bit, run[..k]), bit, run[k]);
    }
  }

  // ---- Calls that break agreement ------------------------------------------------------------------

  const AllGone := Removal(0, {}, true)

  function Call(key: string, mode: string, lease: Option<nat>, ids: seq<nat>, writes: nat): Apply {
    Apply(key, mode, lease, Some(Cgroup("/c", ids)), 1, 0, 0, AllGone, true, writes)
  }

  lemma ParsesPlainModes()
    ensures ParseMode("enforce", Some(60)) == Ok(Enforce(60))
    ensures ParseMode("audit", None) == Ok(Audit)
  {
    assert Text.ToAsciiLower("enforce") == "enforce";
    assert Text.ToAsciiLower("audit") == "audit";
  }

  lemma FirstCall(key: string, ids: seq<nat>)
    ensures var s := ApplyTo(Empty, NP_ENFORCE, Call(key, "enforce", Some(60), ids, |ids|));
            && s.entries.Keys == {key} && s.entries[key].entry.enforce && s.entries[key].entry.ids == ids
            && s.entries[key].entry.cgroup == "/c"
            && Enforcing(s.entries[key].policy, NP_ENFORCE) && Agrees(s, NP_ENFORCE)
  {
    var a := Call(key, "enforce", Some(60), ids, |ids|);
    ParsesPlainModes();
    ApplyAgreesExactly(Empty, NP_ENFORCE, a);
    OwnEntryAgrees(a, Enforce(60), NP_ENFORCE);
  }

  lemma AuditPolicy(key: string, ids: seq<nat>, writes: nat)
    ensures !Enforcing(PolicyFor(Call(key, "audit", None, ids, writes), Audit, NP_ENFORCE), NP_ENFORCE)
  {
    AuditFlags(1, NP_ENFORCE, 0, 0);
  }

  /** Two targets over the same ids, such as a container and its cgroup path. The
      second, in audit mode, silently ends the enforcement the first still reports. */
  lemma OverlapBreaksAgreement(container: string, path: string, id: nat)
    requires container != path
    ensures var t1 := ApplyTo(Empty, NP_ENFORCE, Call(container, "enforce", Some(60), [id], 1));
            var t := ApplyTo(t1, NP_ENFORCE, Call(path, "audit", None, [id], 1));
            && container in t.entries && t.entries[container].entry.enforce
            && id in t.kernel && !Enforcing(t.kernel[id], NP_ENFORCE) && !Agrees(t, NP_ENFORCE)
  {
    var t1 := ApplyTo(Empty, NP_ENFORCE, Call(container, "enforce", Some(60), [id], 1));
    var second := Call(path, "audit", None, [id], 1);
    FirstCall(container, [id]);
    ParsesPlainModes();
    AuditPolicy(path, [id], 1);
    EntriesAfter(t1, NP_ENFORCE, second);
    KernelAfter(t1, NP_ENFORCE, second, id);
    assert KeepsEntry(t1, second, container);
  }

  /** One target alone, re-applied in audit mode with a write that fails half-way: its entry
      still reports enforcement on an id that has lost it. */
  lemma HalfWrittenBreaksAgreement(key: string)
    ensures var t1 := ApplyTo(Empty, NP_ENFORCE, Call(key, "enforce", Some(60), [1, 2], 2));
            var t := ApplyTo(t1, NP_ENFORCE, Call(key, "audit", None, [1, 2], 1));
            && key in t.entries && t.entries[key].entry.enforce
            && 1 in t.kernel && !Enforcing(t.kernel[1], NP_ENFORCE) && !Agrees(t, NP_ENFORCE)
  {
    var t1 := ApplyTo(Empty, NP_ENFORCE, Call(key, "enforce", Some(60), [1, 2], 2));
    var second := Call(key, "audit", None, [1, 2], 1);
    FirstCall(key, [1, 2]);
    ParsesPlainModes();
    AuditPolicy(key, [1, 2], 1);
    assert WrittenIds(t1, second) == [1, 2][..1] == [1];
    EntriesAfter(t1, NP_ENFORCE, second);
    KernelAfter(t1, NP_ENFORCE, second, 1);
    assert KeepsEntry(t1, second, key);
    assert 1 in t1.entries[key].entry.ids;
  }
}
