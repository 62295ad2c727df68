/** Kernel policies that no entry tracks (src/agent/guest_ebpf.rs). */
module LeaseOrphans {
  import opened Wrappers
  import opened Lease

  /** The kernel has a policy for this id, and no entry knows of it. */
  ghost predicate Orphan(t: Table, id: nat) {
    id in t.kernel && !Known(t, id)
  }

  ghost predicate Known(t: Table, id: nat) {
    exists k :: k in t.entries && id in t.entries[k].entry.ids
  }

  // ---- How an id becomes one ------------------------------------------------------------

  /** A first apply under its key that gets as far as its writes leaves an id behind that no
      entry knows of if and only if it wrote the id and failed before the last one. */
  lemma FirstApplyOrphansExactly(t: Table, bit: bv32, a: Apply, id: nat)
    requires a.key !in t.entries && a.target.Some? && a.attached && !Orphan(t, id)
    requires ParseMode(a.mode, a.leaseSecs).Ok? && !ParseMode(a.mode, a.leaseSecs).value.Off?
    ensures Orphan(ApplyTo(t, bit, a), id)
       <==> a.writes < |a.target.value.ids| && id in a.target.value.ids[..a.writes] && !Known(t, id)
  {
    var t', ids := ApplyTo(t, bit, a), a.target.value.ids;
    if a.writes >= |ids| {
      forall k | k in t.entries ensures k in t'.entries && t'.entries[k] == t.entries[k] {
      }
      if id in ids {
        assert a.key in t'.entries && id in t'.entries[a.key].entry.ids;
      }
    }
  }

  // ---- It stays one -----------------------------------------------------------------------

  /** The operation applies a policy to this id. */
  predicate Mentions(op: Op, id: nat) {
    op.apply.Some? && op.apply.value.target.Some? && id in op.apply.value.target.value.ids
  }

  lemma {:induction false} SweepPassesBy(t: Table, bit: bv32, now: nat, visits: seq<(string, nat)>, id: nat)
    requires Orphan(t, id)
    ensures Orphan(Sweep(t, bit, now, visits), id) && Sweep(t, bit, now, visits).kernel[id] == t.kernel[id]
  {
    if visits != [] {
      SweepPassesBy(t, bit, now, visits[..|visits| - 1], id);
      var last := visits[|visits| - 1];
      SweepOnePassesBy(Sweep(t, bit, now, visits[..|visits| - 1]), bit, now, last.0, last.1, id);
    }
  }

  lemma SweepOnePassesBy(t: Table, bit: bv32, now: nat, key: string, n: nat, id: nat)
    requires Orphan(t, id)
    ensures Orphan(SweepOne(t, bit, now, key, n), id) && SweepOne(t, bit, now, key, n).kernel[id] == t.kernel[id]
  {
  }

  lemma ApplyPassesBy(t: Table, bit: bv32, a: Apply, id: nat)
    requires Orphan(t, id) && (a.target.Some? ==> id !in a.target.value.ids)
    ensures Orphan(ApplyTo(t, bit, a), id) && ApplyTo(t, bit, a).kernel[id] == t.kernel[id]
  {
  }

  function Onwards(t: Table, bit: bv32, run: seq<Op>): Table {
    if run == [] then t else Operate(Onwards(t, bit, run[..|run| - 1]), bit, run[|run| - 1])
  }

  /** Over every run that applies nothing to the id, whatever it sweeps, queries or turns off,
      an orphan keeps its policy: it goes on denying until the deadline it was written with. */
  lemma {:induction false} OrphanStays(t: Table, bit: bv32, run: seq<Op>, id: nat)
    requires Orphan(t, id) && forall k :: 0 <= k < |run| ==> !Mentions(run[k], id)
    ensures Orphan(Onwards(t, bit, run), id) && Onwards(t, bit, run).kernel[id] == t.kernel[id]
  {
    if run != [] {
      var init, op := run[..|run| - 1], run[|run| - 1];
      OrphanStays(t, bit, init, id);
      var before := Onwards(t, bit, init);
      SweepPassesBy(before, bit, op.sweepAt, op.visits, id);
      if op.apply.Some? {
        ApplyPassesBy(Sweep(before, bit, op.sweepAt, op.visits), bit, op.apply.value, id);
      }
    }
  }

  lemma SetBit(flags: bv32, bit: bv32)
    requires bit != 0
    ensures ((flags & !bit) | bit) & bit != 0
  {
  }

  /** A first enforcing apply fails half-way; turning the target off afterwards succeeds, and
      the ids already written go on being denied. */
  lemma OffLeavesHalfApplied(bit: bv32, a: Apply, off: Apply, now: nat)
    requires bit != 0 && a.target.Some? && a.attached && 0 < a.writes < |a.target.value.ids|
    requires ParseMode(a.mode, a.leaseSecs).Ok? && ParseMode(a.mode, a.leaseSecs).value.Enforce?
    requires off.key == a.key && ParseMode(off.mode, off.leaseSecs) == Ok(Off)
    requires now < LeaseDeadline(ParseMode(a.mode, a.leaseSecs).value, a.now)
    ensures var half, id := ApplyTo(Empty, bit, a), a.target.value.ids[0];
            && !Succeeds(Empty, a) && Succeeds(half, off)
            && id in ApplyTo(half, bit, off).kernel && Denies(ApplyTo(half, bit, off).kernel[id], bit, now)
  {
    SetBit(a.flags, bit);
    assert a.target.value.ids[0] in a.target.value.ids[..a.writes];
  }
}
