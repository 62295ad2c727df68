/** The agent's policy state as it is updated in place
    (src/agent/guest_ebpf.rs, crates/guestkit-ebpf-runtime/src/loader.rs). */
module LeaseTable {
  import opened Lease

  lemma InsertNext(kernel: map<nat, Policy>, ids: seq<nat>, i: nat, p: Policy)
    requires i < |ids|
    ensures Insert(kernel, ids[..i], p)[ids[i] := p] == Insert(kernel, ids[..i + 1], p)
  {
    assert ids[..i + 1] == ids[..i] + [ids[i]];
  }

  class PolicyTable {
    const bit: bv32
    var kernel: map<nat, Policy>
    var entries: map<string, Tracked>

    constructor (bit: bv32)
      ensures this.bit == bit && View() == Empty
    {
      this.bit := bit;
      kernel, entries := map[], map[];
    }

    ghost function View(): Table
      reads this
    {
      Table(kernel, entries)
    }

    /** Insert one id at a time; the insert after `n` successes fails. */
    method SetPolicy(ids: seq<nat>, p: Policy, n: nat) returns (ok: bool)
      modifies this`kernel
      ensures kernel == Insert(old(kernel), Prefix(ids, n), p)
      ensures ok == (n >= |ids|)
    {
      for i := 0 to |ids|
        invariant i <= n
        invariant kernel == Insert(old(kernel), ids[..i], p)
      {
        if i == n {
          return false;
        }
        InsertNext(old(kernel), ids, i, p);
        kernel := kernel[ids[i] := p];
      }
      assert ids[..|ids|] == ids;
      return true;
    }

    /** Remove one id at a time, ignoring policies that stay; an error ends the loop early,
        or comes after it. */
    method RemoveIds(ids: seq<nat>, r: Removal) returns (ok: bool)
      modifies this`kernel
      ensures kernel == Remove(old(kernel), Dropped(r, ids))
      ensures ok == Completed(r, ids)
    {
      for i := 0 to |ids|
        invariant i <= r.tried
        invariant kernel == Remove(old(kernel), set id | id in ids[..i] && id !in r.stuck)
      {
        if i == r.tried {
          return false;
        }
        assert ids[..i + 1] == ids[..i] + [ids[i]];
        if ids[i] !in r.stuck {
          kernel := kernel - {ids[i]};
        }
      }
      assert ids[..|ids|] == ids;
      return r.rest;
    }

    /** `sweep`, over the entries in the order of `visits`. */
    method SweepEntries(now: nat, visits: seq<(string, nat)>)
      modifies this
      ensures View() == Sweep(old(View()), bit, now, visits)
    {
      for i := 0 to |visits|
        invariant View() == Sweep(old(View()), bit, now, visits[..i])
      {
        assert visits[..i + 1][..i] == visits[..i];
        var (key, n) := visits[i];
        if key in entries && Due(entries[key].entry, now) {
          var Tracked(e, p) := entries[key];
          var _ := SetPolicy(e.ids, Expired(p, bit), n);
          entries := entries[key := Tracked(e.(enforce := false, leaseExpired := true), Expired(p, bit))];
        }
      }
      assert visits[..|visits|] == visits;
    }

    /** The body `netpolicy_apply` and `lsm_apply` share. */
    method ApplyCall(a: Apply) returns (ok: bool)
      modifies this
      ensures View() == ApplyTo(old(View()), bit, a)
      ensures ok <==> Succeeds(old(View()), a)
    {
      var mode := ParseMode(a.mode, a.leaseSecs);
      if mode.Err? {
        return false;
      }
      if mode.value.Off? {
        if a.key in entries {
          var ids := entries[a.key].entry.ids;
          entries := entries - {a.key};
          ok := RemoveIds(ids, a.removal);
          return;
        }
        return true;
      }
      if a.target.None? {
        return false;
      }
      var target := a.target.value;
      if a.key in entries && entries[a.key].entry.cgroup != target.path {
        ok := RemoveIds(entries[a.key].entry.ids, a.removal);
        if !ok {
          return;
        }
        entries := entries - {a.key};
      }
      if !a.attached {
        return false;
      }
      var p := PolicyFor(a, mode.value, bit);
      ok := SetPolicy(target.ids, p, a.writes);
      if ok {
        entries := entries[a.key := Tracked(EntryFor(a, mode.value), p)];
      }
    }
  }
}
