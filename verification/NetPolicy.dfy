/** Installing a network policy in the kernel maps
    (crates/guestkit-ebpf-runtime/src/loader.rs) and the program's verdict on a
    packet (crates/guestkit-ebpf/src/netpolicy.rs). */
module NetPolicy {
  import opened Wrappers
  import opened Cidr
  import Lease

  const MAX_RULES: nat := 32
  const EGRESS_ISOLATED: bv32 := 1
  const INGRESS_ISOLATED: bv32 := 2

  datatype Maps = Maps(policies: map<nat, Lease.Policy>, rules: map<(nat, nat), Rule>)

  /** The policed direction's flag. */
  function IsolationBit(dir: Direction): bv32 {
    match dir case Egress => EGRESS_ISOLATED case Ingress => INGRESS_ISOLATED
  }

  predicate Policed(p: Lease.Policy, dir: Direction) {
    p.flags & IsolationBit(dir) != 0
  }

  /** `np_policy`: the policy as the program sees it. */
  function NpPolicyOf(egress: bool, ingress: bool, enforce: bool, nrules: nat, deadline: nat): Lease.Policy {
    Lease.Policy((if egress then EGRESS_ISOLATED else 0) | (if ingress then INGRESS_ISOLATED else 0)
                 | (if enforce then Lease.NP_ENFORCE else 0), nrules, if enforce then deadline else 0)
  }

  /** A direction is policed if and only if that was asked for, and violations are denied up to
      the deadline if and only if enforcement was. */
  lemma PolicyAsAsked(egress: bool, ingress: bool, enforce: bool, nrules: nat, deadline: nat, now: nat)
    ensures var p := NpPolicyOf(egress, ingress, enforce, nrules, deadline);
            && (Policed(p, Egress) <==> egress) && (Policed(p, Ingress) <==> ingress) && p.nrules == nrules
            && (Lease.Denies(p, Lease.NP_ENFORCE, now) <==> enforce && now < deadline)
  {
  }

  // ---- The program --------------------------------------------------------

  /** Some slot below the policy's rule count holds a matching rule. */
  ghost predicate SlotMatches(m: Maps, cg: nat, dir: Direction, p: Packet, limit: nat) {
    exists slot: nat :: slot < limit && (cg, slot) in m.rules && Matches(m.rules[(cg, slot)], dir, p)
  }

  /** A policed packet that no rule lets through, while the lease runs. */
  ghost predicate Violates(policy: Lease.Policy, dir: Direction, p: Packet, allowed: bool, now: nat) {
    Policed(policy, dir) && !Loopback(p) && !allowed && Lease.Denies(policy, Lease.NP_ENFORCE, now)
  }

  ghost predicate Passes(m: Maps, cg: nat, dir: Direction, p: Packet, now: nat) {
    cg in m.policies ==>
      var limit := if m.policies[cg].nrules < MAX_RULES then m.policies[cg].nrules else MAX_RULES;
      !Violates(m.policies[cg], dir, p, SlotMatches(m, cg, dir, p, limit), now)
  }

  /** `verdict`, for a packet whose headers parse. */
  method Verdict(m: Maps, cg: nat, dir: Direction, p: Packet, now: nat) returns (pass: bool)
    ensures pass <==> Passes(m, cg, dir, p, now)
  {
    if cg !in m.policies || !Policed(m.policies[cg], dir) || Loopback(p) {
      return true;
    }
    var pol := m.policies[cg];
    var slot := 0;
    while slot < MAX_RULES && slot < pol.nrules
      invariant slot <= MAX_RULES && slot <= pol.nrules
      invariant !SlotMatches(m, cg, dir, p, slot)
    {
      if (cg, slot) in m.rules && Matches(m.rules[(cg, slot)], dir, p) {
        return true;
      }
      slot := slot + 1;
    }
    return !Lease.Denies(pol, Lease.NP_ENFORCE, now);
  }

  // ---- Installing ---------------------------------------------------------

  /** How far the writes for one cgroup id have got: `k` rule slots; all of them and some
      stale slots emptied, in whatever order the map yields them; everything. A stale slot
      that could not be emptied is not among `gone`. */
  datatype Progress = Adding(k: nat) | Emptying(gone: set<nat>) | Done(gone: set<nat>)

  function WithRules(m: Maps, id: nat, rules: seq<Rule>, k: nat): map<(nat, nat), Rule>
    requires k <= |rules|
  {
    m.rules + map slot: nat | slot < k :: (id, slot) := rules[slot]
  }

  /** The maps at that point: the rule slots in order, then slots beyond the rules, then the policy. */
  function Installed(m: Maps, id: nat, rules: seq<Rule>, policy: Lease.Policy, at: Progress): Maps
    requires at.Adding? ==> at.k <= |rules|
  {
    match at
    case Adding(k) => m.(rules := WithRules(m, id, rules, k))
    case Emptying(gone) => m.(rules := Without(WithRules(m, id, rules, |rules|), id, |rules|, gone))
    case Done(gone) =>
      Maps(m.policies[id := policy.(nrules := |rules|)], Without(WithRules(m, id, rules, |rules|), id, |rules|, gone))
  }

  function Without(rules: map<(nat, nat), Rule>, id: nat, from: nat, gone: set<nat>): map<(nat, nat), Rule> {
    map key | key in rules && !(key.0 == id && key.1 >= from && key.1 in gone) :: rules[key]
  }

  /** Every slot the policy counts holds a rule. */
  ghost predicate NoMissingSlots(m: Maps, id: nat) {
    id in m.policies ==> forall slot: nat :: slot < m.policies[id].nrules ==> (id, slot) in m.rules
  }

  /** "The program never sees a policy pointing at missing slots" holds at every point of an
      installation, in whatever order stale slots go, exactly when the rules do not become fewer. */
  lemma SlotsNeverMissingExactly(m: Maps, id: nat, rules: seq<Rule>, policy: Lease.Policy)
    requires NoMissingSlots(m, id)
    ensures (forall at: Progress :: (at.Adding? ==> at.k <= |rules|) ==> NoMissingSlots(Installed(m, id, rules, policy, at), id))
            <==> (id in m.policies ==> m.policies[id].nrules <= |rules|)
  {
    if id in m.policies && m.policies[id].nrules > |rules| {
      var at := Emptying({|rules|});
      assert (id, |rules|) !in Installed(m, id, rules, policy, at).rules;
      assert !NoMissingSlots(Installed(m, id, rules, policy, at), id);
    } else {
      forall at: Progress | at.Adding? ==> at.k <= |rules|
        ensures NoMissingSlots(Installed(m, id, rules, policy, at), id)
      {
        SlotsThere(m, id, rules, policy, at);
      }
    }
  }

  /** Two rules replaced by one: between emptying the second slot and writing the policy, the
      old policy counts a slot that is gone. */
  lemma FewerRulesShowGap(rule: Rule, policy: Lease.Policy)
    ensures var m := Maps(map[7 := policy.(nrules := 2)], map[(7, 0) := rule, (7, 1) := rule]);
            NoMissingSlots(m, 7) && !NoMissingSlots(Installed(m, 7, [rule], policy, Emptying({1})), 7)
  {
    var m := Maps(map[7 := policy.(nrules := 2)], map[(7, 0) := rule, (7, 1) := rule]);
    assert (7, 1) !in Installed(m, 7, [rule], policy, Emptying({1})).rules;
  }

  lemma SlotsThere(m: Maps, id: nat, rules: seq<Rule>, policy: Lease.Policy, at: Progress)
    requires NoMissingSlots(m, id) && (id in m.policies ==> m.policies[id].nrules <= |rules|)
    requires at.Adding? ==> at.k <= |rules|
    ensures NoMissingSlots(Installed(m, id, rules, policy, at), id)
  {
    var s := Installed(m, id, rules, policy, at);
    forall slot: nat | id in s.policies && slot < s.policies[id].nrules
      ensures (id, slot) in s.rules
    {
      assert slot < |rules|;
    }
  }

  /** The stated allow rules, compiled in order. */
  ghost predicate CompiledFrom(rules: seq<Rule>, specs: seq<RuleSpec>) {
    |rules| == |specs| && forall i :: 0 <= i < |specs| ==> Compile(specs[i]) == Ok(rules[i])
  }

  ghost predicate SomeAllows(specs: seq<RuleSpec>, dir: Direction, p: Packet) {
    exists i :: 0 <= i < |specs| && Allows(specs[i], dir, p)
  }

  /** What the policy promises: a policed packet that is not loopback and that
      no stated rule allows is dropped while the lease runs, and nothing else is. */
  ghost predicate Dropped(specs: seq<RuleSpec>, policy: Lease.Policy, dir: Direction, p: Packet, now: nat) {
    Violates(policy, dir, p, SomeAllows(specs, dir, p), now)
  }

  lemma SlotMeans(s: Maps, id: nat, specs: seq<RuleSpec>, rules: seq<Rule>, policy: Lease.Policy,
                  dir: Direction, p: Packet, i: nat)
    requires |rules| <= MAX_RULES && CompiledFrom(rules, specs) && Holds(s, id, rules, policy) && i < |specs|
    ensures (id, i) in s.rules && (Matches(s.rules[(id, i)], dir, p) <==> Allows(specs[i], dir, p))
  {
    CompiledRuleMeans(specs[i], dir, p);
  }

  lemma SlotsMean(s: Maps, id: nat, specs: seq<RuleSpec>, rules: seq<Rule>, policy: Lease.Policy, dir: Direction, p: Packet)
    requires |rules| <= MAX_RULES && CompiledFrom(rules, specs) && Holds(s, id, rules, policy)
    ensures SlotMatches(s, id, dir, p, |rules|) <==> SomeAllows(specs, dir, p)
  {
    if SlotMatches(s, id, dir, p, |rules|) {
      var i: nat :| i < |rules| && (id, i) in s.rules && Matches(s.rules[(id, i)], dir, p);
      SlotMeans(s, id, specs, rules, policy, dir, p, i);
    }
    if SomeAllows(specs, dir, p) {
      var i: nat :| i < |specs| && Allows(specs[i], dir, p);
      SlotMeans(s, id, specs, rules, policy, dir, p, i);
    }
  }

  /** Once installed, the program's verdict is the stated policy's, whatever was there before. */
  lemma InstalledMeans(s: Maps, id: nat, specs: seq<RuleSpec>, rules: seq<Rule>, policy: Lease.Policy,
                       dir: Direction, p: Packet, now: nat)
    requires |rules| <= MAX_RULES && CompiledFrom(rules, specs) && Holds(s, id, rules, policy)
    ensures Passes(s, id, dir, p, now) <==> !Dropped(specs, policy, dir, p, now)
  {
    SlotsMean(s, id, specs, rules, policy, dir, p);
    SamePolicy(policy, |rules|, dir, p, SomeAllows(specs, dir, p), now);
  }

  /** End to end from the request: under an installed policy a packet is dropped if and only if
      its direction was asked to be policed, it is not loopback, no stated rule allows it, and
      enforcement was asked for up to a deadline that is not over. */
  lemma RequestMeans(s: Maps, id: nat, specs: seq<RuleSpec>, rules: seq<Rule>, egress: bool, ingress: bool, enforce: bool,
                     deadline: nat, dir: Direction, p: Packet, now: nat)
    requires |rules| <= MAX_RULES && CompiledFrom(rules, specs)
    requires Holds(s, id, rules, NpPolicyOf(egress, ingress, enforce, |rules|, deadline))
    ensures !Passes(s, id, dir, p, now)
       <==> (if dir.Egress? then egress else ingress) && !Loopback(p) && !SomeAllows(specs, dir, p) && enforce && now < deadline
  {
    InstalledMeans(s, id, specs, rules, NpPolicyOf(egress, ingress, enforce, |rules|, deadline), dir, p, now);
    PolicyAsAsked(egress, ingress, enforce, |rules|, deadline, now);
  }

  lemma SamePolicy(policy: Lease.Policy, n: nat, dir: Direction, p: Packet, allowed: bool, now: nat)
    ensures Violates(policy.(nrules := n), dir, p, allowed, now) == Violates(policy, dir, p, allowed, now)
  {
    var other := policy.(nrules := n);
    assert Policed(other, dir) == Policed(policy, dir);
    assert Lease.Denies(other, Lease.NP_ENFORCE, now) == Lease.Denies(policy, Lease.NP_ENFORCE, now);
  }

  /** The policy is in place for `id`, and the slots it counts hold exactly these rules. */
  ghost predicate Holds(s: Maps, id: nat, rules: seq<Rule>, policy: Lease.Policy) {
    && id in s.policies && s.policies[id] == policy.(nrules := |rules|)
    && forall slot: nat :: slot < |rules| ==> (id, slot) in s.rules && s.rules[(id, slot)] == rules[slot]
  }

  /** Nothing changed for cgroups outside `ids`. */
  ghost predicate Untouched(m: Maps, s: Maps, ids: seq<nat>) {
    && (forall id :: id !in ids ==> (id in s.policies <==> id in m.policies) && (id in m.policies ==> s.policies[id] == m.policies[id]))
    && (forall key: (nat, nat) :: key.0 !in ids ==> (key in s.rules <==> key in m.rules) && (key in m.rules ==> s.rules[key] == m.rules[key]))
  }

  lemma UntouchedThenOne(m: Maps, s: Maps, s': Maps, ids: seq<nat>, id: nat)
    requires Untouched(m, s, ids) && Untouched(s, s', [id])
    ensures Untouched(m, s', ids + [id])
  {
  }

  lemma HoldsKept(s: Maps, s': Maps, id: nat, other: nat, rules: seq<Rule>, policy: Lease.Policy)
    requires Holds(s, id, rules, policy) && Untouched(s, s', [other]) && id != other
    ensures Holds(s', id, rules, policy)
  {
  }

  lemma InstalledHolds(m: Maps, id: nat, rules: seq<Rule>, policy: Lease.Policy, gone: set<nat>)
    ensures Holds(Installed(m, id, rules, policy, Done(gone)), id, rules, policy)
  {
  }

  lemma InstalledTouches(m: Maps, id: nat, rules: seq<Rule>, policy: Lease.Policy, at: Progress)
    requires at.Adding? ==> at.k <= |rules|
    ensures Untouched(m, Installed(m, id, rules, policy, at), [id])
  {
  }

  /** Where the writes for one id are let down: after `k` rule slots, at the policy, or nowhere;
      `gone` are the stale slots whose removal works. */
  datatype Fault = AtRule(k: nat) | AtPolicy(gone: set<nat>) | Nowhere(gone: set<nat>)

  function Outcome(rules: seq<Rule>, fault: Fault): Progress {
    match fault
    case AtRule(k) => if k < |rules| then Adding(k) else Done({})
    case AtPolicy(gone) => Emptying(gone)
    case Nowhere(gone) => Done(gone)
  }

  /** An id is installed if and only if no rule slot it needs fails, nor the policy; a failing slot
      is where the slots end. */
  lemma OutcomeExactly(rules: seq<Rule>, fault: Fault)
    ensures Outcome(rules, fault).Done? <==> !fault.AtPolicy? && !(fault.AtRule? && fault.k < |rules|)
    ensures forall k: nat :: Outcome(rules, fault) == Adding(k) <==> fault == AtRule(k) && k < |rules|
    ensures !fault.AtRule? && !Outcome(rules, fault).Adding? ==> Outcome(rules, fault).gone == fault.gone
  {
  }

  lemma NextRule(m: Maps, id: nat, rules: seq<Rule>, k: nat)
    requires k < |rules|
    ensures WithRules(m, id, rules, k)[(id, k) := rules[k]] == WithRules(m, id, rules, k + 1)
  {
  }

  lemma NoneWithout(rules: map<(nat, nat), Rule>, id: nat, from: nat)
    ensures Without(rules, id, from, {}) == rules
  {
  }

  lemma OneWithout(rules: map<(nat, nat), Rule>, id: nat, from: nat, gone: set<nat>, slot: nat)
    ensures Without(rules, id, from, gone) - (if slot >= from then {(id, slot)} else {}) == Without(rules, id, from, gone + {slot})
  {
  }

  lemma NoRule(m: Maps, id: nat, rules: seq<Rule>)
    ensures WithRules(m, id, rules, 0) == m.rules
  {
  }

  /** The rule slots in order, up to the one that fails. */
  method AddRules(m: Maps, id: nat, rules: seq<Rule>, fault: Fault) returns (s: Maps, ok: bool)
    ensures ok <==> !(fault.AtRule? && fault.k < |rules|)
    ensures s == m.(rules := WithRules(m, id, rules, if ok then |rules| else fault.k))
  {
    var n := if fault.AtRule? && fault.k < |rules| then fault.k else |rules|;
    s := m;
    NoRule(m, id, rules);
    for slot := 0 to n
      invariant s == m.(rules := WithRules(m, id, rules, slot))
    {
      NextRule(m, id, rules, slot);
      s := s.(rules := s.rules[(id, slot) := rules[slot]]);
    }
    ok := n == |rules|;
  }

  /** Stale slots in any order. */
  method EmptySlots(m: Maps, id: nat, from: nat, gone: set<nat>) returns (s: Maps)
    ensures s == m.(rules := Without(m.rules, id, from, gone))
  {
    s := m;
    var todo := gone;
    ghost var done: set<nat> := {};
    NoneWithout(m.rules, id, from);
    while todo != {}
      invariant todo + done == gone
      invariant s == m.(rules := Without(m.rules, id, from, done))
      decreases |todo|
    {
      var slot :| slot in todo;
      OneWithout(m.rules, id, from, done, slot);
      if slot >= from {
        s := s.(rules := s.rules - {(id, slot)});
      }
      todo, done := todo - {slot}, done + {slot};
    }
    assert done == gone;
  }

  /** The writes for one id: rule slots in order, stale slots in any order, the policy last. */
  method InstallOne(m: Maps, id: nat, rules: seq<Rule>, policy: Lease.Policy, fault: Fault) returns (s: Maps, ok: bool)
    ensures s == Installed(m, id, rules, policy, Outcome(rules, fault)) && (ok <==> Outcome(rules, fault).Done?)
  {
    s, ok := AddRules(m, id, rules, fault);
    if !ok {
      return;
    }
    s := EmptySlots(s, id, |rules|, if fault.AtRule? then {} else fault.gone);
    if fault.AtPolicy? {
      return s, false;
    }
    s := s.(policies := s.policies[id := policy.(nrules := |rules|)]);
  }

  /** Each of these ids has the policy and the rules. */
  ghost predicate AllHold(s: Maps, ids: seq<nat>, rules: seq<Rule>, policy: Lease.Policy) {
    forall id :: id in ids ==> Holds(s, id, rules, policy)
  }

  lemma OneMoreInstalled(m: Maps, s: Maps, ids: seq<nat>, id: nat, rules: seq<Rule>, policy: Lease.Policy, at: Progress)
    requires Untouched(m, s, ids) && AllHold(s, ids, rules, policy) && (at.Adding? ==> at.k <= |rules|)
    ensures var s' := Installed(s, id, rules, policy, at);
            && Untouched(m, s', ids + [id])
            && (at.Done? ==> AllHold(s', ids + [id], rules, policy))
            && forall other :: other in ids && other != id ==> Holds(s', other, rules, policy)
  {
    var s' := Installed(s, id, rules, policy, at);
    InstalledTouches(s, id, rules, policy, at);
    UntouchedThenOne(m, s, s', ids, id);
    forall other | other in ids && other != id
      ensures Holds(s', other, rules, policy)
    {
      HoldsKept(s, s', other, id, rules, policy);
    }
    if at.Done? {
      InstalledHolds(s, id, rules, policy, at.gone);
    }
  }

  /** `np_apply`: one id after another, up to the first that fails; no other cgroup's policy or
      rules change, and the ids before it hold. `faults` says how the writes of each id go. */
  method NpApply(m: Maps, ids: seq<nat>, policy: Lease.Policy, rules: seq<Rule>, attached: bool, faults: nat -> Fault)
      returns (s: Maps, ok: bool, done: nat)
    ensures ok <==> |rules| <= 32 && ids != [] && attached && done == |ids|
    ensures !(|rules| <= 32 && ids != [] && attached) ==> s == m && done == 0
    ensures done <= |ids| && (forall i: nat :: i < done ==> Outcome(rules, faults(i)).Done?)
    ensures |rules| <= 32 && ids != [] && attached && done < |ids| ==> !Outcome(rules, faults(done)).Done?
    ensures Untouched(m, s, ids)
    ensures ok ==> AllHold(s, ids, rules, policy)
    ensures !ok && done < |ids| ==> forall id :: id in ids[..done] && id != ids[done] ==> Holds(s, id, rules, policy)
  {
    s, done := m, 0;
    if |rules| > MAX_RULES || ids == [] || !attached {
      return s, false, 0;
    }
    while done < |ids|
      invariant done <= |ids| && Untouched(m, s, ids[..done]) && AllHold(s, ids[..done], rules, policy)
      invariant forall i: nat :: i < done ==> Outcome(rules, faults(i)).Done?
    {
      OneMoreInstalled(m, s, ids[..done], ids[done], rules, policy, Outcome(rules, faults(done)));
      assert ids[..done + 1] == ids[..done] + [ids[done]];
      s, ok := InstallOne(s, ids[done], rules, policy, faults(done));
      if !ok {
        return;
      }
      done := done + 1;
    }
    assert ids[..done] == ids;
    ok := true;
  }

  // ---- Traffic while the rules are replaced ----------------------------------------------------

  predicate InRange(rules: seq<Rule>, at: Progress) {
    at.Adding? ==> at.k <= |rules|
  }

  /** Rule `i` of the new list and slot `j` of the old one let the packet through. */
  ghost predicate BothMatch(m: Maps, id: nat, rules: seq<Rule>, dir: Direction, p: Packet, i: nat, j: nat) {
    i < |rules| && Matches(rules[i], dir, p) && (id, j) in m.rules && Matches(m.rules[(id, j)], dir, p)
  }

  /** The last slot below `n` that lets the packet through. */
  lemma {:induction false} LastMatch(m: Maps, id: nat, dir: Direction, p: Packet, n: nat) returns (j: nat)
    requires SlotMatches(m, id, dir, p, n)
    ensures j < n && (id, j) in m.rules && Matches(m.rules[(id, j)], dir, p)
    ensures forall s: nat :: j < s < n && (id, s) in m.rules ==> !Matches(m.rules[(id, s)], dir, p)
  {
    if (id, n - 1) in m.rules && Matches(m.rules[(id, n - 1)], dir, p) {
      j := n - 1;
    } else {
      j := LastMatch(m, id, dir, p, n - 1);
    }
  }

  /** The slots the policy in force counts, at a point of the installation. */
  ghost function Limit(m: Maps, id: nat): nat
    requires id in m.policies
  {
    if m.policies[id].nrules < MAX_RULES then m.policies[id].nrules else MAX_RULES
  }

  lemma StillMatches(m: Maps, id: nat, rules: seq<Rule>, policy: Lease.Policy, dir: Direction, p: Packet,
                     i: nat, j: nat, at: Progress)
    requires id in m.policies && |rules| <= MAX_RULES && InRange(rules, at)
    requires BothMatch(m, id, rules, dir, p, i, j) && i <= j < Limit(m, id)
    ensures var s := Installed(m, id, rules, policy, at); SlotMatches(s, id, dir, p, Limit(s, id))
  {
    var s := Installed(m, id, rules, policy, at);
    if at.Adding? && at.k <= i {
      assert (id, j) in s.rules && s.rules[(id, j)] == m.rules[(id, j)];
    } else {
      assert (id, i) in s.rules && s.rules[(id, i)] == rules[i];
    }
  }

  /** After the new rules have replaced every old one that matches, and before any of theirs. */
  lemma GapBetween(m: Maps, id: nat, rules: seq<Rule>, policy: Lease.Policy, dir: Direction, p: Packet, j: nat)
    requires id in m.policies && j + 1 <= |rules| && j < Limit(m, id)
    requires forall s: nat :: j < s < Limit(m, id) && (id, s) in m.rules ==> !Matches(m.rules[(id, s)], dir, p)
    requires forall i: nat :: i <= j ==> !Matches(rules[i], dir, p)
    ensures var s := Installed(m, id, rules, policy, Adding(j + 1)); !SlotMatches(s, id, dir, p, Limit(s, id))
  {
    var s := Installed(m, id, rules, policy, Adding(j + 1));
    forall slot: nat | slot < Limit(s, id) && (id, slot) in s.rules
      ensures !Matches(s.rules[(id, slot)], dir, p)
    {
      if slot > j {
        assert (id, slot) in m.rules && s.rules[(id, slot)] == m.rules[(id, slot)];
      }
    }
  }

  /** A packet that the old rules and the new rules both let through passes at every point of
      the replacement, while the old policy polices it under a lease, if and only if some new
      rule that matches stands no later than some old one that does. */
  lemma ReplacementPassesExactly(m: Maps, id: nat, rules: seq<Rule>, policy: Lease.Policy, dir: Direction, p: Packet, now: nat)
    requires id in m.policies && |rules| <= MAX_RULES
    requires Policed(m.policies[id], dir) && !Loopback(p) && Lease.Denies(m.policies[id], Lease.NP_ENFORCE, now)
    requires SlotMatches(m, id, dir, p, Limit(m, id)) && exists i :: 0 <= i < |rules| && Matches(rules[i], dir, p)
    ensures (forall at: Progress :: InRange(rules, at) ==> Passes(Installed(m, id, rules, policy, at), id, dir, p, now))
       <==> exists i: nat, j: nat :: i <= j < Limit(m, id) && BothMatch(m, id, rules, dir, p, i, j)
  {
    if i: nat, j: nat :| i <= j < Limit(m, id) && BothMatch(m, id, rules, dir, p, i, j) {
      forall at: Progress | InRange(rules, at)
        ensures Passes(Installed(m, id, rules, policy, at), id, dir, p, now)
      {
        StillMatches(m, id, rules, policy, dir, p, i, j, at);
      }
    } else {
      var j := LastMatch(m, id, dir, p, Limit(m, id));
      var i: nat :| i < |rules| && Matches(rules[i], dir, p);
      assert BothMatch(m, id, rules, dir, p, i, j);
      assert forall l: nat :: l <= j && l < |rules| ==> (BothMatch(m, id, rules, dir, p, l, j) <==> Matches(rules[l], dir, p));
      GapBetween(m, id, rules, policy, dir, p, j);
      assert !Passes(Installed(m, id, rules, policy, Adding(j + 1)), id, dir, p, now);
    }
  }

  lemma SlotPasses(m: Maps, id: nat, dir: Direction, p: Packet, now: nat, slot: nat)
    requires id in m.policies && slot < Limit(m, id) && (id, slot) in m.rules && Matches(m.rules[(id, slot)], dir, p)
    ensures Passes(m, id, dir, p, now)
  {
  }

  /** Two rules in place. */
  ghost function Pair(a: Rule, b: Rule, policy: Lease.Policy): Maps {
    Maps(map[7 := policy.(nrules := 2)], map[(7, 0) := a, (7, 1) := b])
  }

  lemma SwapEnds(a: Rule, b: Rule, policy: Lease.Policy, dir: Direction, p: Packet, now: nat)
    requires Matches(a, dir, p)
    ensures Passes(Pair(a, b, policy), 7, dir, p, now)
    ensures Passes(Installed(Pair(a, b, policy), 7, [b, a], policy, Done({})), 7, dir, p, now)
  {
    var m := Pair(a, b, policy);
    SlotPasses(m, 7, dir, p, now, 0);
    InstalledHolds(m, 7, [b, a], policy, {});
    SlotPasses(Installed(m, 7, [b, a], policy, Done({})), 7, dir, p, now, 1);
  }

  lemma SwapGap(a: Rule, b: Rule, policy: Lease.Policy, dir: Direction, p: Packet)
    requires !Matches(b, dir, p)
    ensures !SlotMatches(Installed(Pair(a, b, policy), 7, [b, a], policy, Adding(1)), 7, dir, p, 2)
  {
    GapBetween(Pair(a, b, policy), 7, [b, a], policy, dir, p, 0);
  }

  /** Two rules change places: a packet that only the first lets through is dropped in between. */
  lemma SwapDrops(a: Rule, b: Rule, policy: Lease.Policy, dir: Direction, p: Packet, now: nat)
    requires Matches(a, dir, p) && !Matches(b, dir, p)
    requires Policed(policy, dir) && !Loopback(p) && Lease.Denies(policy, Lease.NP_ENFORCE, now)
    ensures var m := Pair(a, b, policy);
            && Passes(m, 7, dir, p, now) && !Passes(Installed(m, 7, [b, a], policy, Adding(1)), 7, dir, p, now)
            && Passes(Installed(m, 7, [b, a], policy, Done({})), 7, dir, p, now)
  {
    SwapEnds(a, b, policy, dir, p, now);
    SwapGap(a, b, policy, dir, p);
    SamePolicy(policy, 2, dir, p, false, now);
  }
}
