/** When a channel is registered and subscribed, and what one tick writes, over every
    interleaving (src/agent/state.rs, src/agent/heartbeat.rs). */
module ChannelTerms {
  import opened Channels

  // ---- Subscribed -------------------------------------------------------------------

  /** Step `j` ends a subscription: the channel unsubscribes, or a notification to it fails. */
  ghost predicate Drops(tr: seq<Action>, j: nat, id: nat)
    requires Run(tr) && j < |tr|
  {
    tr[j] == Unsubscribe(id) || (tr[j] == Push(false) && Target(tr, j) == id)
  }

  /** Step `j` begins one: a push-capable channel asks for heartbeats. */
  ghost predicate Takes(tr: seq<Action>, j: nat, id: nat)
    requires Run(tr) && j < |tr|
  {
    tr[j] == Subscribe(id, true) && AskedBy(tr, j).pushCapable
  }

  ghost predicate SubscribedAt(tr: seq<Action>, k: nat, id: nat)
    requires Run(tr) && k <= |tr|
  {
    id in Before(tr, k).channels && Before(tr, k).channels[id].subscribed
  }

  lemma SubscriptionStep(tr: seq<Action>, k: nat, id: nat)
    requires Run(tr) && k < |tr|
    ensures SubscribedAt(tr, k + 1, id) <==> Takes(tr, k, id) || (SubscribedAt(tr, k, id) && !Drops(tr, k, id))
  {
    StepAt(tr, k);
  }

  /** Step `a` subscribed the channel, and no step since, up to `k`, dropped it. */
  ghost predicate Since(tr: seq<Action>, a: nat, k: nat, id: nat)
    requires Run(tr) && k <= |tr|
  {
    a < k && Takes(tr, a, id) && forall j :: a < j < k ==> !Drops(tr, j, id)
  }

  /** A channel is subscribed if and only if it was push-capable when it asked for heartbeats, and
      has neither unsubscribed nor failed a notification since. */
  lemma {:induction false} SubscribedExactly(tr: seq<Action>, k: nat, id: nat)
    requires Run(tr) && k <= |tr|
    ensures SubscribedAt(tr, k, id) <==> exists a: nat :: Since(tr, a, k, id)
  {
    if k == 0 {
      assert tr[..0] == [];
    } else {
      SubscribedExactly(tr, k - 1, id);
      SubscriptionStep(tr, k - 1, id);
      if SubscribedAt(tr, k, id) {
        if Takes(tr, k - 1, id) {
          assert Since(tr, k - 1, k, id);
        } else {
          var a: nat :| Since(tr, a, k - 1, id);
          assert Since(tr, a, k, id);
        }
      }
      if a: nat :| Since(tr, a, k, id) {
        if a < k - 1 {
          assert Since(tr, a, k - 1, id);
        }
      }
    }
  }

  // ---- Registered ------------------------------------------------------------------------

  ghost predicate RegisteredAt(tr: seq<Action>, k: nat, id: nat)
    requires Run(tr) && k <= |tr|
  {
    id in Before(tr, k).registered
  }

  /** Step `o` opened the channel, and no answer on it has failed since. */
  ghost predicate OpenSince(tr: seq<Action>, o: nat, k: nat, id: nat)
    requires k <= |tr|
  {
    o < k && tr[o].Open? && tr[o].id == id && forall j :: o < j < k ==> tr[j] != WriteFails(id)
  }

  lemma RegistrationStep(tr: seq<Action>, k: nat, id: nat)
    requires Run(tr) && k < |tr|
    ensures RegisteredAt(tr, k + 1, id) <==> (tr[k].Open? && tr[k].id == id) || (RegisteredAt(tr, k, id) && tr[k] != WriteFails(id))
  {
    StepAt(tr, k);
    if tr[k].WriteFails? {
      WithoutKeeps(Before(tr, k).registered, tr[k].id);
    }
  }

  /** A channel is registered if and only if it was opened and no answer on it has failed since. */
  lemma {:induction false} RegisteredExactly(tr: seq<Action>, k: nat, id: nat)
    requires Run(tr) && k <= |tr|
    ensures RegisteredAt(tr, k, id) <==> exists o: nat :: OpenSince(tr, o, k, id)
  {
    if k == 0 {
      assert tr[..0] == [];
    } else {
      RegisteredExactly(tr, k - 1, id);
      RegistrationStep(tr, k - 1, id);
      if RegisteredAt(tr, k, id) {
        if tr[k - 1].Open? && tr[k - 1].id == id {
          assert OpenSince(tr, k - 1, k, id);
        } else {
          var o: nat :| OpenSince(tr, o, k - 1, id);
          assert OpenSince(tr, o, k, id);
        }
      }
      if o: nat :| OpenSince(tr, o, k, id) {
        if o < k - 1 {
          assert OpenSince(tr, o, k - 1, id);
        }
      }
    }
  }

  // ---- One tick ------------------------------------------------------------------------------

  /** The notifications written at steps `lo..hi`. */
  ghost function Pushes(tr: seq<Action>, lo: nat, hi: nat): nat
    requires lo <= hi <= |tr|
  {
    if lo == hi then 0 else Pushes(tr, lo, hi - 1) + (if tr[hi - 1].Push? then 1 else 0)
  }

  /** The tick that took its snapshot at step `s` still goes on at step `k`. */
  ghost predicate SameTick(tr: seq<Action>, s: nat, k: nat) {
    s < k <= |tr| && tr[s].Snapshot? && forall j :: s < j < k ==> !tr[j].Snapshot? && !tr[j].Skip?
  }

  /** Within a tick, only notifications shorten what is left to write. */
  lemma PendingStep(s: State, a: Action)
    requires Enabled(s, a) && !a.Snapshot? && !a.Skip?
    ensures Step(s, a).pending == if a.Push? then s.pending[1..] else s.pending
  {
  }

  ghost predicate RestAt(tr: seq<Action>, s: nat, k: nat)
    requires Run(tr) && SameTick(tr, s, k)
  {
    var all, n := Subscribers(Before(tr, s).channels, Before(tr, s).registered), Pushes(tr, s + 1, k);
    n <= |all| && Before(tr, k).pending == all[n..]
  }

  lemma DropOne<T>(all: seq<T>, n: nat)
    requires n < |all|
    ensures all[n..] != [] && all[n..][1..] == all[n + 1..]
  {
  }

  lemma RestStep(tr: seq<Action>, s: nat, k: nat)
    requires Run(tr) && s + 1 < k && SameTick(tr, s, k) && RestAt(tr, s, k - 1)
    ensures RestAt(tr, s, k)
  {
    var all, n := Subscribers(Before(tr, s).channels, Before(tr, s).registered), Pushes(tr, s + 1, k - 1);
    StepAt(tr, k - 1);
    PendingStep(Before(tr, k - 1), tr[k - 1]);
    if tr[k - 1].Push? {
      assert n < |all|;
      DropOne(all, n);
    }
  }

  lemma {:induction false} PendingIsRest(tr: seq<Action>, s: nat, k: nat)
    requires Run(tr) && SameTick(tr, s, k)
    ensures RestAt(tr, s, k)
    decreases k
  {
    if k == s + 1 {
      StepAt(tr, s);
    } else {
      PendingIsRest(tr, s, k - 1);
      RestStep(tr, s, k);
    }
  }

  /** In every interleaving a tick writes to the channels that were registered and subscribed at
      its snapshot, in the order of their registration, each in its turn. */
  lemma TickInOrder(tr: seq<Action>, s: nat, p: nat)
    requires Run(tr) && p < |tr| && tr[p].Push? && SameTick(tr, s, p)
    ensures var all, n := Subscribers(Before(tr, s).channels, Before(tr, s).registered), Pushes(tr, s + 1, p);
            n < |all| && Target(tr, p) == all[n]
  {
    PendingIsRest(tr, s, p);
    StepAt(tr, p);
  }

  /** The last channel registered is the last to be notified, if it is subscribed. */
  lemma {:induction false} SubscribersSnoc(channels: map<nat, Channel>, ids: seq<nat>, id: nat)
    ensures Subscribers(channels, ids + [id])
         == Subscribers(channels, ids) + if id in channels && channels[id].subscribed then [id] else []
  {
    if ids == [] {
      assert [] + [id] == [id] && [id][1..] == [];
    } else {
      assert (ids + [id])[1..] == ids[1..] + [id];
      SubscribersSnoc(channels, ids[1..], id);
    }
  }

  /** A tick that has nothing left to write is over, and one that is skipped writes nothing more. */
  lemma SkipEndsTick(tr: seq<Action>, k: nat)
    requires Run(tr) && k < |tr| && tr[k].Skip?
    ensures Before(tr, k + 1).pending == []
  {
    StepAt(tr, k);
  }

  /** In every reachable state the agent can go on: a request on an open channel, a channel that
      is not open yet, a skipped tick, and either the next notification or a new tick. */
  lemma CanGoOn(tr: seq<Action>, id: nat, plan: Plan, b: bool)
    requires Run(tr)
    ensures var s := After(tr);
            && (if id in s.channels then Enabled(s, Subscribe(id, b)) && Enabled(s, Unsubscribe(id)) && Enabled(s, WriteFails(id))
                else Enabled(s, Open(id, plan)))
            && Enabled(s, Skip) && Enabled(s, if s.pending == [] then Snapshot else Push(b))
  {
    InvHolds(tr, |tr|);
    assert tr[..|tr|] == tr;
  }
}
