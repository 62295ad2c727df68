/** Channel handles and the daemon's registry as shared, mutable objects
    (src/agent/state.rs, src/agent/handler.rs, src/agent/heartbeat.rs). */
module ChannelRegistry {
  import opened Channels

  class ChannelHandle {
    const plan: Plan
    var subscribed: bool

    constructor (plan: Plan)
      ensures this.plan == plan && !subscribed
    {
      this.plan := plan;
      subscribed := false;
    }
  }

  /** The handles of `channels` that are subscribed, in order. */
  function SubscribedOf(channels: seq<ChannelHandle>): (r: seq<ChannelHandle>)
    reads channels
    ensures forall c :: c in r ==> c in channels && c.subscribed
    ensures forall c :: c in channels && c.subscribed ==> c in r
  {
    if channels == [] then []
    else (if channels[0].subscribed then [channels[0]] else []) + SubscribedOf(channels[1..])
  }

  /** Every handle but one, compared by identity. */
  method Retain(channels: seq<ChannelHandle>, c: ChannelHandle) returns (kept: seq<ChannelHandle>)
    ensures kept == Without(channels, c)
  {
    kept := [];
    var i := |channels|;
    assert channels[i..] == [];
    while i > 0
      invariant 0 <= i <= |channels| && kept == Without(channels[i..], c)
    {
      i := i - 1;
      assert channels[i..][1..] == channels[i + 1..];
      if channels[i] != c {
        kept := [channels[i]] + kept;
      }
    }
    assert channels[0..] == channels;
  }

  class Registry {
    var channels: seq<ChannelHandle>

    /** Push stays impossible on channels that are not push-capable. */
    ghost predicate Valid()
      reads this, channels
    {
      forall c :: c in channels && c.subscribed ==> c.plan.pushCapable
    }

    constructor ()
      ensures Valid() && channels == []
    {
      channels := [];
    }

    method Register(c: ChannelHandle)
      requires Valid() && (c.subscribed ==> c.plan.pushCapable)
      modifies this
      ensures Valid() && channels == old(channels) + [c]
    {
      channels := channels + [c];
    }

    /** `retain` by identity: every handle but this one, in order. */
    method Unregister(c: ChannelHandle)
      requires Valid()
      modifies this
      ensures Valid() && channels == Without(old(channels), c)
    {
      var kept := Retain(channels, c);
      WithoutKeeps(channels, c);
      forall h | h in kept
        ensures h in channels
      {
        assert h in Without(channels, c);
      }
      channels := kept;
    }

    /** `subscribe_events`; a request that did not come over a channel has none. */
    method SubscribeEvents(c: ChannelHandle?, heartbeat: bool) returns (ok: bool)
      requires Valid()
      modifies c
      ensures Valid()
      ensures ok <==> c != null && c.plan.pushCapable && heartbeat
      ensures c != null ==> c.subscribed == (ok || old(c.subscribed))
    {
      if c == null || !c.plan.pushCapable || !heartbeat {
        return false;
      }
      c.subscribed := true;
      return true;
    }

    method UnsubscribeEvents(c: ChannelHandle?)
      requires Valid()
      modifies c
      ensures Valid() && (c != null ==> !c.subscribed)
    {
      if c != null {
        c.subscribed := false;
      }
    }

    /** One heartbeat tick with nothing in between: every subscriber of the
        snapshot is written to once, in order; those whose write fails, and no
        others, are unsubscribed. `failing` are the channels whose writes fail. */
    method Tick(failing: set<ChannelHandle>) returns (written: seq<ChannelHandle>)
      requires Valid()
      modifies channels
      ensures Valid() && channels == old(channels)
      ensures written == old(SubscribedOf(channels))
      ensures forall c :: c in written ==> c.plan.pushCapable
      ensures forall c :: c in channels ==> c.subscribed == (old(c.subscribed) && c !in failing)
    {
      var snapshot := SubscribedOf(channels);
      written := [];
      for i := 0 to |snapshot|
        invariant written == snapshot[..i]
        invariant forall c :: c in channels ==> c.subscribed == (old(c.subscribed) && !(c in failing && c in snapshot[..i]))
      {
        var c := snapshot[i];
        written := written + [c];
        if c in failing {
          c.subscribed := false;
        }
        assert snapshot[..i + 1] == snapshot[..i] + [c];
      }
      assert snapshot[..|snapshot|] == snapshot;
    }
  }
}
