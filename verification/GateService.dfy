/** The replay cache and the request handler as the agent runs them
    (src/agent/state.rs, src/agent/handler.rs), tied to the gate's steps. */
module GateService {
  import opened Wrappers
  import opened Rpc
  import opened ReplayWindow
  import opened Sequences
  import opened Gate

  class ReplayCache {
    var nonceOrder: seq<string>
    var nonces: set<string>
    var idempotent: map<string, Stored>

    ghost predicate Valid()
      reads this
    {
      Distinct(nonceOrder) && nonces == Elements(nonceOrder)
    }

    constructor ()
      ensures Valid() && nonceOrder == [] && idempotent == map[]
    {
      nonceOrder, nonces, idempotent := [], {}, map[];
    }

    method NonceFresh(nonce: string, cap: nat) returns (isNew: bool)
      requires Valid()
      modifies this`nonceOrder, this`nonces
      ensures Valid()
      ensures isNew == (nonce !in old(nonceOrder))
      ensures nonceOrder == Admit(old(nonceOrder), nonce, cap)
    {
      if nonce in nonces {
        return false;
      }
      nonces := nonces + {nonce};
      nonceOrder := nonceOrder + [nonce];
      ghost var full := nonceOrder;
      while |nonceOrder| > Width(cap)
        invariant Valid()
        invariant nonceOrder == LastOf(full, |nonceOrder|)
        invariant |nonceOrder| == |full| || Width(cap) <= |nonceOrder| < |full|
      {
        var oldest := nonceOrder[0];
        nonceOrder := nonceOrder[1..];
        nonces := nonces - {oldest};
      }
      return true;
    }

    method IdempotentGet(key: string, now: int) returns (hit: Option<Response>)
      modifies this`idempotent
      ensures idempotent == Live(old(idempotent), now)
      ensures hit == if key in idempotent then Some(idempotent[key].resp) else None
    {
      idempotent := map k | k in idempotent && now - idempotent[k].at < TTL :: idempotent[k];
      hit := if key in idempotent then Some(idempotent[key].resp) else None;
    }

    method IdempotentStore(key: string, resp: Response, now: int)
      modifies this`idempotent
      ensures idempotent == old(idempotent)[key := Stored(now, resp)]
    {
      idempotent := idempotent[key := Stored(now, resp)];
    }
  }

  /** What the outside supplies while one request is served: the arrival
      reads, the effect's outcome and the two monotonic clock readings. */
  datatype Surroundings = Surroundings(arrival: Arrival, outcome: Outcome, lookupAt: int, storeAt: int)

  /** Steps taken one after the other, each if the request is at that point. */
  function TryAll(s: State, actions: seq<Action>): State
    decreases |actions|
  {
    if actions == [] then s else TryAll(TryStep(s, actions[0]), actions[1..])
  }

  /** What may follow once request `rid` has begun. */
  function Rest(rid: nat, env: Surroundings): seq<Action> {
    [TakeNonce(rid), Lookup(rid, env.lookupAt), Finish(rid, env.outcome, env.storeAt)]
  }

  /** The steps of one request, none of another's in between. */
  function Serve(s: State, rid: nat, frame: Frame, env: Surroundings): State
    requires rid !in s.pcs
  {
    TryAll(Step(s, Begin(rid, frame, env.arrival)), Rest(rid, env))
  }

  lemma TryRest(s: State, rid: nat, env: Surroundings)
    ensures TryAll(s, Rest(rid, env))
         == TryStep(TryStep(TryStep(s, TakeNonce(rid)), Lookup(rid, env.lookupAt)), Finish(rid, env.outcome, env.storeAt))
  {
    ThreeTries(s, TakeNonce(rid), Lookup(rid, env.lookupAt), Finish(rid, env.outcome, env.storeAt));
  }

  lemma OneTry(s: State, a: Action, rest: seq<Action>)
    ensures TryAll(s, [a] + rest) == TryAll(TryStep(s, a), rest)
  {
    assert ([a] + rest)[1..] == rest;
  }

  lemma ThreeTries(s: State, a: Action, b: Action, c: Action)
    ensures TryAll(s, [a, b, c]) == TryStep(TryStep(TryStep(s, a), b), c)
  {
    OneTry(s, a, [b, c]);
    OneTry(TryStep(s, a), b, [c]);
    OneTry(TryStep(TryStep(s, a), b), c, []);
    assert [c] + [] == [c] && [b] + [c] == [b, c] && [a] + [b, c] == [a, b, c];
  }

  lemma TryOnly(s: State, a: Action)
    requires a.rid in s.pcs
    ensures var r := TryStep(s, a); a.rid in r.pcs && r.pcs == s.pcs[a.rid := r.pcs[a.rid]]
  {
  }

  lemma TryPasses(s: State, rid: nat, env: Surroundings)
    requires rid in s.pcs
    ensures !TryStep(s, TakeNonce(rid)).pcs[rid].Gated?
    ensures !s.pcs[rid].Gated? ==>
              var r := TryStep(s, Lookup(rid, env.lookupAt)); !r.pcs[rid].Gated? && !r.pcs[rid].Nonced?
    ensures !s.pcs[rid].Gated? && !s.pcs[rid].Nonced? ==>
              TryStep(s, Finish(rid, env.outcome, env.storeAt)).pcs[rid].Replied?
  {
  }

  /** Served, a request has its answer and no other request has moved. */
  lemma ServeAnswers(s: State, rid: nat, frame: Frame, env: Surroundings)
    requires rid !in s.pcs
    ensures var r := Serve(s, rid, frame, env);
            rid in r.pcs && r.pcs[rid].Replied? && r.pcs == s.pcs[rid := r.pcs[rid]]
  {
    var s1 := Step(s, Begin(rid, frame, env.arrival));
    assert rid in s1.pcs && s1.pcs == s.pcs[rid := s1.pcs[rid]];
    AnswersOnceBegun(s1, rid, env);
  }

  lemma AnswersOnceBegun(s1: State, rid: nat, env: Surroundings)
    requires rid in s1.pcs
    ensures var r := TryAll(s1, Rest(rid, env));
            rid in r.pcs && r.pcs[rid].Replied? && r.pcs == s1.pcs[rid := r.pcs[rid]]
  {
    TryRest(s1, rid, env);
    var a2, a3, a4 := TakeNonce(rid), Lookup(rid, env.lookupAt), Finish(rid, env.outcome, env.storeAt);
    var s2 := TryStep(s1, a2);
    TryOnly(s1, a2);
    TryPasses(s1, rid, env);
    var s3 := TryStep(s2, a3);
    TryOnly(s2, a3);
    TryPasses(s2, rid, env);
    TryOnly(s3, a4);
    TryPasses(s3, rid, env);
  }

  lemma TryExtendsRun(tr: seq<Action>, s: State, a: Action) returns (longer: seq<Action>)
    requires Run(tr) && After(tr) == s
    ensures Run(longer) && After(longer) == TryStep(s, a)
    ensures longer == tr || longer == tr + [a]
  {
    longer := tr;
    if Enabled(s, a) {
      longer := Grow(tr, s, a);
    }
  }

  lemma {:induction false} TryAllExtendsRun(tr: seq<Action>, s: State, rid: nat, actions: seq<Action>) returns (longer: seq<Action>)
    requires Run(tr) && After(tr) == s && forall a :: a in actions ==> a.rid == rid
    ensures Run(longer) && After(longer) == TryAll(s, actions)
    ensures tr <= longer && forall k :: |tr| <= k < |longer| ==> longer[k].rid == rid
    decreases actions
  {
    longer := tr;
    if actions != [] {
      var more := TryExtendsRun(tr, s, actions[0]);
      longer := TryAllExtendsRun(more, TryStep(s, actions[0]), rid, actions[1..]);
    }
  }

  /** Serving a request serially extends a run, so every theorem about runs applies. */
  lemma ServeExtendsRun(tr: seq<Action>, rid: nat, frame: Frame, env: Surroundings) returns (longer: seq<Action>)
    requires Run(tr) && rid !in After(tr).pcs
    ensures Run(longer) && After(longer) == Serve(After(tr), rid, frame, env)
    ensures tr <= longer && forall k :: |tr| <= k < |longer| ==> longer[k].rid == rid
  {
    var begin := Begin(rid, frame, env.arrival);
    var begun := Grow(tr, After(tr), begin);
    longer := TryAllExtendsRun(begun, Step(After(tr), begin), rid, Rest(rid, env));
  }

  class RequestHandler {
    const cache: ReplayCache

    constructor (cache: ReplayCache)
      ensures this.cache == cache
    {
      this.cache := cache;
    }

    ghost function Snapshot(): State
      reads cache
    {
      State(cache.nonceOrder, cache.idempotent, map[])
    }

    /** `enforce_security` after the expiry check: a cached answer, a
        rejection, or nothing when the request may run. */
    method EnforceReplay(req: Request, sec: Security, lookupAt: int) returns (verdict: Option<Response>)
      requires cache.Valid()
      modifies cache
      ensures cache.Valid()
      ensures var s2 := TryStep(old(Snapshot()).(pcs := map[0 := Gated(req, sec)]), TakeNonce(0));
              var s3 := TryStep(s2, Lookup(0, lookupAt));
              && cache.nonceOrder == s3.order && cache.idempotent == s3.idem
              && s3.pcs[0] == if verdict.Some? then Replied(verdict.value) else Running(req)
    {
      if req.nonce.Some? {
        var isNew := cache.NonceFresh(req.nonce.value, sec.nonceCacheSize);
        if !isNew {
          return Some(Failure(req.id, ReplayDetected));
        }
      }
      if req.idempotencyKey.Some? {
        var hit := cache.IdempotentGet(req.idempotencyKey.value, lookupAt);
        if hit.Some? {
          return Some(hit.value.(id := req.id));
        }
      }
      return None;
    }

    /** `handle_on`, with the effect behind `dispatch` given by its outcome. */
    method HandleOn(frame: Frame, env: Surroundings) returns (resp: Response)
      requires cache.Valid()
      modifies cache
      ensures cache.Valid()
      ensures var served := Serve(old(Snapshot()), 0, frame, env);
              && cache.nonceOrder == served.order && cache.idempotent == served.idem
              && 0 in served.pcs && served.pcs[0] == Replied(resp)
    {
      ghost var begun := Step(Snapshot(), Begin(0, frame, env.arrival));
      TryRest(begun, 0, env);
      match Decide(frame, env.arrival)
      case Refused(refusal) =>
        resp := refusal;
      case ReadsOnly =>
        resp := Reply(frame.req, env.outcome);
      case Mutates =>
        var req := frame.req;
        var verdict := EnforceReplay(req, env.arrival.security, env.lookupAt);
        if verdict.Some? {
          return verdict.value;
        }
        resp := Reply(req, env.outcome);
        if req.idempotencyKey.Some? && resp.error.None? {
          cache.IdempotentStore(req.idempotencyKey.value, resp, env.storeAt);
        }
    }
  }
}
