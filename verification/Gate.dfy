/** The request gate (src/agent/handler.rs) over the shared replay cache.

    Requests on different channels run concurrently. Each one is a short
    sequence of atomic steps on the cache, because the cache's lock is held
    per call and not across the request:

      Begin      parse, validate, authorise, check expiry
      TakeNonce  `nonce_fresh`
      Lookup     `idempotent_get`
      Finish     dispatch and, for a success with a key, `idempotent_store`

    A run is any interleaving of such steps. */
module Gate {
  import opened Wrappers
  import opened Rpc
  import opened ReplayWindow

  /** `IDEMPOTENCY_TTL`, in nanoseconds. */
  const TTL: nat := 600_000_000_000

  const TWO_63: int := 0x8000_0000_0000_0000
  const TWO_64: int := 0x1_0000_0000_0000_0000

  /** `x as i64` for a `u64`. */
  function AsI64(x: nat): int {
    var low := x % TWO_64;
    if low < TWO_63 then low else low - TWO_64
  }

  function Min(a: nat, b: nat): nat {
    if a < b then a else b
  }

  function EffectiveTtl(req: Request, sec: Security): nat {
    match req.ttlMs
    case None => sec.maxTtlMs
    case Some(ttl) => Min(ttl, sec.maxTtlMs)
  }

  /** The expiry branch of `enforce_security`; `now` is the wall clock in nanoseconds. */
  function ExpiryError(req: Request, sec: Security, now: int): Option<ErrorCode> {
    match req.ts
    case Some(Malformed) => Some(InvalidRequest)
    case Some(At(issued)) =>
      if now > issued + AsI64(EffectiveTtl(req, sec)) * 1_000_000 then Some(RequestExpired) else None
    case None => if sec.requireExpiry then Some(RequestExpired) else None
  }

  /** What a request reads from outside when it arrives: the policy file (read
      once to authorise and again to enforce), the glob matcher and the wall clock. */
  datatype Arrival = Arrival(policy: Policy, matches: (string, string) -> bool, security: Security, now: int)

  datatype Admission = Refused(resp: Response) | Mutates | ReadsOnly

  function Decide(frame: Frame, env: Arrival): Admission {
    match frame
    case NotJson => Refused(Failure(None, ParseError))
    case Parsed(req) =>
      if req.jsonrpc != "2.0" || req.wireName == "" then Refused(Failure(req.id, InvalidRequest))
      else if !req.op.Negotiation() && !Authorized(env.policy, env.matches, req.op, req.wireName) then
        Refused(Failure(req.id, PolicyDenied))
      else if !req.op.Mutating() then ReadsOnly
      else
        match ExpiryError(req, env.security, env.now)
        case Some(code) => Refused(Failure(req.id, code))
        case None => Mutates
  }

  datatype Stored = Stored(at: int, resp: Response)

  /** Where a request stands. */
  datatype Pc =
    | Gated(req: Request, sec: Security)
    | Nonced(req: Request)
    | Running(req: Request)
    | Replied(resp: Response)

  datatype State = State(order: seq<string>, idem: map<string, Stored>, pcs: map<nat, Pc>)

  const Initial := State([], map[], map[])

  /** The effect behind a method is abstract: it returns a value or an error. */
  datatype Outcome = Value(v: Json) | Error(code: ErrorCode)

  function Reply(req: Request, outcome: Outcome): Response {
    match outcome
    case Value(v) => Success(req.id, v)
    case Error(code) => Failure(req.id, code)
  }

  datatype Action =
    | Begin(rid: nat, frame: Frame, env: Arrival)
    | TakeNonce(rid: nat)
    | Lookup(rid: nat, at: int)
    | Finish(rid: nat, outcome: Outcome, at: int)

  predicate Enabled(s: State, a: Action) {
    match a
    case Begin(rid, _, _) => rid !in s.pcs
    case TakeNonce(rid) => rid in s.pcs && s.pcs[rid].Gated?
    case Lookup(rid, _) => rid in s.pcs && s.pcs[rid].Nonced?
    case Finish(rid, _, _) => rid in s.pcs && s.pcs[rid].Running?
  }

  function Live(idem: map<string, Stored>, now: int): map<string, Stored> {
    map k | k in idem && now - idem[k].at < TTL :: idem[k]
  }

  predicate Stores(req: Request, outcome: Outcome) {
    req.op.Mutating() && req.idempotencyKey.Some? && outcome.Value?
  }

  function Step(s: State, a: Action): State
    requires Enabled(s, a)
  {
    match a
    case Begin(rid, frame, env) =>
      (match Decide(frame, env)
       case Refused(resp) => s.(pcs := s.pcs[rid := Replied(resp)])
       case Mutates => s.(pcs := s.pcs[rid := Gated(frame.req, env.security)])
       case ReadsOnly => s.(pcs := s.pcs[rid := Running(frame.req)]))
    case TakeNonce(rid) =>
      var Gated(req, sec) := s.pcs[rid];
      (match req.nonce
       case None => s.(pcs := s.pcs[rid := Nonced(req)])
       case Some(n) =>
         if n in s.order then s.(pcs := s.pcs[rid := Replied(Failure(req.id, ReplayDetected))])
         else s.(order := Admit(s.order, n, sec.nonceCacheSize), pcs := s.pcs[rid := Nonced(req)]))
    case Lookup(rid, at) =>
      var req := s.pcs[rid].req;
      (match req.idempotencyKey
       case None => s.(pcs := s.pcs[rid := Running(req)])
       case Some(key) =>
         var live := Live(s.idem, at);
         if key in live then
           s.(idem := live, pcs := s.pcs[rid := Replied(live[key].resp.(id := req.id))])
         else s.(idem := live, pcs := s.pcs[rid := Running(req)]))
    case Finish(rid, outcome, at) =>
      var req := s.pcs[rid].req;
      var resp := Reply(req, outcome);
      var idem := if Stores(req, outcome) then s.idem[req.idempotencyKey.value := Stored(at, resp)] else s.idem;
      s.(idem := idem, pcs := s.pcs[rid := Replied(resp)])
  }

  /** Takes the step if the request is at that point, and otherwise passes it by. */
  function TryStep(s: State, a: Action): State {
    if Enabled(s, a) then Step(s, a) else s
  }

  // ---- Runs ---------------------------------------------------------------

  ghost predicate Run(tr: seq<Action>)
    decreases |tr|, 0
  {
    tr == [] || (Run(tr[..|tr| - 1]) && Enabled(After(tr[..|tr| - 1]), tr[|tr| - 1]))
  }

  ghost function After(tr: seq<Action>): State
    requires Run(tr)
    decreases |tr|, 1
  {
    if tr == [] then Initial else Step(After(tr[..|tr| - 1]), tr[|tr| - 1])
  }

  lemma {:induction false} RunPrefix(tr: seq<Action>, k: nat)
    requires Run(tr) && k <= |tr|
    ensures Run(tr[..k])
  {
    if k < |tr| {
      RunPrefix(tr[..|tr| - 1], k);
      assert tr[..|tr| - 1][..k] == tr[..k];
    } else {
      assert tr[..k] == tr;
    }
  }

  lemma Grow(tr: seq<Action>, s: State, a: Action) returns (longer: seq<Action>)
    requires Run(tr) && After(tr) == s && Enabled(s, a)
    ensures longer == tr + [a] && Run(longer) && After(longer) == Step(s, a)
  {
    longer := tr + [a];
    assert longer[..|tr|] == tr;
  }

  /** The state in which step `k` is taken. */
  ghost function Before(tr: seq<Action>, k: nat): State
    requires Run(tr) && k <= |tr|
  {
    RunPrefix(tr, k);
    After(tr[..k])
  }

  lemma StepAt(tr: seq<Action>, k: nat)
    requires Run(tr) && k < |tr|
    ensures Enabled(Before(tr, k), tr[k])
    ensures Before(tr, k + 1) == Step(Before(tr, k), tr[k])
  {
    RunPrefix(tr, k);
    RunPrefix(tr, k + 1);
    assert tr[..k + 1][..k] == tr[..k];
  }

  /** The request taking step `k` (not a `Begin`). */
  ghost function RequestAt(tr: seq<Action>, k: nat): Request
    requires Run(tr) && k < |tr| && !tr[k].Begin?
  {
    StepAt(tr, k);
    var pc := Before(tr, k).pcs[tr[k].rid];
    pc.req
  }

  // ---- The life of one request -------------------------------------------

  /** Request `rid` was let through at step `b`. */
  ghost predicate AdmittedAt(tr: seq<Action>, b: nat, rid: nat, req: Request, sec: Security)
    requires b < |tr|
  {
    && tr[b].Begin? && tr[b].rid == rid && tr[b].frame == Parsed(req) && tr[b].env.security == sec
    && Decide(tr[b].frame, tr[b].env).Mutates?
  }

  /** Step `t` passed the nonce check for `req`. */
  ghost predicate NonceAt(tr: seq<Action>, t: nat, rid: nat, req: Request)
    requires Run(tr) && t < |tr|
  {
    && tr[t] == TakeNonce(rid) && RequestAt(tr, t) == req
    && (req.nonce.Some? ==> req.nonce.value !in Before(tr, t).order)
  }

  /** Step `l` looked up the key of `req` and found nothing. */
  ghost predicate MissAt(tr: seq<Action>, l: nat, rid: nat, req: Request)
    requires Run(tr) && l < |tr|
  {
    && tr[l].Lookup? && tr[l].rid == rid && RequestAt(tr, l) == req
    && (req.idempotencyKey.Some? ==> req.idempotencyKey.value !in Live(Before(tr, l).idem, tr[l].at))
  }

  lemma {:induction false} GatedHistory(tr: seq<Action>, k: nat, rid: nat) returns (b: nat)
    requires Run(tr) && k <= |tr| && rid in Before(tr, k).pcs && Before(tr, k).pcs[rid].Gated?
    ensures b < k && AdmittedAt(tr, b, rid, Before(tr, k).pcs[rid].req, Before(tr, k).pcs[rid].sec)
  {
    assert k > 0;
    StepAt(tr, k - 1);
    if tr[k - 1].rid == rid {
      b := k - 1;
    } else {
      b := GatedHistory(tr, k - 1, rid);
    }
  }

  /** How a request came to be past its nonce, or past its lookup. */
  lemma CameHere(s: State, a: Action, rid: nat)
    requires Enabled(s, a) && rid in Step(s, a).pcs
    ensures a.rid != rid ==> rid in s.pcs && s.pcs[rid] == Step(s, a).pcs[rid]
    ensures a.rid == rid && Step(s, a).pcs[rid].Nonced? ==>
              var req := Step(s, a).pcs[rid].req;
              && a == TakeNonce(rid) && s.pcs[rid].req == req && (req.nonce.Some? ==> req.nonce.value !in s.order)
    ensures a.rid == rid && Step(s, a).pcs[rid].Running? && Step(s, a).pcs[rid].req.op.Mutating() ==>
              var req := Step(s, a).pcs[rid].req;
              && a.Lookup? && s.pcs[rid].req == req
              && (req.idempotencyKey.Some? ==> req.idempotencyKey.value !in Live(s.idem, a.at))
  {
  }

  lemma {:induction false} NoncedHistory(tr: seq<Action>, k: nat, rid: nat) returns (t: nat)
    requires Run(tr) && k <= |tr| && rid in Before(tr, k).pcs && Before(tr, k).pcs[rid].Nonced?
    ensures t < k && NonceAt(tr, t, rid, Before(tr, k).pcs[rid].req)
  {
    assert tr[..0] == [];
    StepAt(tr, k - 1);
    CameHere(Before(tr, k - 1), tr[k - 1], rid);
    if tr[k - 1].rid == rid {
      t := k - 1;
    } else {
      t := NoncedHistory(tr, k - 1, rid);
    }
  }

  lemma {:induction false} RunningHistory(tr: seq<Action>, k: nat, rid: nat) returns (l: nat)
    requires Run(tr) && k <= |tr| && rid in Before(tr, k).pcs && Before(tr, k).pcs[rid].Running?
    requires Before(tr, k).pcs[rid].req.op.Mutating()
    ensures l < k && MissAt(tr, l, rid, Before(tr, k).pcs[rid].req)
  {
    assert tr[..0] == [];
    StepAt(tr, k - 1);
    CameHere(Before(tr, k - 1), tr[k - 1], rid);
    if tr[k - 1].rid == rid {
      l := k - 1;
    } else {
      l := RunningHistory(tr, k - 1, rid);
    }
  }

  /** A mutating request is dispatched only after all three checks, in this
      order: expiry and policy, then the nonce, then the key. */
  lemma DispatchHistory(tr: seq<Action>, f: nat) returns (b: nat, t: nat, l: nat, sec: Security)
    requires Run(tr) && f < |tr| && tr[f].Finish? && RequestAt(tr, f).op.Mutating()
    ensures b < t < l < f
    ensures AdmittedAt(tr, b, tr[f].rid, RequestAt(tr, f), sec)
    ensures NonceAt(tr, t, tr[f].rid, RequestAt(tr, f))
    ensures MissAt(tr, l, tr[f].rid, RequestAt(tr, f))
  {
    var rid := tr[f].rid;
    StepAt(tr, f);
    l := RunningHistory(tr, f, rid);
    StepAt(tr, l);
    t := NoncedHistory(tr, l, rid);
    StepAt(tr, t);
    b := GatedHistory(tr, t, rid);
    sec := Before(tr, t).pcs[rid].sec;
  }
}
