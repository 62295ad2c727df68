/** What the request gate guarantees over every interleaving of requests. */
module GateTheorems {
  import opened Wrappers
  import opened Rpc
  import opened ReplayWindow
  import opened Sequences
  import opened Gate

  // ---- Replay protection --------------------------------------------------

  /** Step `k` seen as a call on the nonce window. */
  ghost function CallAt(tr: seq<Action>, k: nat): Call
    requires Run(tr) && k < |tr|
  {
    if tr[k].TakeNonce? && RequestAt(tr, k).nonce.Some? then
      StepAt(tr, k);
      Try(RequestAt(tr, k).nonce.value, Before(tr, k).pcs[tr[k].rid].sec.nonceCacheSize)
    else Idle
  }

  ghost function Calls(tr: seq<Action>): seq<Call>
    requires Run(tr)
  {
    seq(|tr|, k requires 0 <= k < |tr| => CallAt(tr, k))
  }

  lemma {:induction false} OrderIsQueue(tr: seq<Action>, k: nat)
    requires Run(tr) && k <= |tr|
    ensures Before(tr, k).order == Queue(Calls(tr)[..k])
  {
    if k > 0 {
      OrderIsQueue(tr, k - 1);
      StepAt(tr, k - 1);
      QueueStep(Calls(tr), k - 1);
    } else {
      assert tr[..0] == [];
    }
  }

  /** Nonces admitted at steps `lo..hi` of a run, in order. */
  ghost function AdmittedNonces(tr: seq<Action>, lo: nat, hi: nat): seq<string>
    requires Run(tr) && lo <= hi <= |tr|
  {
    Accepted(Calls(tr), lo, hi)
  }

  ghost predicate AdmitsNonce(tr: seq<Action>, k: nat, nonce: string)
    requires Run(tr) && k < |tr|
  {
    tr[k].TakeNonce? && RequestAt(tr, k).nonce == Some(nonce) && nonce !in Before(tr, k).order
  }

  /** Every nonce cache size in force at steps strictly between `i` and `j` is at least `bound`. */
  ghost predicate WindowAtLeast(tr: seq<Action>, i: nat, j: nat, bound: nat)
    requires Run(tr) && i <= j <= |tr|
  {
    forall m :: i < m < j && CallAt(tr, m).Try? ==> bound <= Width(CallAt(tr, m).cap)
  }

  /** In every interleaving: a nonce admitted at step `i` is admitted again at
      step `j` only after `bound` pairwise distinct other nonces in between. */
  lemma NonceReuse(tr: seq<Action>, i: nat, j: nat, nonce: string, bound: nat)
    requires Run(tr) && i < j < |tr|
    requires AdmitsNonce(tr, i, nonce) && AdmitsNonce(tr, j, nonce) && WindowAtLeast(tr, i, j, bound)
    ensures |AdmittedNonces(tr, i + 1, j)| >= bound
    ensures Distinct([nonce] + AdmittedNonces(tr, i + 1, j)[..bound])
  {
    OrderIsQueue(tr, i);
    OrderIsQueue(tr, j);
    assert Calls(tr)[i] == CallAt(tr, i) && Calls(tr)[j] == CallAt(tr, j);
    ReuseNeedsEviction(Calls(tr), i, j, bound);
  }

  /** A retry that repeats its nonce while the window still holds it is rejected
      before the idempotency cache is looked at, so no cached answer can reach it. */
  lemma RetryWithSameNonce(tr: seq<Action>, i: nat, j: nat, nonce: string, bound: nat)
    requires Run(tr) && i < j < |tr| && AdmitsNonce(tr, i, nonce)
    requires tr[j].TakeNonce? && RequestAt(tr, j).nonce == Some(nonce)
    requires WindowAtLeast(tr, i, j, bound) && |AdmittedNonces(tr, i + 1, j)| < bound
    ensures Before(tr, j + 1).pcs[tr[j].rid] == Replied(Failure(RequestAt(tr, j).id, ReplayDetected))
    ensures Before(tr, j + 1).idem == Before(tr, j).idem
  {
    if nonce !in Before(tr, j).order {
      NonceReuse(tr, i, j, nonce, bound);
    }
    StepAt(tr, j);
  }

  // ---- Idempotency --------------------------------------------------------

  /** The monotonic clock: later lookups and stores read no earlier times. */
  ghost predicate Monotone(tr: seq<Action>) {
    forall i, j :: 0 <= i < j < |tr| && Timed(tr[i]) && Timed(tr[j]) ==> tr[i].at <= tr[j].at
  }

  ghost predicate Timed(a: Action) {
    a.Lookup? || a.Finish?
  }

  /** Step `k` records a success under `key`. */
  ghost predicate StoresAt(tr: seq<Action>, k: nat, key: string)
    requires Run(tr) && k < |tr|
  {
    tr[k].Finish? && Stores(RequestAt(tr, k), tr[k].outcome) && RequestAt(tr, k).idempotencyKey == Some(key)
  }

  /** The most recent step before `k` that recorded a success under `key`. */
  ghost function LastStore(tr: seq<Action>, k: nat, key: string): (i: Option<nat>)
    requires Run(tr) && k <= |tr|
    ensures i.Some? ==> i.value < k && StoresAt(tr, i.value, key)
    ensures forall j :: (if i.Some? then i.value + 1 else 0) <= j < k ==> !StoresAt(tr, j, key)
  {
    if k == 0 then None
    else if StoresAt(tr, k - 1, key) then Some(k - 1)
    else LastStore(tr, k - 1, key)
  }

  ghost function StoredAt(tr: seq<Action>, i: nat): Stored
    requires Run(tr) && i < |tr| && tr[i].Finish?
  {
    Stored(tr[i].at, Reply(RequestAt(tr, i), tr[i].outcome))
  }

  /** The cache holds, for each key, its last recorded success, except where a
      later lookup has already found that success too old. */
  ghost predicate CacheMatches(tr: seq<Action>, k: nat, key: string)
    requires Run(tr) && k <= |tr|
  {
    var idem, last := Before(tr, k).idem, LastStore(tr, k, key);
    if key in idem then last.Some? && idem[key] == StoredAt(tr, last.value)
    else last.None? || exists l :: last.value < l < k && tr[l].Lookup? && tr[l].at - tr[last.value].at >= TTL
  }

  lemma CacheStep(tr: seq<Action>, k: nat, key: string)
    requires Run(tr) && k < |tr| && CacheMatches(tr, k, key)
    requires var before, after := Before(tr, k).idem, Before(tr, k + 1).idem;
             if StoresAt(tr, k, key) then key in after && after[key] == StoredAt(tr, k)
             else if key in before && key !in after then tr[k].Lookup? && tr[k].at - before[key].at >= TTL
             else (key in after <==> key in before) && (key in after ==> after[key] == before[key])
    ensures CacheMatches(tr, k + 1, key)
  {
  }

  lemma {:induction false} CacheInvariant(tr: seq<Action>, k: nat, key: string)
    requires Run(tr) && k <= |tr|
    ensures CacheMatches(tr, k, key)
  {
    if k == 0 {
      assert tr[..0] == [];
    } else {
      CacheInvariant(tr, k - 1, key);
      StepAt(tr, k - 1);
      IdemStep(Before(tr, k - 1), tr[k - 1], key);
      CacheStep(tr, k - 1, key);
    }
  }

  /** What one step does to one key of the cache. */
  lemma IdemStep(s: State, a: Action, key: string)
    requires Enabled(s, a)
    ensures var after := Step(s, a).idem;
            if a.Finish? && Stores(s.pcs[a.rid].req, a.outcome) && s.pcs[a.rid].req.idempotencyKey == Some(key) then
              key in after && after[key] == Stored(a.at, Reply(s.pcs[a.rid].req, a.outcome))
            else if key in s.idem && key !in after then a.Lookup? && a.at - s.idem[key].at >= TTL
            else (key in after <==> key in s.idem) && (key in after ==> after[key] == s.idem[key])
  {
  }

  /** A success for `key` was recorded before step `l` and is younger than ten
      minutes at its clock reading: stated on the run alone, not on the cache. */
  ghost predicate FreshSuccess(tr: seq<Action>, l: nat, key: string)
    requires Run(tr) && l < |tr| && tr[l].Lookup?
  {
    exists i :: 0 <= i < l && StoresAt(tr, i, key) && tr[l].at - tr[i].at < 600_000_000_000
  }

  /** Exactly when a lookup hits, and what it answers: the last recorded
      response, unchanged but for the id, which is the new request's. */
  lemma LookupHits(tr: seq<Action>, l: nat, key: string)
    requires Run(tr) && Monotone(tr) && l < |tr| && tr[l].Lookup? && RequestAt(tr, l).idempotencyKey == Some(key)
    ensures FreshSuccess(tr, l, key) <==> Before(tr, l + 1).pcs[tr[l].rid].Replied?
    ensures FreshSuccess(tr, l, key) ==>
              && LastStore(tr, l, key).Some?
              && Before(tr, l + 1).pcs[tr[l].rid]
                 == Replied(StoredAt(tr, LastStore(tr, l, key).value).resp.(id := RequestAt(tr, l).id))
    ensures !FreshSuccess(tr, l, key) ==> Before(tr, l + 1).pcs[tr[l].rid] == Running(RequestAt(tr, l))
  {
    CacheInvariant(tr, l, key);
    StepAt(tr, l);
    var last := LastStore(tr, l, key);
    if last.Some? {
      assert forall i :: 0 <= i < l && StoresAt(tr, i, key) ==> i <= last.value;
    }
  }

  /** Two successes under one key: the later request looked the key up before
      the earlier one recorded its success, or at least ten minutes after. */
  lemma SuccessesUnderOneKey(tr: seq<Action>, i: nat, j: nat, key: string) returns (l: nat)
    requires Run(tr) && Monotone(tr) && i < j < |tr| && StoresAt(tr, i, key) && StoresAt(tr, j, key)
    ensures l < j && tr[l].Lookup? && tr[l].rid == tr[j].rid && RequestAt(tr, l) == RequestAt(tr, j)
    ensures l < i || tr[l].at - tr[i].at >= 600_000_000_000
  {
    var b, t, l', sec := DispatchHistory(tr, j);
    l := l';
    if l >= i && tr[l].at - tr[i].at < TTL {
      FreshSuccessAnswers(tr, i, l, key);
      StepAt(tr, l);
    }
  }

  lemma FreshSuccessAnswers(tr: seq<Action>, i: nat, l: nat, key: string)
    requires Run(tr) && Monotone(tr) && i <= l < |tr| && StoresAt(tr, i, key)
    requires tr[l].Lookup? && RequestAt(tr, l).idempotencyKey == Some(key) && tr[l].at - tr[i].at < TTL
    ensures Before(tr, l + 1).pcs[tr[l].rid].Replied?
  {
    LookupHits(tr, l, key);
    assert i != l && FreshSuccess(tr, l, key);
  }

  // ---- End to end ---------------------------------------------------------

  /** Every dispatch of a mutating request that carries a timestamp and a nonce
      some earlier request already used: the request is still within its
      window, the nonce has been pushed out by `bound` other nonces, and no
      success recorded under its key is fresh at the lookup. */
  lemma ReplayedDispatch(tr: seq<Action>, f: nat, nonce: string, bound: nat)
      returns (b: nat, t: nat, l: nat)
    requires Run(tr) && Monotone(tr) && f < |tr| && tr[f].Finish? && RequestAt(tr, f).op.Mutating()
    requires RequestAt(tr, f).nonce == Some(nonce) && RequestAt(tr, f).ts.Some?
    requires WindowAtLeast(tr, 0, f, bound)
    ensures b < t < l < f && tr[b].Begin? && tr[t].TakeNonce? && tr[l].Lookup?
    ensures tr[b].rid == tr[t].rid == tr[l].rid == tr[f].rid && AdmitsNonce(tr, t, nonce)
    ensures RequestAt(tr, f).ts.value.At?
    ensures var req, env := RequestAt(tr, f), tr[b].env;
            && env.now <= req.ts.value.ns + env.security.maxTtlMs * 1_000_000
            && (req.ttlMs.Some? ==> env.now <= req.ts.value.ns + req.ttlMs.value * 1_000_000)
    ensures forall i :: 0 <= i < t && AdmitsNonce(tr, i, nonce) ==>
              && |AdmittedNonces(tr, i + 1, t)| >= bound
              && Distinct([nonce] + AdmittedNonces(tr, i + 1, t)[..bound])
    ensures RequestAt(tr, f).idempotencyKey.Some? ==> !FreshSuccess(tr, l, RequestAt(tr, f).idempotencyKey.value)
  {
    var sec;
    b, t, l, sec := DispatchHistory(tr, f);
    forall i | 0 <= i < t && AdmitsNonce(tr, i, nonce)
      ensures |AdmittedNonces(tr, i + 1, t)| >= bound
      ensures Distinct([nonce] + AdmittedNonces(tr, i + 1, t)[..bound])
    {
      NonceReuse(tr, i, t, nonce, bound);
    }
    StepAt(tr, l);
    var req := RequestAt(tr, f);
    if req.idempotencyKey.Some? {
      LookupHits(tr, l, req.idempotencyKey.value);
    }
    I64NotAbove(EffectiveTtl(req, sec));
  }

  lemma I64NotAbove(x: nat)
    ensures AsI64(x) <= x
  {
  }

  // ---- Admission ------------------------------------------------------------

  /** A time to live that fits the signed type it is cast to. */
  ghost predicate FitsI64(req: Request, sec: Security) {
    sec.maxTtlMs < TWO_63 || (req.ttlMs.Some? && req.ttlMs.value < TWO_63)
  }

  /** The clock is past the timestamp by more than the policy's longest time to live, or by more
      than the request's own. */
  ghost predicate PastTtl(req: Request, sec: Security, now: int) {
    && req.ts.Some? && req.ts.value.At?
    && (|| now > req.ts.value.ns + sec.maxTtlMs * 1_000_000
        || (req.ttlMs.Some? && now > req.ts.value.ns + req.ttlMs.value * 1_000_000))
  }

  /** Neither negotiation nor let in by the policy. */
  ghost predicate Denied(req: Request, env: Arrival) {
    && !(req.op.Ping? || req.op.GetVersion? || req.op.GetCapabilities?)
    && (|| (exists d :: d in env.policy.deny && env.matches(d, req.wireName))
        || (env.policy.allow != [] && forall a :: a in env.policy.allow ==> !env.matches(a, req.wireName))
        || (Switch(req.op).Some? && Switch(req.op).value !in env.policy.enabled))
  }

  /** Exactly when a request is refused on arrival and with which error: an ill-formed one before
      a denied one, and for a mutating one a timestamp that is none, then one that is too old or
      required and missing. */
  lemma DecidesExactly(req: Request, env: Arrival)
    requires FitsI64(req, env.security)
    ensures var decision, formed := Decide(Parsed(req), env), req.jsonrpc == "2.0" && req.wireName != "";
            var mutating := formed && !Denied(req, env) && req.op.Mutating();
            var late := PastTtl(req, env.security, env.now) || (req.ts.None? && env.security.requireExpiry);
            && (decision == Refused(Failure(req.id, InvalidRequest)) <==> !formed || (mutating && req.ts == Some(Malformed)))
            && (decision == Refused(Failure(req.id, PolicyDenied)) <==> formed && Denied(req, env))
            && (decision == Refused(Failure(req.id, RequestExpired)) <==> mutating && late)
            && (decision.Mutates? <==> mutating && req.ts != Some(Malformed) && !late)
            && (decision.ReadsOnly? <==> formed && !Denied(req, env) && !req.op.Mutating())
  {
    I64Fits(req, env.security);
  }

  lemma I64Fits(req: Request, sec: Security)
    requires FitsI64(req, sec)
    ensures AsI64(EffectiveTtl(req, sec)) == EffectiveTtl(req, sec)
  {
  }

  /** A longest time to live beyond the signed range, where the request names none or one beyond
      it too, wraps around: the deadline then lies before the timestamp. */
  lemma WrappedTtlExpires(req: Request, env: Arrival)
    requires req.op.Mutating() && req.jsonrpc == "2.0" && req.wireName != "" && !Denied(req, env)
    requires TWO_63 <= env.security.maxTtlMs < TWO_64 && (req.ttlMs.Some? ==> TWO_63 <= req.ttlMs.value < TWO_64)
    requires req.ts.Some? && req.ts.value.At? && env.now >= req.ts.value.ns
    ensures Decide(Parsed(req), env) == Refused(Failure(req.id, RequestExpired))
  {
  }

  /** A frame that is no request gets a parse error without an id. */
  lemma NotJsonRefused(env: Arrival)
    ensures Decide(NotJson, env) == Refused(Response(None, Some(ParseError), None))
  {
  }

  // ---- Authorisation ------------------------------------------------------

  lemma BegunStep(s: State, a: Action, rid: nat)
    requires Enabled(s, a) && rid in Step(s, a).pcs && !Step(s, a).pcs[rid].Replied?
    ensures var pc := Step(s, a).pcs[rid];
            if a.Begin? && a.rid == rid then a.frame == Parsed(pc.req) && !Decide(a.frame, a.env).Refused?
            else rid in s.pcs && !s.pcs[rid].Replied? && s.pcs[rid].req == pc.req
  {
  }

  lemma {:induction false} BeginHistory(tr: seq<Action>, k: nat, rid: nat) returns (b: nat)
    requires Run(tr) && k <= |tr| && rid in Before(tr, k).pcs && !Before(tr, k).pcs[rid].Replied?
    ensures b < k && tr[b].Begin? && tr[b].rid == rid
    ensures tr[b].frame == Parsed(Before(tr, k).pcs[rid].req) && !Decide(tr[b].frame, tr[b].env).Refused?
  {
    assert tr[..0] == [];
    StepAt(tr, k - 1);
    BegunStep(Before(tr, k - 1), tr[k - 1], rid);
    if tr[k - 1].Begin? && tr[k - 1].rid == rid {
      b := k - 1;
    } else {
      b := BeginHistory(tr, k - 1, rid);
    }
  }

  /** Whatever the gate dispatches, reading or mutating, was let in by the policy in force when
      it arrived: only negotiation is exempt, a deny pattern always wins, a non-empty allow list
      has to match, and the method's switch has to be on. Frames that never reach the gate are
      in `GateEntry`. */
  lemma DispatchedWasAuthorized(tr: seq<Action>, f: nat) returns (b: nat)
    requires Run(tr) && f < |tr| && tr[f].Finish?
    ensures b < f && tr[b].Begin? && tr[b].rid == tr[f].rid && tr[b].frame == Parsed(RequestAt(tr, f))
    ensures var req, env := RequestAt(tr, f), tr[b].env;
            !req.op.Negotiation() ==>
              && (forall d :: d in env.policy.deny ==> !env.matches(d, req.wireName))
              && (env.policy.allow != [] ==> exists a :: a in env.policy.allow && env.matches(a, req.wireName))
              && (Switch(req.op).Some? ==> Switch(req.op).value in env.policy.enabled)
  {
    StepAt(tr, f);
    b := BeginHistory(tr, f, tr[f].rid);
  }

  /** A dispatched request is answered under its own id, with the value and no error, or with the
      error and no value; only a mutating success under a key is kept for retries. */
  lemma AnsweredWithOutcome(tr: seq<Action>, f: nat)
    requires Run(tr) && f < |tr| && tr[f].Finish?
    ensures var req, s, s' := RequestAt(tr, f), Before(tr, f), Before(tr, f + 1);
            var resp := match tr[f].outcome
                        case Value(v) => Response(Some(v), None, req.id)
                        case Error(code) => Response(None, Some(code), req.id);
            && tr[f].rid in s'.pcs && s'.pcs[tr[f].rid] == Replied(resp)
            && (if req.op.Mutating() && req.idempotencyKey.Some? && tr[f].outcome.Value? then
                  s'.idem == s.idem[req.idempotencyKey.value := Stored(tr[f].at, resp)]
                else s'.idem == s.idem)
  {
    StepAt(tr, f);
  }

  // ---- Serial runs --------------------------------------------------------

  /** No two requests overlap. */
  ghost predicate Serial(tr: seq<Action>) {
    forall i, j, k :: 0 <= i < j < k < |tr| && tr[i].rid == tr[k].rid ==> tr[j].rid == tr[i].rid
  }

  lemma {:induction false} RepliedIsFinal(tr: seq<Action>, i: nat, k: nat, rid: nat)
    requires Run(tr) && i <= k <= |tr| && rid in Before(tr, i).pcs && Before(tr, i).pcs[rid].Replied?
    ensures rid in Before(tr, k).pcs && Before(tr, k).pcs[rid].Replied?
  {
    if i < k {
      RepliedIsFinal(tr, i, k - 1, rid);
      StepAt(tr, k - 1);
    }
  }

  lemma FinishesOnce(tr: seq<Action>, i: nat, j: nat)
    requires Run(tr) && i < j < |tr| && tr[i].Finish? && tr[j].Finish?
    ensures tr[i].rid != tr[j].rid
  {
    StepAt(tr, i);
    StepAt(tr, j);
    if tr[i].rid == tr[j].rid {
      RepliedIsFinal(tr, i + 1, j, tr[i].rid);
    }
  }

  /** In a serial run one key succeeds at most once in ten minutes. */
  lemma SerialIdempotency(tr: seq<Action>, i: nat, j: nat, key: string) returns (l: nat)
    requires Run(tr) && Monotone(tr) && Serial(tr)
    requires i < j < |tr| && StoresAt(tr, i, key) && StoresAt(tr, j, key)
    ensures i < l < j && tr[l].Lookup? && tr[l].rid == tr[j].rid && tr[l].at - tr[i].at >= 600_000_000_000
  {
    l := SuccessesUnderOneKey(tr, i, j, key);
    FinishesOnce(tr, i, j);
  }

  // ---- Overlapping requests -----------------------------------------------

  lemma BeginsAndTakes(tr: seq<Action>, s: State, rid: nat, req: Request, env: Arrival) returns (longer: seq<Action>)
    requires Run(tr) && After(tr) == s && rid !in s.pcs
    requires Decide(Parsed(req), env).Mutates? && req.nonce.None?
    ensures Run(longer) && After(longer) == s.(pcs := s.pcs[rid := Nonced(req)])
    ensures longer == tr + [Begin(rid, Parsed(req), env), TakeNonce(rid)]
  {
    var gated := s.(pcs := s.pcs[rid := Gated(req, env.security)]);
    longer := Grow(tr, s, Begin(rid, Parsed(req), env));
    longer := Grow(longer, gated, TakeNonce(rid));
    assert s.pcs[rid := Gated(req, env.security)][rid := Nonced(req)] == s.pcs[rid := Nonced(req)];
  }

  lemma BothNonced(req: Request, env: Arrival) returns (tr: seq<Action>)
    requires Decide(Parsed(req), env).Mutates? && req.nonce.None?
    ensures Run(tr) && |tr| == 4 && After(tr) == State([], map[], map[0 := Nonced(req), 1 := Nonced(req)])
    ensures forall k :: 0 <= k < 4 ==> !Timed(tr[k])
  {
    var first := BeginsAndTakes([], Initial, 0, req, env);
    assert After(first) == State([], map[], map[0 := Nonced(req)]);
    tr := BeginsAndTakes(first, After(first), 1, req, env);
  }

  lemma BothMiss(req: Request, env: Arrival) returns (tr: seq<Action>)
    requires Decide(Parsed(req), env).Mutates? && req.nonce.None? && req.idempotencyKey.Some?
    ensures Run(tr) && |tr| == 6 && After(tr) == State([], map[], map[0 := Running(req), 1 := Running(req)])
    ensures forall k :: 0 <= k < 6 && Timed(tr[k]) ==> tr[k].at == 0
  {
    tr := BothNonced(req, env);
    tr := Grow(tr, After(tr), Lookup(0, 0));
    tr := Grow(tr, State([], map[], map[0 := Running(req), 1 := Nonced(req)]), Lookup(1, 0));
  }

  /** Every admissible request with a key and no nonce can run twice at the
      same instant: both lookups happen before either success is recorded. */
  lemma OverlapRunsTwice(req: Request, env: Arrival, v: Json) returns (tr: seq<Action>)
    requires Decide(Parsed(req), env).Mutates? && req.nonce.None? && req.idempotencyKey.Some?
    ensures Run(tr) && Monotone(tr) && |tr| == 8
    ensures StoresAt(tr, 6, req.idempotencyKey.value) && StoresAt(tr, 7, req.idempotencyKey.value)
    ensures tr[6].rid != tr[7].rid && tr[6].at == tr[7].at
  {
    var missed := BothMiss(req, env);
    var once := Grow(missed, After(missed), Finish(0, Value(v), 0));
    tr := Grow(once, After(once), Finish(1, Value(v), 0));
    assert tr[..6] == missed && tr[..7] == once;
  }
}
