/** Exactly when a retried request is answered from the idempotency cache. */
module GateRetries {
  import opened Wrappers
  import opened Rpc
  import opened ReplayWindow
  import opened Gate
  import opened GateTheorems

  /** One nonce cache size is in force throughout. */
  ghost predicate FixedCap(tr: seq<Action>, cap: nat)
    requires Run(tr)
  {
    forall k :: 0 <= k < |tr| && CallAt(tr, k).Try? ==> CallAt(tr, k).cap == cap
  }

  /** Step `t` presents no nonce, or one that a window's worth of others has pushed out
      since each time it was admitted. */
  ghost predicate NonceOpen(tr: seq<Action>, t: nat, cap: nat)
    requires Run(tr) && t < |tr| && tr[t].TakeNonce?
  {
    RequestAt(tr, t).nonce.Some? ==>
      forall i :: 0 <= i < t && AdmitsNonce(tr, i, RequestAt(tr, t).nonce.value) ==>
        |AdmittedNonces(tr, i + 1, t)| >= Width(cap)
  }

  lemma AcceptsAt(tr: seq<Action>, i: nat, nonce: string)
    requires Run(tr) && i < |tr|
    ensures AdmitsNonce(tr, i, nonce) <==> Accepts(Calls(tr), i) && Calls(tr)[i].nonce == nonce
  {
    OrderIsQueue(tr, i);
    assert Calls(tr)[i] == CallAt(tr, i);
  }

  /** The nonce check lets a request through exactly when its nonce is open. */
  lemma NoncePassesExactly(tr: seq<Action>, t: nat, cap: nat)
    requires Run(tr) && FixedCap(tr, cap) && t < |tr| && tr[t].TakeNonce?
    ensures var req, next := RequestAt(tr, t), Before(tr, t + 1).pcs[tr[t].rid];
            next == if NonceOpen(tr, t, cap) then Nonced(req) else Replied(Failure(req.id, ReplayDetected))
  {
    StepAt(tr, t);
    var req := RequestAt(tr, t);
    if req.nonce.Some? {
      var nonce, calls := req.nonce.value, Calls(tr);
      OrderIsQueue(tr, t);
      assert forall m :: 0 <= m < t ==> calls[m] == CallAt(tr, m);
      QueuedExactly(calls, t, cap, nonce);
      forall i | 0 <= i < t
        ensures AdmitsNonce(tr, i, nonce) <==> Accepts(calls, i) && calls[i].nonce == nonce
      {
        AcceptsAt(tr, i, nonce);
      }
    }
  }

  // ---- The steps of one request, forwards ---------------------------------------------

  lemma OthersStep(s: State, a: Action, rid: nat)
    requires Enabled(s, a) && rid in s.pcs
    ensures rid in Step(s, a).pcs
    ensures s.pcs[rid].Gated? && a != TakeNonce(rid) ==> Step(s, a).pcs[rid] == s.pcs[rid]
    ensures s.pcs[rid].Nonced? && !(a.Lookup? && a.rid == rid) ==> Step(s, a).pcs[rid] == s.pcs[rid]
    ensures !s.pcs[rid].Gated? ==> !Step(s, a).pcs[rid].Gated?
  {
  }

  /** A gated request that is later somewhere else took its nonce step in between. */
  lemma {:induction false} LeavesGate(tr: seq<Action>, i: nat, k: nat, rid: nat) returns (t: nat)
    requires Run(tr) && i <= k <= |tr| && rid in Before(tr, i).pcs && Before(tr, i).pcs[rid].Gated?
    requires rid in Before(tr, k).pcs && !Before(tr, k).pcs[rid].Gated?
    ensures i <= t < k && tr[t] == TakeNonce(rid) && rid in Before(tr, t).pcs && Before(tr, t).pcs[rid] == Before(tr, i).pcs[rid]
    decreases k - i
  {
    StepAt(tr, i);
    if tr[i] == TakeNonce(rid) {
      t := i;
    } else {
      OthersStep(Before(tr, i), tr[i], rid);
      t := LeavesGate(tr, i + 1, k, rid);
    }
  }

  lemma {:induction false} LeavesLookup(tr: seq<Action>, i: nat, k: nat, rid: nat) returns (l: nat)
    requires Run(tr) && i <= k <= |tr| && rid in Before(tr, i).pcs && Before(tr, i).pcs[rid].Nonced?
    requires rid in Before(tr, k).pcs && !Before(tr, k).pcs[rid].Nonced?
    ensures i <= l < k && LookupOf(tr, l, rid) && RequestAt(tr, l) == Before(tr, i).pcs[rid].req
    decreases k - i
  {
    StepAt(tr, i);
    if tr[i].Lookup? && tr[i].rid == rid {
      l := i;
    } else {
      OthersStep(Before(tr, i), tr[i], rid);
      l := LeavesLookup(tr, i + 1, k, rid);
    }
  }

  ghost predicate LookupOf(tr: seq<Action>, l: nat, rid: nat) {
    l < |tr| && tr[l].Lookup? && tr[l].rid == rid
  }

  lemma {:induction false} NotGatedAgain(tr: seq<Action>, i: nat, k: nat, rid: nat)
    requires Run(tr) && i <= k <= |tr| && rid in Before(tr, i).pcs && !Before(tr, i).pcs[rid].Gated?
    ensures rid in Before(tr, k).pcs && !Before(tr, k).pcs[rid].Gated?
    decreases k
  {
    if i < k {
      NotGatedAgain(tr, i, k - 1, rid);
      StepAt(tr, k - 1);
      OthersStep(Before(tr, k - 1), tr[k - 1], rid);
    }
  }

  lemma TakesOnce(tr: seq<Action>, i: nat, j: nat, rid: nat)
    requires Run(tr) && i < |tr| && j < |tr| && tr[i] == TakeNonce(rid) && tr[j] == TakeNonce(rid)
    ensures i == j
  {
    StepAt(tr, i);
    StepAt(tr, j);
    if i < j {
      NotGatedAgain(tr, i + 1, j, rid);
    } else if j < i {
      NotGatedAgain(tr, j + 1, i, rid);
    }
  }

  // ---- The answer ------------------------------------------------------------------------

  /** Request `rid` got its reply from the cache. */
  ghost predicate Answered(tr: seq<Action>, rid: nat)
    requires Run(tr)
  {
    exists l: nat :: LookupOf(tr, l, rid) && rid in Before(tr, l + 1).pcs && Before(tr, l + 1).pcs[rid].Replied?
  }

  ghost predicate FreshLookup(tr: seq<Action>, l: nat, rid: nat, key: string)
    requires Run(tr)
  {
    LookupOf(tr, l, rid) && FreshSuccess(tr, l, key)
  }

  /** A lookup of a request comes after its one nonce step, which it passed. */
  lemma LookupFollows(tr: seq<Action>, t: nat, l: nat, cap: nat, rid: nat)
    requires Run(tr) && FixedCap(tr, cap) && t < |tr| && tr[t] == TakeNonce(rid) && LookupOf(tr, l, rid)
    ensures t < l && NonceOpen(tr, t, cap) && RequestAt(tr, l) == RequestAt(tr, t)
  {
    StepAt(tr, l);
    var t' := NoncedHistory(tr, l, rid);
    TakesOnce(tr, t, t', rid);
    NoncePassesExactly(tr, t, cap);
    StepAt(tr, t);
  }

  lemma LookupDecides(tr: seq<Action>, t: nat, l: nat, cap: nat, rid: nat, key: string)
    requires Run(tr) && Monotone(tr) && FixedCap(tr, cap) && t < |tr| && tr[t] == TakeNonce(rid) && LookupOf(tr, l, rid)
    requires RequestAt(tr, t).idempotencyKey == Some(key)
    ensures NonceOpen(tr, t, cap) && rid in Before(tr, l + 1).pcs
    ensures FreshSuccess(tr, l, key) <==> Before(tr, l + 1).pcs[rid].Replied?
  {
    LookupFollows(tr, t, l, cap, rid);
    StepAt(tr, l);
    LookupHits(tr, l, key);
  }

  /** A request that was let in to mutate and has its reply took its nonce step. */
  lemma NonceStepOf(tr: seq<Action>, b: nat) returns (t: nat)
    requires Run(tr) && b < |tr| && tr[b].Begin? && Decide(tr[b].frame, tr[b].env).Mutates?
    requires tr[b].rid in Before(tr, |tr|).pcs && Before(tr, |tr|).pcs[tr[b].rid].Replied?
    ensures b < t < |tr| && tr[t] == TakeNonce(tr[b].rid) && RequestAt(tr, t) == tr[b].frame.req
  {
    StepAt(tr, b);
    t := LeavesGate(tr, b + 1, |tr|, tr[b].rid);
  }

  /** In every interleaving: a mutating request with a key that was let in and has its reply
      was answered from the cache if and only if its nonce was open, so that it came to its
      lookup, and some success under the key was younger than ten minutes there. */
  lemma RetryAnsweredExactly(tr: seq<Action>, b: nat, cap: nat, key: string) returns (t: nat)
    requires Run(tr) && Monotone(tr) && FixedCap(tr, cap)
    requires b < |tr| && tr[b].Begin? && Decide(tr[b].frame, tr[b].env).Mutates?
    requires tr[b].frame.req.idempotencyKey == Some(key)
    requires tr[b].rid in Before(tr, |tr|).pcs && Before(tr, |tr|).pcs[tr[b].rid].Replied?
    ensures b < t < |tr| && tr[t] == TakeNonce(tr[b].rid) && RequestAt(tr, t) == tr[b].frame.req
    ensures NonceOpen(tr, t, cap) <==> exists l: nat :: LookupOf(tr, l, tr[b].rid)
    ensures Answered(tr, tr[b].rid) <==> NonceOpen(tr, t, cap) && exists l: nat :: FreshLookup(tr, l, tr[b].rid, key)
  {
    var rid := tr[b].rid;
    t := NonceStepOf(tr, b);
    NoncePassesExactly(tr, t, cap);
    if NonceOpen(tr, t, cap) {
      var l := LeavesLookup(tr, t + 1, |tr|, rid);
    }
    forall l: nat | LookupOf(tr, l, rid)
      ensures NonceOpen(tr, t, cap) && rid in Before(tr, l + 1).pcs
      ensures FreshLookup(tr, l, rid, key) <==> Before(tr, l + 1).pcs[rid].Replied?
    {
      LookupDecides(tr, t, l, cap, rid, key);
    }
  }

  // ---- A retry that is turned away ------------------------------------------------------------

  lemma ComesToRun(req: Request, env: Arrival) returns (tr: seq<Action>)
    requires Decide(Parsed(req), env).Mutates? && req.nonce.Some? && req.idempotencyKey.Some?
    ensures Run(tr) && |tr| == 3 && After(tr) == State([req.nonce.value], map[], map[0 := Running(req)])
  {
    var nonce := req.nonce.value;
    var s1 := State([], map[], map[0 := Gated(req, env.security)]);
    var s2 := State([nonce], map[], map[0 := Nonced(req)]);
    var t1 := Grow([], Initial, Begin(0, Parsed(req), env));
    assert After(t1) == s1;
    assert Admit([], nonce, env.security.nonceCacheSize) == [nonce];
    var t2 := Grow(t1, s1, TakeNonce(0));
    assert After(t2) == s2;
    assert Live(map[], 0) == map[];
    tr := Grow(t2, s2, Lookup(0, 0));
  }

  lemma StoresOnce(req: Request, env: Arrival, v: Json) returns (tr: seq<Action>)
    requires Decide(Parsed(req), env).Mutates? && req.nonce.Some? && req.idempotencyKey.Some?
    ensures Run(tr) && |tr| == 4 && tr[3] == Finish(0, Value(v), 0) && RequestAt(tr, 3) == req
    ensures After(tr) == State([req.nonce.value], map[req.idempotencyKey.value := Stored(0, Success(req.id, v))],
                               map[0 := Replied(Success(req.id, v))])
  {
    var running := State([req.nonce.value], map[], map[0 := Running(req)]);
    var t3 := ComesToRun(req, env);
    DecidesMutating(req, env);
    tr := Grow(t3, running, Finish(0, Value(v), 0));
    assert tr[..3] == t3;
  }

  lemma DecidesMutating(req: Request, env: Arrival)
    requires Decide(Parsed(req), env).Mutates?
    ensures req.op.Mutating()
  {
  }

  /** A request succeeds, and its repetition at once, nonce and key included, gets a replay
      error although the success is in the cache. */
  lemma RejectedRetry(req: Request, env: Arrival, v: Json) returns (tr: seq<Action>)
    requires Decide(Parsed(req), env).Mutates? && req.nonce.Some? && req.idempotencyKey.Some?
    ensures Run(tr) && |tr| == 6 && StoresAt(tr, 3, req.idempotencyKey.value)
    ensures 1 in After(tr).pcs && After(tr).pcs[1] == Replied(Failure(req.id, ReplayDetected))
    ensures req.idempotencyKey.value in After(tr).idem
  {
    var once := StoresOnce(req, env, v);
    var s := After(once);
    var t5 := Grow(once, s, Begin(1, Parsed(req), env));
    tr := Grow(t5, After(t5), TakeNonce(1));
    assert tr[..4] == once && tr[..5] == t5 && once[..3] == tr[..3];
  }

  /** The key alone selects the stored response: after one request succeeds, another that names
      the same key is answered with its result, whatever method it asks for. */
  lemma AnsweredForAnother(req: Request, other: Request, env: Arrival, v: Json) returns (tr: seq<Action>)
    requires Decide(Parsed(req), env).Mutates? && req.nonce.Some? && req.idempotencyKey.Some?
    requires Decide(Parsed(other), env).Mutates? && other.nonce.None? && other.idempotencyKey == req.idempotencyKey
    ensures Run(tr) && |tr| == 7 && tr[3] == Finish(0, Value(v), 0) && RequestAt(tr, 3) == req
    ensures tr[4] == Begin(1, Parsed(other), env) && tr[6] == Lookup(1, 0)
    ensures After(tr).pcs == map[0 := Replied(Success(req.id, v)), 1 := Replied(Success(other.id, v))]
  {
    var key := req.idempotencyKey.value;
    var once := StoresOnce(req, env, v);
    var s := State([req.nonce.value], map[key := Stored(0, Success(req.id, v))], map[0 := Replied(Success(req.id, v))]);
    var s5 := s.(pcs := s.pcs[1 := Gated(other, env.security)]);
    var s6 := s.(pcs := s.pcs[1 := Nonced(other)]);
    var t5 := Grow(once, s, Begin(1, Parsed(other), env));
    assert After(t5) == s5;
    var t6 := Grow(t5, s5, TakeNonce(1));
    assert After(t6) == s6;
    assert Live(s.idem, 0) == s.idem;
    tr := Grow(t6, s6, Lookup(1, 0));
    assert tr[..4] == once && once[..3] == tr[..3];
  }
}
