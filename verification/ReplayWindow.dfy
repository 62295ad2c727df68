/** The nonce window of the replay cache (src/agent/state.rs): a bounded queue
    of admitted nonces, and what it means for a nonce to be admitted twice. */
module ReplayWindow {
  import opened Sequences

  /** `cap.max(1)`. */
  function Width(cap: nat): (w: nat)
    ensures w >= 1
  {
    if cap < 1 then 1 else cap
  }

  /** The window is as wide as asked for, but never empty. */
  lemma WidthExactly(cap: nat)
    ensures Width(cap) == (if cap == 0 then 1 else cap)
  {
  }

  function LastOf<T>(s: seq<T>, n: nat): seq<T> {
    if |s| <= n then s else s[|s| - n..]
  }

  /** The queue after one `nonce_fresh` call. */
  function Admit(order: seq<string>, nonce: string, cap: nat): seq<string> {
    if nonce in order then order else LastOf(order + [nonce], Width(cap))
  }

  /** One position of a run: either an attempt to use a nonce, or some other
      step of the agent that leaves the queue alone. */
  datatype Call = Idle | Try(nonce: string, cap: nat)

  /** The queue after a run. */
  function Queue(calls: seq<Call>): seq<string> {
    if calls == [] then [] else
      var before := Queue(calls[..|calls| - 1]);
      match calls[|calls| - 1]
      case Idle => before
      case Try(nonce, cap) => Admit(before, nonce, cap)
  }

  /** Call `k` of the run is accepted as fresh. */
  ghost predicate Accepts(calls: seq<Call>, k: nat)
    requires k < |calls|
  {
    calls[k].Try? && calls[k].nonce !in Queue(calls[..k])
  }

  /** The nonces accepted at positions `lo..hi`, in order. */
  ghost function Accepted(calls: seq<Call>, lo: nat, hi: nat): seq<string>
    requires lo <= hi <= |calls|
    decreases hi - lo
  {
    if lo == hi then []
    else Accepted(calls, lo, hi - 1) + (if Accepts(calls, hi - 1) then [calls[hi - 1].nonce] else [])
  }

  lemma QueueStep(calls: seq<Call>, k: nat)
    requires k < |calls|
    ensures Queue(calls[..k + 1]) ==
            match calls[k] { case Idle => Queue(calls[..k]) case Try(n, c) => Admit(Queue(calls[..k]), n, c) }
  {
    assert calls[..k + 1][..k] == calls[..k];
  }

  lemma {:induction false} QueueDistinct(calls: seq<Call>)
    ensures Distinct(Queue(calls))
  {
    if calls != [] {
      QueueDistinct(calls[..|calls| - 1]);
    }
  }

  lemma TailOfTail<T>(history: seq<T>, queue: seq<T>, x: T, w: nat)
    requires |queue| <= |history| && queue == LastOf(history, |queue|)
    ensures var next := LastOf(queue + [x], w);
            |next| <= |history| + 1 && next == LastOf(history + [x], |next|)
  {
  }

  /** Whatever caps the calls carry, the queue is the tail of the accepted history. */
  lemma {:induction false} QueueIsTailOfHistory(calls: seq<Call>, k: nat)
    requires k <= |calls|
    ensures |Queue(calls[..k])| <= |Accepted(calls, 0, k)|
    ensures Queue(calls[..k]) == LastOf(Accepted(calls, 0, k), |Queue(calls[..k])|)
  {
    if k > 0 {
      QueueIsTailOfHistory(calls, k - 1);
      QueueStep(calls, k - 1);
      if Accepts(calls, k - 1) {
        TailOfTail(Accepted(calls, 0, k - 1), Queue(calls[..k - 1]), calls[k - 1].nonce, Width(calls[k - 1].cap));
      }
    }
  }

  /** The queue is no longer than the cap of the last accepted call allows. */
  lemma {:induction false} QueueWithinLastCap(calls: seq<Call>, i: nat, k: nat)
    requires i < k <= |calls| && Accepts(calls, i) && Accepted(calls, i + 1, k) == []
    ensures |Queue(calls[..k])| <= Width(calls[i].cap)
  {
    QueueStep(calls, k - 1);
    if k > i + 1 {
      QueueWithinLastCap(calls, i, k - 1);
    }
  }

  lemma LastOfLast<T>(history: seq<T>, x: T, w: nat)
    requires w >= 1
    ensures LastOf(LastOf(history, w) + [x], w) == LastOf(history + [x], w)
  {
  }

  /** With one fixed cap the queue is exactly the last `max(cap, 1)` accepted nonces. */
  lemma {:induction false} FixedCapWindow(calls: seq<Call>, k: nat, cap: nat)
    requires k <= |calls|
    requires forall i :: 0 <= i < k && calls[i].Try? ==> calls[i].cap == cap
    ensures Queue(calls[..k]) == LastOf(Accepted(calls, 0, k), Width(cap))
  {
    if k > 0 {
      FixedCapWindow(calls, k - 1, cap);
      QueueStep(calls, k - 1);
      if Accepts(calls, k - 1) {
        LastOfLast(Accepted(calls, 0, k - 1), calls[k - 1].nonce, Width(cap));
      } else {
        assert Accepted(calls, 0, k) == Accepted(calls, 0, k - 1);
      }
    }
  }

  ghost predicate EndsWith<T>(queue: seq<T>, tail: seq<T>) {
    |tail| <= |queue| && queue[|queue| - |tail|..] == tail
  }

  lemma AdmitKeepsEnd(queue: seq<string>, tail: seq<string>, nonce: string, cap: nat)
    requires EndsWith(queue, tail) && nonce !in queue && |tail| < Width(cap)
    ensures EndsWith(Admit(queue, nonce, cap), tail + [nonce])
  {
    var longer, next := queue + [nonce], Admit(queue, nonce, cap);
    assert longer[|longer| - |tail| - 1..] == tail + [nonce];
    assert next[|next| - |tail| - 1..] == longer[|longer| - |tail| - 1..];
  }

  lemma NoRest<T>(x: T)
    ensures [x] + [] == [x] && [] + [x] == [x]
  {
  }

  /** While fewer than `bound` nonces were accepted since call `i`, they and
      the nonce of call `i` are still the end of the queue. */
  lemma {:induction false} StillQueued(calls: seq<Call>, i: nat, k: nat, bound: nat)
    requires i < k <= |calls| && Accepts(calls, i)
    requires forall m :: i < m < k && calls[m].Try? ==> bound <= Width(calls[m].cap)
    requires |Accepted(calls, i + 1, k)| < bound
    ensures EndsWith(Queue(calls[..k]), [calls[i].nonce] + Accepted(calls, i + 1, k))
  {
    var c := calls[k - 1];
    QueueStep(calls, k - 1);
    if k == i + 1 {
      AdmitKeepsEnd(Queue(calls[..i]), [], c.nonce, c.cap);
      NoRest(c.nonce);
    } else {
      var rest := Accepted(calls, i + 1, k - 1);
      StillQueued(calls, i, k - 1, bound);
      if Accepts(calls, k - 1) {
        AdmitKeepsEnd(Queue(calls[..k - 1]), [calls[i].nonce] + rest, c.nonce, c.cap);
        Regroup([calls[i].nonce], rest, [c.nonce]);
      } else {
        assert Accepted(calls, i + 1, k) == rest;
      }
    }
  }

  lemma EndIsInside<T>(queue: seq<T>, tail: seq<T>)
    requires EndsWith(queue, tail)
    ensures forall y :: y in tail ==> y in queue
  {
  }

  /** The first `n` nonces accepted since call `i` fit in a shorter stretch of the run. */
  lemma {:induction false} ShrinkTo(calls: seq<Call>, lo: nat, hi: nat, n: nat) returns (k: nat)
    requires lo <= hi <= |calls| && n <= |Accepted(calls, lo, hi)|
    ensures lo <= k <= hi && Accepted(calls, lo, k) == Accepted(calls, lo, hi)[..n]
    decreases hi
  {
    if |Accepted(calls, lo, hi)| == n {
      k := hi;
    } else {
      k := ShrinkTo(calls, lo, hi - 1, n);
    }
  }

  /** A nonce is accepted a second time only after `bound` pairwise distinct
      other nonces were accepted in between, where `bound` is a lower bound on
      the window width throughout. */
  lemma ReuseNeedsEviction(calls: seq<Call>, i: nat, j: nat, bound: nat)
    requires i < j < |calls| && Accepts(calls, i) && Accepts(calls, j)
    requires calls[i].nonce == calls[j].nonce
    requires forall m :: i < m < j && calls[m].Try? ==> bound <= Width(calls[m].cap)
    ensures |Accepted(calls, i + 1, j)| >= bound
    ensures Distinct([calls[i].nonce] + Accepted(calls, i + 1, j)[..bound])
  {
    var between := Accepted(calls, i + 1, j);
    if |between| < bound {
      StillQueued(calls, i, j, bound);
      EndIsInside(Queue(calls[..j]), [calls[i].nonce] + between);
      assert false;
    }
    if bound > 0 {
      var k := ShrinkTo(calls, i + 1, j, bound);
      FirstBoundDistinct(calls, i, k, bound);
    }
  }

  lemma {:induction false} FirstBoundDistinct(calls: seq<Call>, i: nat, k: nat, bound: nat)
    requires i < k <= |calls| && Accepts(calls, i)
    requires forall m :: i < m < k && calls[m].Try? ==> bound <= Width(calls[m].cap)
    requires |Accepted(calls, i + 1, k)| <= bound
    ensures Distinct([calls[i].nonce] + Accepted(calls, i + 1, k))
    decreases k
  {
    if k > i + 1 {
      FirstBoundDistinct(calls, i, k - 1, bound);
      if Accepts(calls, k - 1) {
        StillQueued(calls, i, k - 1, bound);
        var head := [calls[i].nonce] + Accepted(calls, i + 1, k - 1);
        EndIsInside(Queue(calls[..k - 1]), head);
        assert [calls[i].nonce] + Accepted(calls, i + 1, k) == head + [calls[k - 1].nonce];
      } else {
        assert Accepted(calls, i + 1, k) == Accepted(calls, i + 1, k - 1);
      }
    }
  }

  lemma {:induction false} AcceptedSplit(calls: seq<Call>, lo: nat, mid: nat, hi: nat)
    requires lo <= mid <= hi <= |calls|
    ensures Accepted(calls, lo, hi) == Accepted(calls, lo, mid) + Accepted(calls, mid, hi)
    decreases hi - mid
  {
    if mid < hi {
      AcceptedSplit(calls, lo, mid, hi - 1);
    }
  }

  lemma InLastOf<T>(older: seq<T>, x: T, recent: seq<T>, w: nat)
    requires x !in recent
    ensures x in LastOf(older + [x] + recent, w) <==> |recent| < w
  {
    var history := older + [x] + recent;
    if |recent| < w {
      assert history[|older|] == x;
      var i := if |history| <= w then |older| else |older| - (|history| - w);
      assert LastOf(history, w)[i] == x;
    } else {
      assert LastOf(history, w) == recent[|recent| - w..];
    }
  }

  /** With one fixed cap, exactly when a nonce last accepted at call `i` is
      accepted again at call `j`: the window has been filled since. */
  lemma ReuseExactly(calls: seq<Call>, i: nat, j: nat, cap: nat)
    requires i < j < |calls| && Accepts(calls, i) && calls[j].Try? && calls[i].nonce == calls[j].nonce
    requires forall m :: 0 <= m < j && calls[m].Try? ==> calls[m].cap == cap
    requires calls[i].nonce !in Accepted(calls, i + 1, j)
    ensures Accepts(calls, j) <==> |Accepted(calls, i + 1, j)| >= Width(cap)
  {
    FixedCapWindow(calls, j, cap);
    AcceptedSplit(calls, 0, i + 1, j);
    InLastOf(Accepted(calls, 0, i), calls[i].nonce, Accepted(calls, i + 1, j), Width(cap));
  }

  /** Every accepted nonce was accepted by some call. */
  lemma {:induction false} AcceptedAt(calls: seq<Call>, k: nat, n: nat) returns (i: nat)
    requires k <= |calls| && n < |Accepted(calls, 0, k)|
    ensures i < k && Accepts(calls, i) && calls[i].nonce == Accepted(calls, 0, k)[n] && |Accepted(calls, 0, i)| == n
  {
    if n < |Accepted(calls, 0, k - 1)| {
      i := AcceptedAt(calls, k - 1, n);
    } else {
      i := k - 1;
    }
  }

  lemma FromTheEnd<T>(history: seq<T>, w: nat, x: T) returns (n: nat)
    requires x in LastOf(history, w)
    ensures n < |history| && history[n] == x && |history| - n <= w
  {
    var tail := LastOf(history, w);
    var j :| 0 <= j < |tail| && tail[j] == x;
    n := |history| - |tail| + j;
  }

  lemma InTheEnd<T>(older: seq<T>, x: T, recent: seq<T>, w: nat)
    requires |recent| < w
    ensures x in LastOf(older + [x] + recent, w)
  {
    var history := older + [x] + recent;
    var i := if |history| <= w then |older| else |older| - (|history| - w);
    assert LastOf(history, w)[i] == x;
  }

  /** With one fixed cap a nonce is in the queue exactly when fewer than a window's worth of
      nonces have been accepted since some acceptance of it. */
  lemma QueuedExactly(calls: seq<Call>, k: nat, cap: nat, nonce: string)
    requires k <= |calls| && forall m :: 0 <= m < k && calls[m].Try? ==> calls[m].cap == cap
    ensures nonce in Queue(calls[..k])
       <==> exists i :: 0 <= i < k && Accepts(calls, i) && calls[i].nonce == nonce && |Accepted(calls, i + 1, k)| < Width(cap)
  {
    FixedCapWindow(calls, k, cap);
    if nonce in Queue(calls[..k]) {
      var n := FromTheEnd(Accepted(calls, 0, k), Width(cap), nonce);
      var i := AcceptedAt(calls, k, n);
      AcceptedSplit(calls, 0, i + 1, k);
      assert |Accepted(calls, i + 1, k)| < Width(cap);
    }
    forall i | 0 <= i < k && Accepts(calls, i) && calls[i].nonce == nonce && |Accepted(calls, i + 1, k)| < Width(cap)
      ensures nonce in Queue(calls[..k])
    {
      AcceptedSplit(calls, 0, i + 1, k);
      InTheEnd(Accepted(calls, 0, i), nonce, Accepted(calls, i + 1, k), Width(cap));
    }
  }

  /** A window of one: the second of two others lets the first nonce in again. */
  lemma ReusedNonce()
    ensures Accepts([Try("a", 1), Try("b", 1), Try("a", 1)], 2)
  {
    var calls := [Try("a", 1), Try("b", 1), Try("a", 1)];
    QueueStep(calls, 0);
    QueueStep(calls, 1);
    assert calls[..0] == [] && Queue(calls[..1]) == ["a"] && Queue(calls[..2]) == ["b"];
  }
}
