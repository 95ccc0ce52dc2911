/** The order in which handlers are taken: events off the ring first in, first out, and a handler that a leaving
    thread puts back before all others in the queue. */
module IoRingStash {
  import opened Common
  import opened IoRing
  import Flow = IoRingFlow
  import opened IoRingProgress

  // ---------------------------------------------------------------- the ring

  /** A step leaves the ring alone, or adds the completed operation at its end, or takes the first event off it,
      into the hands of the thread. */
  predicate InOrder(s: State, t: nat, a: Action, s': State) {
    || s'.cq == s.cq
    || (a.KernelCompletes? && s'.cq == s.cq + [a.op])
    || (s.cq != [] && s'.cq == s.cq[1..] && t < |s'.threads|
        && (s'.threads[t].local == Some(s.cq[0]) || Flow.InHand(s'.threads[t].pc) == Some(s.cq[0])))
  }

  lemma PollInOrder(maxCount: nat, s: State, t: nat, u: nat, s': State)
    requires t < |s.threads| && StepTransfer(maxCount, s, t, u) == Some(s')
    ensures InOrder(s, t, Advance(u), s')
  {}

  /** Every step, of any thread, keeps the order of the ring. */
  lemma RingIsFifo(maxCount: nat, s: State, t: nat, a: Action, s': State)
    requires Step(maxCount, s, t, a) == Some(s')
    ensures InOrder(s, t, a, s')
  {
    if a.Advance? && InTransfer(s.threads[t].pc) && !InLoop(s.threads[t].pc) {
      PollInOrder(maxCount, s, t, a.wake, s');
    }
  }

  // ---------------------------------------------------------------- the queue

  predicate Front(s: State, h: Handler) { s.queue != [] && s.queue[0] == h }

  /** Thread `t` is about to put a handler back. */
  predicate Stashing(s: State, t: nat, a: Action) { a.Advance? && t < |s.threads| && s.threads[t].pc.Stash? }

  /** The handler goes to the front of the queue, and nothing else in the queue changes. */
  lemma StashGoesFirst(maxCount: nat, s: State, t: nat, h: Handler, s': State)
    requires t < |s.threads| && s.threads[t] == Thread(Stash, Some(h)) && Step(maxCount, s, t, Advance(0)) == Some(s')
    ensures Front(s', h) && s'.queue[1..] == s.queue && s'.threads[t] == Thread(Out, None)
  {}

  /** Thread `t` has taken the handler off the front. */
  predicate Takes(s: State, t: nat, s': State, h: Handler) {
    t < |s'.threads| && s'.threads[t].local == Some(h) && s.queue != [] && s'.queue == s.queue[1..]
  }

  lemma LoopFront(s: State, t: nat, s': State, h: Handler)
    requires Front(s, h) && t < |s.threads| && StepLoop(s, t) == Some(s') && !s.threads[t].pc.Stash?
    ensures Front(s', h) || Takes(s, t, s', h)
  {}

  lemma TransferFront(maxCount: nat, s: State, t: nat, u: nat, s': State, h: Handler)
    requires Front(s, h) && t < |s.threads| && StepTransfer(maxCount, s, t, u) == Some(s')
    ensures Front(s', h)
  {}

  lemma WaitFront(s: State, t: nat, s': State, h: Handler)
    requires Front(s, h) && t < |s.threads| && StepWait(s, t) == Some(s')
    ensures Front(s', h) || Takes(s, t, s', h)
  {}

  /** Until another handler is put back, the one at the front stays there, or is the one that is taken. */
  lemma FrontStays(maxCount: nat, s: State, t: nat, a: Action, s': State, h: Handler)
    requires Front(s, h) && Step(maxCount, s, t, a) == Some(s') && !Stashing(s, t, a)
    ensures Front(s', h) || Takes(s, t, s', h)
  {
    if a.Advance? {
      var pc := s.threads[t].pc;
      if InLoop(pc) {
        LoopFront(s, t, s', h);
      } else if InTransfer(pc) {
        TransferFront(maxCount, s, t, a.wake, s', h);
      } else if InWait(pc) {
        WaitFront(s, t, s', h);
      }
    }
  }

  /** The run `q` goes on from `p` without putting a handler back. */
  predicate NoStashSince(p: Path, q: Path)
    requires p.steps <= q.steps && Run(q.maxCount, q.n, q.steps).Some?
    decreases |q.steps|
  {
    |p.steps| < |q.steps| ==>
      var before := q.(steps := q.steps[..|q.steps| - 1]);
      var (t, a) := q.steps[|q.steps| - 1];
      NoStashSince(p, before) && !Stashing(Run(q.maxCount, q.n, before.steps).value, t, a)
  }

  /** After the first `i` steps the handler is at the front. */
  predicate FrontAfter(q: Path, i: nat, h: Handler)
    requires i <= |q.steps|
  {
    Run(q.maxCount, q.n, q.steps[..i]).Some? && Front(Run(q.maxCount, q.n, q.steps[..i]).value, h)
  }

  /** Step `k` takes the handler off the front. */
  predicate TakenAt(q: Path, k: nat, h: Handler)
    requires k < |q.steps|
  {
    var r := Run(q.maxCount, q.n, q.steps[..k]);
    var (t, a) := q.steps[k];
    r.Some? && Step(q.maxCount, r.value, t, a).Some? && Takes(r.value, t, Step(q.maxCount, r.value, t, a).value, h)
  }

  /** From the end of `p` on the handler is at the front until step `k` of `q` takes it, or to the end of `q`. */
  predicate FirstUntil(p: Path, q: Path, k: nat, h: Handler) {
    && |p.steps| <= k <= |q.steps| && (k < |q.steps| ==> TakenAt(q, k, h))
    && forall i :: |p.steps| <= i <= k ==> FrontAfter(q, i, h)
  }

  lemma Longer(p: Path, before: Path, q: Path, k: nat, h: Handler)
    requires FirstUntil(p, before, k, h) && before == q.(steps := before.steps) && before.steps <= q.steps
    requires k < |before.steps|
    ensures FirstUntil(p, q, k, h)
  {
    assert before.steps[..k] == q.steps[..k] && before.steps[k] == q.steps[k];
    forall i | |p.steps| <= i <= k ensures FrontAfter(q, i, h) {
      assert before.steps[..i] == q.steps[..i] && FrontAfter(before, i, h);
    }
  }

  lemma OneStepLonger(p: Path, before: Path, m: State, q: Path, s': State, h: Handler) returns (k: nat)
    requires |q.steps| > 0 && before == q.(steps := q.steps[..|q.steps| - 1]) && |p.steps| <= |before.steps|
    requires Run(q.maxCount, q.n, before.steps) == Some(m) && Run(q.maxCount, q.n, q.steps) == Some(s')
    requires FirstUntil(p, before, |before.steps|, h)
    requires var (t, a) := q.steps[|q.steps| - 1]; !Stashing(m, t, a)
    ensures FirstUntil(p, q, k, h)
  {
    var last := |q.steps| - 1;
    var (t, a) := q.steps[last];
    assert before.steps[..last] == before.steps && q.steps[..last + 1] == q.steps;
    assert FrontAfter(before, last, h);
    FrontStays(q.maxCount, m, t, a, s', h);
    k := if Front(s', h) then last + 1 else last;
    forall i | |p.steps| <= i <= k ensures FrontAfter(q, i, h) {
      if i <= last { assert before.steps[..i] == q.steps[..i] && FrontAfter(before, i, h); }
    }
  }

  /** A handler that was put back is the next one taken off the queue, by whatever thread, if no other is put back
      in between. */
  lemma {:induction false} StashedIsNext(p: Path, s: State, q: Path, s': State, h: Handler) returns (k: nat)
    requires Leads(p, s) && Leads(q, s') && q == p.(steps := q.steps) && p.steps <= q.steps
    requires Front(s, h) && NoStashSince(p, q)
    ensures FirstUntil(p, q, k, h)
    decreases |q.steps|
  {
    if |q.steps| == |p.steps| {
      k := |p.steps|;
      assert q.steps[..k] == p.steps;
    } else {
      var before := q.(steps := q.steps[..|q.steps| - 1]);
      var m := Run(q.maxCount, q.n, before.steps).value;
      k := StashedIsNext(p, s, before, m, h);
      if k < |before.steps| {
        Longer(p, before, q, k, h);
      } else {
        k := OneStepLonger(p, before, m, q, s', h);
      }
    }
  }
}
