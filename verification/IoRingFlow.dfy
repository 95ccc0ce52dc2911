/** Where completion handlers are, and what the work count counts, in every run of the loop. */
module IoRingFlow {
  import opened Common
  import opened Tally
  import opened IoRing

  predicate CalledFromHandler(pc: Pc) {
    pc.Invoking? || ((pc.WakeLock? || pc.WakeNotify? || pc.WakeFd? || pc.SubmitRing?) && pc.back == InHandler)
  }

  /** Which program points have a handler in the local variable. */
  predicate LocalOk(th: Thread) {
    && (CalledFromHandler(th.pc) || th.pc.Push? || th.pc.Stash? ==> th.local.Some?)
    && (th.pc.Peek? ==> (th.local.Some? <==> th.pc.count > 0))
    && (th.local.Some? ==> CalledFromHandler(th.pc) || th.pc.Push? || th.pc.Stash? || th.pc.Peek? || th.pc.EvLeave?
                           || th.pc.TopWork? || th.pc.TopReset? || th.pc.Body?)
  }

  predicate LocalInv(s: State) { forall t :: 0 <= t < |s.threads| ==> LocalOk(s.threads[t]) }

  function InHand(pc: Pc): Option<Handler> {
    if pc.Push? || pc.PushNotify? then Some(pc.next) else if pc.SubmitRing? then Some(pc.op) else None
  }

  function HeldCount(th: Thread): nat { AsNat(th.local.Some?) + AsNat(InHand(th.pc).Some?) }

  function Finishing(th: Thread): nat { AsNat(th.pc.Finish?) }

  function HeldBy(h: Handler): Thread -> nat {
    (th: Thread) => AsNat(th.local == Some(h)) + AsNat(InHand(th.pc) == Some(h))
  }

  function RunningNow(h: Handler): Thread -> nat {
    (th: Thread) => AsNat(CalledFromHandler(th.pc) && th.local == Some(h))
  }

  /** The number of places handler h is in: kernel, completion ring, queue, a thread's hands, or finished. */
  function Places(s: State, h: Handler): nat {
    AsNat(h in s.kernel) + multiset(s.cq)[h] + multiset(s.queue)[h] + Sum(HeldBy(h), s.threads) + AsNat(h in s.done)
  }

  function Unfinished(s: State): nat {
    |s.kernel| + |s.cq| + |s.queue| + Sum(HeldCount, s.threads) + Sum(Finishing, s.threads)
  }

  predicate WorkInv(s: State) { s.work == s.explicitWork + Unfinished(s) }

  ghost predicate FlowAt(s: State, h: Handler) {
    && Places(s, h) == AsNat(h < s.next)
    && multiset(s.invoked)[h] == AsNat(h in s.done) + Sum(RunningNow(h), s.threads)
  }

  ghost predicate FlowInv(s: State) {
    LocalInv(s) && WorkInv(s) && forall h: Handler :: FlowAt(s, h)
  }

  // ---------------------------------------------------------------- bookkeeping

  lemma PopFront(q: seq<Handler>, h: Handler)
    requires q != []
    ensures multiset(q)[h] == multiset(q[1..])[h] + AsNat(q[0] == h)
  {
    assert q == [q[0]] + q[1..];
  }

  lemma ThreadTallies(threads: seq<Thread>, t: nat, th: Thread, h: Handler)
    requires t < |threads|
    ensures Sum(HeldCount, threads[t := th]) + HeldCount(threads[t]) == Sum(HeldCount, threads) + HeldCount(th)
    ensures Sum(Finishing, threads[t := th]) + Finishing(threads[t]) == Sum(Finishing, threads) + Finishing(th)
    ensures Sum(HeldBy(h), threads[t := th]) + HeldBy(h)(threads[t]) == Sum(HeldBy(h), threads) + HeldBy(h)(th)
    ensures Sum(RunningNow(h), threads[t := th]) + RunningNow(h)(threads[t])
            == Sum(RunningNow(h), threads) + RunningNow(h)(th)
  {
    SumUpdate(HeldCount, threads, t, th);
    SumUpdate(Finishing, threads, t, th);
    SumUpdate(HeldBy(h), threads, t, th);
    SumUpdate(RunningNow(h), threads, t, th);
  }

  /** The handler that leaves one place arrives in exactly one other. */
  ghost predicate Conserves(s: State, t: nat, s': State, th: Thread, h: Handler)
    requires t < |s.threads|
  {
    var th0 := s.threads[t];
    && AsNat(h in s'.kernel) + multiset(s'.cq)[h] + multiset(s'.queue)[h] + HeldBy(h)(th)
       + AsNat(h in s'.done) + AsNat(h < s.next)
       == AsNat(h in s.kernel) + multiset(s.cq)[h] + multiset(s.queue)[h] + HeldBy(h)(th0)
          + AsNat(h in s.done) + AsNat(h < s'.next)
    && multiset(s'.invoked)[h] + AsNat(h in s.done) + RunningNow(h)(th0)
       == multiset(s.invoked)[h] + AsNat(h in s'.done) + RunningNow(h)(th)
  }

  lemma OneThreadFlow(s: State, t: nat, s': State, th: Thread)
    requires FlowInv(s) && t < |s.threads| && s'.threads == s.threads[t := th] && LocalOk(th)
    requires s'.work - s'.explicitWork + |s.kernel| + |s.cq| + |s.queue|
             + HeldCount(s.threads[t]) + Finishing(s.threads[t])
             == s.work - s.explicitWork + |s'.kernel| + |s'.cq| + |s'.queue| + HeldCount(th) + Finishing(th)
    requires forall h: Handler :: Conserves(s, t, s', th, h)
    ensures FlowInv(s')
  {
    ThreadTallies(s.threads, t, th, 0);
    forall h: Handler ensures FlowAt(s', h) {
      assert FlowAt(s, h) && Conserves(s, t, s', th, h);
      ThreadTallies(s.threads, t, th, h);
    }
  }

  // ---------------------------------------------------------------- steps

  /** A step of thread `t` that moves no handler. */
  predicate Quiet(s: State, t: nat, s': State) {
    && t < |s.threads| == |s'.threads| && s'.threads == s.threads[t := s'.threads[t]] && LocalOk(s'.threads[t])
    && s'.kernel == s.kernel && s'.cq == s.cq && s'.queue == s.queue && s'.done == s.done && s'.next == s.next
    && s'.invoked == s.invoked && s'.work - s'.explicitWork == s.work - s.explicitWork
    && var th0, th := s.threads[t], s'.threads[t];
       && th.local == th0.local && InHand(th.pc) == InHand(th0.pc)
       && Finishing(th) == Finishing(th0) && CalledFromHandler(th.pc) == CalledFromHandler(th0.pc)
  }

  lemma QuietFlow(s: State, t: nat, s': State)
    requires FlowInv(s) && Quiet(s, t, s')
    ensures FlowInv(s')
  {
    forall h: Handler ensures Conserves(s, t, s', s'.threads[t], h) {}
    OneThreadFlow(s, t, s', s'.threads[t]);
  }

  lemma HandlerNotDone(s: State, t: nat)
    requires FlowInv(s) && t < |s.threads| && s.threads[t].local.Some?
    ensures s.threads[t].local.value !in s.done
  {
    var h := s.threads[t].local.value;
    assert FlowAt(s, h);
    SumAtLeast(HeldBy(h), s.threads, t);
  }

  /** Taking a handler off the queue into the local variable. */
  lemma PopFlow(s: State, t: nat, s': State, lock: Option<nat>)
    requires FlowInv(s) && t < |s.threads| && s.queue != [] && s.threads[t].local.None?
    requires InHand(s.threads[t].pc).None? && !s.threads[t].pc.Finish?
    requires s' == Set(s.(lock := lock, queue := s.queue[1..]), t, TopWork, Some(s.queue[0]))
    ensures FlowInv(s')
  {
    var th := Thread(TopWork, Some(s.queue[0]));
    forall h: Handler ensures Conserves(s, t, s', th, h) { PopFront(s.queue, h); }
    OneThreadFlow(s, t, s', th);
  }

  lemma InvokeFlow(s: State, t: nat, s': State)
    requires FlowInv(s) && t < |s.threads| && s.threads[t].pc == Body && s.threads[t].local.Some?
    requires s' == Go(s.(invoked := s.invoked + [s.threads[t].local.value]), t, Invoking)
    ensures FlowInv(s')
  {
    forall h: Handler ensures Conserves(s, t, s', s'.threads[t], h) {}
    OneThreadFlow(s, t, s', s'.threads[t]);
  }

  lemma HandlerReturnsFlow(s: State, t: nat, s': State)
    requires FlowInv(s) && t < |s.threads| && s.threads[t].pc == Invoking && s.threads[t].local.Some?
    requires s' == Set(s.(done := s.done + {s.threads[t].local.value}), t, Finish, None)
    ensures FlowInv(s')
  {
    HandlerNotDone(s, t);
    forall h: Handler ensures Conserves(s, t, s', s'.threads[t], h) {}
    OneThreadFlow(s, t, s', s'.threads[t]);
  }

  lemma FinishFlow(s: State, t: nat, s': State)
    requires FlowInv(s) && t < |s.threads| && s.threads[t].pc == Finish && s' == Decrement(s, t, AfterInvoke)
    ensures FlowInv(s')
  {
    assert LocalOk(s.threads[t]);
    forall h: Handler ensures Conserves(s, t, s', s'.threads[t], h) {}
    OneThreadFlow(s, t, s', s'.threads[t]);
  }

  lemma StashFlow(s: State, t: nat, s': State)
    requires FlowInv(s) && t < |s.threads| && s.threads[t].pc == Stash && s.threads[t].local.Some?
    requires s' == Set(s.(queue := [s.threads[t].local.value] + s.queue), t, Out, None)
    ensures FlowInv(s')
  {
    forall h: Handler ensures Conserves(s, t, s', s'.threads[t], h) {}
    OneThreadFlow(s, t, s', s'.threads[t]);
  }

  lemma LoopFlow(s: State, t: nat, s': State)
    requires FlowInv(s) && t < |s.threads| && StepLoop(s, t) == Some(s')
    ensures FlowInv(s')
  {
    var th := s.threads[t];
    assert LocalOk(th);
    if th.pc.Body? && th.local.Some? {
      InvokeFlow(s, t, s');
    } else if th.pc.Body? && s.queue != [] {
      PopFlow(s, t, s', s.lock);
    } else if th.pc.Invoking? {
      HandlerReturnsFlow(s, t, s');
    } else if th.pc.Finish? {
      FinishFlow(s, t, s');
    } else if th.pc.Stash? {
      StashFlow(s, t, s');
    } else {
      QuietFlow(s, t, s');
    }
  }

  lemma WaitIsQuiet(s: State, t: nat, s': State)
    requires t < |s.threads| && LocalOk(s.threads[t]) && StepWait(s, t) == Some(s') && s'.queue == s.queue
    requires var pc := s.threads[t].pc; pc.WaitLock? || pc.CvWait? || pc.WaitPop?
    ensures Quiet(s, t, s')
  {
    assert LocalOk(s'.threads[t]);
  }

  lemma CheckIsQuiet(s: State, t: nat, s': State)
    requires t < |s.threads| && LocalOk(s.threads[t]) && StepWait(s, t) == Some(s')
    requires var pc := s.threads[t].pc; pc.CheckWork? || pc.CheckReset? || pc.CheckQueue? || pc.CheckEvent?
    ensures Quiet(s, t, s')
  {
    assert LocalOk(s'.threads[t]);
  }

  lemma WaitFlow(s: State, t: nat, s': State)
    requires FlowInv(s) && t < |s.threads| && StepWait(s, t) == Some(s')
    ensures FlowInv(s')
  {
    var pc := s.threads[t].pc;
    assert LocalOk(s.threads[t]);
    if pc.WaitPop? && s.queue != [] {
      PopFlow(s, t, s', None);
    } else if pc.CheckWork? || pc.CheckReset? || pc.CheckQueue? || pc.CheckEvent? {
      CheckIsQuiet(s, t, s');
      QuietFlow(s, t, s');
    } else {
      WaitIsQuiet(s, t, s');
      QuietFlow(s, t, s');
    }
  }

  /** Taking a completion event off the ring, into the local variable or next to it. */
  lemma TakeEventFlow(s: State, t: nat, s': State)
    requires FlowInv(s) && t < |s.threads| && s.threads[t].pc.Peek? && s.cq != []
    requires var pc, h := s.threads[t].pc, s.cq[0];
             s' == if s.threads[t].local.Some? then Go(s.(cq := s.cq[1..]), t, Push(pc.second, pc.count, h))
                   else Set(s.(cq := s.cq[1..]), t, Peek(pc.second, pc.count + 1), Some(h))
    ensures FlowInv(s')
  {
    assert LocalOk(s.threads[t]);
    forall h: Handler ensures Conserves(s, t, s', s'.threads[t], h) { PopFront(s.cq, h); }
    OneThreadFlow(s, t, s', s'.threads[t]);
  }

  lemma PushFlow(s: State, t: nat, s': State)
    requires FlowInv(s) && t < |s.threads| && s.threads[t].pc.Push? && s.threads[t].local.Some?
    requires var pc := s.threads[t].pc;
             s' == Set(s.(queue := s.queue + [s.threads[t].local.value]), t,
                       PushNotify(pc.second, pc.count, pc.next), None)
    ensures FlowInv(s')
  {
    forall h: Handler ensures Conserves(s, t, s', s'.threads[t], h) {}
    OneThreadFlow(s, t, s', s'.threads[t]);
  }

  lemma PushedFlow(s: State, t: nat, s': State)
    requires FlowInv(s) && t < |s.threads| && s.threads[t].pc.PushNotify?
    requires var pc := s.threads[t].pc; s' == Set(s, t, Peek(pc.second, pc.count + 1), Some(pc.next))
    ensures FlowInv(s')
  {
    assert LocalOk(s.threads[t]);
    forall h: Handler ensures Conserves(s, t, s', s'.threads[t], h) {}
    OneThreadFlow(s, t, s', s'.threads[t]);
  }

  lemma NotifyFlow(s: State, u: nat, s': State)
    requires FlowInv(s) && NotifyOne(s, u) == Some(s')
    ensures FlowInv(s')
  {
    if s' != s {
      assert LocalOk(s.threads[u]);
      QuietFlow(s, u, s');
    }
  }

  lemma EventFdIsQuiet(maxCount: nat, s: State, t: nat, u: nat, s': State)
    requires t < |s.threads| && LocalOk(s.threads[t]) && StepTransfer(maxCount, s, t, u) == Some(s')
    requires var pc := s.threads[t].pc; pc.EvRead? || pc.EvWork? || pc.EvReset? || pc.EvWrite?
    ensures Quiet(s, t, s')
  {
    assert LocalOk(s'.threads[t]);
  }

  lemma TransferIsQuiet(maxCount: nat, s: State, t: nat, u: nat, s': State)
    requires t < |s.threads| && LocalOk(s.threads[t]) && StepTransfer(maxCount, s, t, u) == Some(s') && s'.cq == s.cq
    requires var pc := s.threads[t].pc; pc.Exchange? || pc.Peek? || pc.EvLeave? || pc.LeaveLock?
    ensures Quiet(s, t, s')
  {
    assert LocalOk(s'.threads[t]);
  }

  lemma LeaveFlow(s: State, t: nat, u: nat, s': State)
    requires FlowInv(s) && t < |s.threads| && s.threads[t].pc.LeaveNotify?
    requires NotifyThen(s, t, u, TopWork, s.threads[t].local) == Some(s')
    ensures FlowInv(s')
  {
    var m := Set(s, t, TopWork, s.threads[t].local);
    assert LocalOk(s.threads[t]);
    QuietFlow(s, t, m);
    NotifyFlow(m, u, s');
  }

  lemma TransferFlow(maxCount: nat, s: State, t: nat, u: nat, s': State)
    requires FlowInv(s) && t < |s.threads| && StepTransfer(maxCount, s, t, u) == Some(s')
    ensures FlowInv(s')
  {
    var pc := s.threads[t].pc;
    assert LocalOk(s.threads[t]);
    if pc.Peek? && pc.count < maxCount && s.cq != [] {
      TakeEventFlow(s, t, s');
    } else if pc.Push? {
      PushFlow(s, t, s');
    } else if pc.PushNotify? {
      var m := Set(s, t, Peek(pc.second, pc.count + 1), Some(pc.next));
      PushedFlow(s, t, m);
      NotifyFlow(m, u, s');
    } else if pc.LeaveNotify? {
      LeaveFlow(s, t, u, s');
    } else if pc.EvRead? || pc.EvWork? || pc.EvReset? || pc.EvWrite? {
      EventFdIsQuiet(maxCount, s, t, u, s');
      QuietFlow(s, t, s');
    } else {
      TransferIsQuiet(maxCount, s, t, u, s');
      QuietFlow(s, t, s');
    }
  }

  // ---------------------------------------------------------------- wake_all and callers

  lemma WakingMovesNothing(threads: seq<Thread>, h: Handler)
    ensures Sum(HeldCount, WakeEvery(threads)) == Sum(HeldCount, threads)
    ensures Sum(Finishing, WakeEvery(threads)) == Sum(Finishing, threads)
    ensures Sum(HeldBy(h), WakeEvery(threads)) == Sum(HeldBy(h), threads)
    ensures Sum(RunningNow(h), WakeEvery(threads)) == Sum(RunningNow(h), threads)
  {
    SumAgrees(HeldCount, WakeEvery(threads), threads);
    SumAgrees(Finishing, WakeEvery(threads), threads);
    SumAgrees(HeldBy(h), WakeEvery(threads), threads);
    SumAgrees(RunningNow(h), WakeEvery(threads), threads);
  }

  lemma NotifyAllFlow(s: State, s': State)
    requires FlowInv(s) && s' == s.(threads := WakeEvery(s.threads))
    ensures FlowInv(s')
  {
    WakingMovesNothing(s.threads, 0);
    forall t | 0 <= t < |s'.threads| ensures LocalOk(s'.threads[t]) {
      assert LocalOk(s.threads[t]);
    }
    forall h: Handler ensures FlowAt(s', h) {
      assert FlowAt(s, h);
      WakingMovesNothing(s.threads, h);
    }
  }

  lemma SubmitRingFlow(s: State, t: nat, s': State)
    requires FlowInv(s) && t < |s.threads| && s.threads[t].pc.SubmitRing?
    requires s' == Go(s.(kernel := s.kernel + {s.threads[t].pc.op}), t, Return(s.threads[t].pc.back))
    ensures FlowInv(s')
  {
    var op := s.threads[t].pc.op;
    assert LocalOk(s.threads[t]);
    assert op !in s.kernel by {
      assert FlowAt(s, op);
      SumAtLeast(HeldBy(op), s.threads, t);
    }
    forall h: Handler ensures Conserves(s, t, s', s'.threads[t], h) {}
    OneThreadFlow(s, t, s', s'.threads[t]);
  }

  lemma WakeFlow(s: State, t: nat, s': State)
    requires FlowInv(s) && t < |s.threads| && StepWake(s, t) == Some(s')
    ensures FlowInv(s')
  {
    var pc := s.threads[t].pc;
    assert LocalOk(s.threads[t]);
    if pc.SubmitRing? {
      SubmitRingFlow(s, t, s');
    } else if pc.WakeNotify? {
      var m := Go(s, t, WakeFd(pc.back));
      QuietFlow(s, t, m);
      NotifyAllFlow(m, s');
    } else {
      QuietFlow(s, t, s');
    }
  }

  lemma SubmitFlow(s: State, t: nat, back: Back, s': State)
    requires FlowInv(s) && t < |s.threads| && Call.requires(s, t, Submit, back) && Call(s, t, Submit, back) == Some(s')
    requires (s.threads[t].pc == Out && back == Outside) || (s.threads[t].pc == Invoking && back == InHandler)
    ensures FlowInv(s')
  {
    assert LocalOk(s.threads[t]);
    forall h: Handler ensures Conserves(s, t, s', s'.threads[t], h) {}
    OneThreadFlow(s, t, s', s'.threads[t]);
  }

  lemma CallIsQuiet(s: State, t: nat, a: Action, back: Back, s': State)
    requires t < |s.threads| && LocalOk(s.threads[t]) && Call(s, t, a, back) == Some(s') && !a.Submit?
    requires (s.threads[t].pc == Out && back == Outside) || (s.threads[t].pc == Invoking && back == InHandler)
    ensures Quiet(s, t, s')
  {}

  lemma CallFlow(s: State, t: nat, a: Action, back: Back, s': State)
    requires FlowInv(s) && t < |s.threads| && Call(s, t, a, back) == Some(s')
    requires (s.threads[t].pc == Out && back == Outside) || (s.threads[t].pc == Invoking && back == InHandler)
    ensures FlowInv(s')
  {
    assert LocalOk(s.threads[t]);
    if a.Submit? {
      SubmitFlow(s, t, back, s');
    } else {
      CallIsQuiet(s, t, a, back, s');
      QuietFlow(s, t, s');
    }
  }

  lemma CompletionFlow(s: State, op: Handler, s': State)
    requires FlowInv(s) && op in s.kernel
    requires s' == s.(kernel := s.kernel - {op}, cq := s.cq + [op], fd := s.fd + 1)
    ensures FlowInv(s')
  {
    forall h: Handler ensures FlowAt(s', h) { assert FlowAt(s, h); }
  }

  lemma StepFlow(maxCount: nat, s: State, t: nat, a: Action, s': State)
    requires FlowInv(s) && Step(maxCount, s, t, a) == Some(s')
    ensures FlowInv(s')
  {
    if a.KernelCompletes? {
      CompletionFlow(s, a.op, s');
    } else if a.Advance? {
      var pc := s.threads[t].pc;
      if InLoop(pc) {
        LoopFlow(s, t, s');
      } else if InTransfer(pc) {
        TransferFlow(maxCount, s, t, a.wake, s');
      } else if InWait(pc) {
        WaitFlow(s, t, s');
      } else {
        WakeFlow(s, t, s');
      }
    } else if a.SpuriousWake? || a.EnterRun? {
      assert LocalOk(s.threads[t]);
      QuietFlow(s, t, s');
    } else {
      CallFlow(s, t, a, if s.threads[t].pc == Out then Outside else InHandler, s');
    }
  }

  lemma InitFlow(n: nat)
    ensures FlowInv(Init(n))
  {
    var s := Init(n);
    SumZero(HeldCount, s.threads);
    SumZero(Finishing, s.threads);
    forall h: Handler ensures FlowAt(s, h) {
      SumZero(HeldBy(h), s.threads);
      SumZero(RunningNow(h), s.threads);
    }
  }

  lemma {:induction false} RunsConserveHandlers(maxCount: nat, n: nat, steps: seq<(nat, Action)>)
    requires Run(maxCount, n, steps).Some?
    ensures FlowInv(Run(maxCount, n, steps).value)
  {
    if |steps| == 0 {
      InitFlow(n);
    } else {
      RunsConserveHandlers(maxCount, n, steps[..|steps| - 1]);
      var (t, a) := steps[|steps| - 1];
      StepFlow(maxCount, Run(maxCount, n, steps[..|steps| - 1]).value, t, a, Run(maxCount, n, steps).value);
    }
  }

  /** Every submitted handler is in exactly one place and no other handler is anywhere; no handler is
      invoked twice, and one that is finished was invoked. */
  lemma HandlersAreConserved(maxCount: nat, n: nat, steps: seq<(nat, Action)>, h: Handler)
    requires Run(maxCount, n, steps).Some?
    ensures var s := Run(maxCount, n, steps).value;
            && Places(s, h) == AsNat(h < s.next)
            && multiset(s.invoked)[h] <= 1
            && (h in s.done ==> multiset(s.invoked)[h] == 1)
  {
    RunsConserveHandlers(maxCount, n, steps);
    var s := Run(maxCount, n, steps).value;
    assert FlowAt(s, h);
    SumMonotone(RunningNow(h), HeldBy(h), s.threads);
  }

  /** A thread leaves the loop for lack of work only when no handler is left anywhere and the user holds
      no work of its own. */
  lemma NoEarlyExit(maxCount: nat, n: nat, steps: seq<(nat, Action)>)
    requires Run(maxCount, n, steps).Some?
    ensures var s := Run(maxCount, n, steps).value;
            && s.work >= 0
            && (s.work == 0 ==> s.explicitWork == 0 && forall h: Handler :: h < s.next ==> h in s.done)
  {
    RunsConserveHandlers(maxCount, n, steps);
    var s := Run(maxCount, n, steps).value;
    if s.work == 0 {
      SumZero(HeldCount, s.threads);
      forall h: Handler | h < s.next ensures h in s.done {
        assert FlowAt(s, h);
        SumZero(HeldBy(h), s.threads);
      }
    }
  }
}
