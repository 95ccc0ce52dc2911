/** No lost wakeup: what a thread that waits, or is about to wait, can rely on in every run. */
module IoRingWake {
  import opened Common
  import opened Tally
  import opened IoRing
  import Flow = IoRingFlow

  function AtWakeLock(th: Thread): nat { AsNat(th.pc.WakeLock?) }

  function AtWakeNotify(th: Thread): nat { AsNat(th.pc.WakeNotify?) }

  function AtWakeFd(th: Thread): nat { AsNat(th.pc.WakeFd?) }

  /** Has read the event fd and not decided yet whether to write it back, or has not yet done so. */
  function HoldsToken(th: Thread): nat { AsNat(th.pc.EvWork? || th.pc.EvReset? || th.pc.EvWrite?) }

  function InEvent(th: Thread): nat { AsNat(InEventRegion(th.pc)) }

  predicate CalledFromOutside(pc: Pc) {
    (pc.WakeLock? || pc.WakeNotify? || pc.WakeFd? || pc.SubmitRing?) && pc.back == Outside
  }

  /** Inside `run`, not asleep on the condition variable and not on the way out. */
  function Awake(th: Thread): nat {
    AsNat(!th.pc.Out? && !th.pc.Stash? && !th.pc.Blocked? && !CalledFromOutside(th.pc))
  }

  /** Everything a waiting thread's safety depends on. */
  datatype Signals = Signals(work: int, needsReset: bool, fd: nat,
                             atLock: nat, notifying: nat, writing: nat, tokens: nat, awake: nat)

  function SignalsOf(s: State): Signals {
    Signals(s.work, s.needsReset, s.fd, Sum(AtWakeLock, s.threads), Sum(AtWakeNotify, s.threads),
            Sum(AtWakeFd, s.threads), Sum(HoldsToken, s.threads), Sum(Awake, s.threads))
  }

  predicate Running(g: Signals) { g.work != 0 && !g.needsReset }

  /** Some `wake_all` has not yet notified the condition variable. */
  predicate Notices(g: Signals) { g.atLock > 0 || g.notifying > 0 }

  /** The event fd is readable, or some `wake_all` will make it so. */
  predicate Ready(g: Signals) { g.fd > 0 || Notices(g) || g.writing > 0 }

  predicate Alarm(g: Signals) { Ready(g) || g.tokens > 0 }

  /** The assertion at each program point of `run`. */
  predicate ThreadOk(g: Signals, pc: Pc) {
    && (pc.Blocked? ==> (Running(g) || Notices(g)) && (g.awake > 0 || Notices(g)))
    && (pc.CvWait? ==> g.awake >= 2 || g.atLock > 0)
    && (pc.CheckReset? ==> g.work != 0 || g.atLock > 0)
    && (pc.CheckQueue? || pc.CheckEvent? || pc.CvWait? ==> Running(g) || g.atLock > 0)
    && (pc.TopReset? ==> g.work != 0 || Alarm(g))
    && (pc.Body? || pc.Exchange? || pc == Peek(false, 0) || pc.EvRead? ==> Running(g) || Alarm(g))
    && (pc.EvReset? ==> g.work != 0 || Ready(g))
  }

  /** `queue_mutex_` is held exactly by the thread inside the critical section. */
  predicate LockInv(s: State) {
    && (s.lock.Some? ==> s.lock.value < |s.threads|)
    && forall t :: 0 <= t < |s.threads| ==> (InCritical(s.threads[t].pc) <==> s.lock == Some(t))
  }

  /** `event_wait_` is true exactly while one thread polls the ring. */
  predicate EventInv(s: State) { Sum(InEvent, s.threads) == AsNat(s.eventWait) }

  predicate ThreadsOk(s: State) {
    var g := SignalsOf(s);
    forall t :: 0 <= t < |s.threads| ==> ThreadOk(g, s.threads[t].pc)
  }

  predicate WakeInv(s: State) { LockInv(s) && EventInv(s) && ThreadsOk(s) }

  // ---------------------------------------------------------------- steps of one thread

  /** What a step of one thread may do to the signals without breaking another thread's assertion.
      With `lockFree` no other thread is in the critical section, with `alone` none polls the ring. */
  predicate Keeps(g: Signals, g': Signals, lockFree: bool, alone: bool) {
    && (g.work != 0 && g'.work == 0 ==> g'.atLock > 0)
    && (Running(g) && !Running(g') ==> g'.atLock > 0)
    && (g.atLock > 0 ==> g'.atLock > 0 || lockFree)
    && (Notices(g) ==> Notices(g'))
    && (Alarm(g) ==> Alarm(g') || Running(g'))
    && (Ready(g) ==> Ready(g') || alone)
    && (g.awake > 0 ==> g'.awake > 0 || Notices(g') || !Running(g'))
    && (g.awake >= 2 ==> g'.awake >= 2 || g'.atLock > 0 || lockFree || !Running(g'))
  }

  lemma KeepsOthers(g: Signals, g': Signals, lockFree: bool, alone: bool, other: Pc)
    requires Keeps(g, g', lockFree, alone) && ThreadOk(g, other)
    requires (lockFree ==> !InCritical(other)) && (alone ==> !InEventRegion(other))
    ensures ThreadOk(g', other)
  {}

  /** How the tallies move when one thread goes from `th` to `th'`. */
  predicate Moves(g: Signals, g': Signals, th: Thread, th': Thread) {
    && g'.atLock + AtWakeLock(th) == g.atLock + AtWakeLock(th')
    && g'.notifying + AtWakeNotify(th) == g.notifying + AtWakeNotify(th')
    && g'.writing + AtWakeFd(th) == g.writing + AtWakeFd(th')
    && g'.tokens + HoldsToken(th) == g.tokens + HoldsToken(th')
    && g'.awake + Awake(th) == g.awake + Awake(th')
  }

  lemma Tallies(s: State, t: nat, s': State, th': Thread)
    requires t < |s.threads| && s'.threads == s.threads[t := th']
    ensures Moves(SignalsOf(s), SignalsOf(s'), s.threads[t], th')
    ensures Sum(InEvent, s'.threads) + InEvent(s.threads[t]) == Sum(InEvent, s.threads) + InEvent(th')
  {
    SumUpdate(AtWakeLock, s.threads, t, th');
    SumUpdate(AtWakeNotify, s.threads, t, th');
    SumUpdate(AtWakeFd, s.threads, t, th');
    SumUpdate(HoldsToken, s.threads, t, th');
    SumUpdate(Awake, s.threads, t, th');
    SumUpdate(InEvent, s.threads, t, th');
  }

  predicate Counted(g: Signals, th: Thread) {
    && AtWakeLock(th) <= g.atLock && AtWakeNotify(th) <= g.notifying && AtWakeFd(th) <= g.writing
    && HoldsToken(th) <= g.tokens && Awake(th) <= g.awake
  }

  lemma Present(s: State, t: nat)
    requires t < |s.threads|
    ensures Counted(SignalsOf(s), s.threads[t])
  {
    SumAtLeast(AtWakeLock, s.threads, t);
    SumAtLeast(AtWakeNotify, s.threads, t);
    SumAtLeast(AtWakeFd, s.threads, t);
    SumAtLeast(HoldsToken, s.threads, t);
    SumAtLeast(Awake, s.threads, t);
  }

  lemma OnlyPoller(s: State, t: nat, u: nat)
    requires EventInv(s) && t < |s.threads| && u < |s.threads| && t != u && InEventRegion(s.threads[t].pc)
    ensures !InEventRegion(s.threads[u].pc)
  {
    if InEventRegion(s.threads[u].pc) {
      SumAtLeastTwo(InEvent, s.threads, if t < u then t else u, if t < u then u else t);
    }
  }

  /** The lock as thread `t` leaves it. */
  predicate LockStep(s: State, t: nat, s': State, pc': Pc)
    requires t < |s.threads|
  {
    || (s'.lock == s.lock && InCritical(pc') == InCritical(s.threads[t].pc))
    || (s.lock.None? && s'.lock == Some(t) && InCritical(pc'))
    || (s.lock == Some(t) && s'.lock.None? && !InCritical(pc'))
  }

  /** What a step of thread `t` from `s` to `s'` must satisfy, the signals going from `g` to `g'`. */
  predicate GoodStep(s: State, t: nat, s': State, g: Signals, g': Signals)
    requires t < |s.threads| == |s'.threads|
  {
    var pc, pc' := s.threads[t].pc, s'.threads[t].pc;
    && LockStep(s, t, s', pc')
    && AsNat(s'.eventWait) + AsNat(InEventRegion(pc)) == AsNat(s.eventWait) + AsNat(InEventRegion(pc'))
    && Keeps(g, g', s.lock.None? || s.lock == Some(t), InEventRegion(pc))
    && ThreadOk(g', pc')
  }

  /** What is known of the signals before and after a step of thread `t`. */
  predicate Observed(s: State, t: nat, s': State, g: Signals, g': Signals)
    requires t < |s.threads| == |s'.threads|
  {
    && g.work == s.work && g.needsReset == s.needsReset && g.fd == s.fd
    && g'.work == s'.work && g'.needsReset == s'.needsReset && g'.fd == s'.fd
    && Counted(g, s.threads[t]) && Moves(g, g', s.threads[t], s'.threads[t])
    && ThreadOk(g, s.threads[t].pc)
    && (InCritical(s.threads[t].pc) <==> s.lock == Some(t))
    && (InEventRegion(s.threads[t].pc) ==> s.eventWait)
  }

  lemma Observe(s: State, t: nat, s': State)
    requires WakeInv(s) && t < |s.threads| == |s'.threads| && s'.threads == s.threads[t := s'.threads[t]]
    ensures Observed(s, t, s', SignalsOf(s), SignalsOf(s'))
  {
    Tallies(s, t, s', s'.threads[t]);
    Present(s, t);
    if InEventRegion(s.threads[t].pc) {
      SumAtLeast(InEvent, s.threads, t);
    }
  }

  lemma OneThreadWake(s: State, t: nat, s': State)
    requires WakeInv(s) && t < |s.threads| == |s'.threads| && s'.threads == s.threads[t := s'.threads[t]]
    requires GoodStep(s, t, s', SignalsOf(s), SignalsOf(s'))
    ensures WakeInv(s')
  {
    Tallies(s, t, s', s'.threads[t]);
    forall u | 0 <= u < |s'.threads| && u != t ensures ThreadOk(SignalsOf(s'), s'.threads[u].pc) {
      if InEventRegion(s.threads[t].pc) { OnlyPoller(s, t, u); }
      KeepsOthers(SignalsOf(s), SignalsOf(s'), s.lock.None? || s.lock == Some(t), InEventRegion(s.threads[t].pc),
                  s.threads[u].pc);
    }
  }

  // ---------------------------------------------------------------- run

  lemma LoopIsGood(s: State, t: nat, s': State, g: Signals, g': Signals)
    requires t < |s.threads| && StepLoop(s, t) == Some(s') && Observed(s, t, s', g, g')
    requires var pc := s.threads[t].pc; pc.Invoking? || pc.Stash?
    ensures GoodStep(s, t, s', g, g')
  {}

  lemma BodyIsGood(s: State, t: nat, s': State, g: Signals, g': Signals)
    requires t < |s.threads| && StepLoop(s, t) == Some(s') && Observed(s, t, s', g, g') && s.threads[t].pc.Body?
    ensures GoodStep(s, t, s', g, g')
  {}

  /** A thread leaves the loop only after seeing that it cannot run. */
  lemma TopIsGood(s: State, t: nat, s': State, g: Signals, g': Signals)
    requires t < |s.threads| && StepLoop(s, t) == Some(s') && Observed(s, t, s', g, g')
    requires var pc := s.threads[t].pc; pc.TopWork? || pc.TopReset?
    ensures GoodStep(s, t, s', g, g')
  {}

  /** The last decrement of the work count leads to `wake_all`. */
  lemma DecrementIsGood(s: State, t: nat, back: Back, s': State, g: Signals, g': Signals)
    requires t < |s.threads| == |s'.threads| && s.work > 0 && Observed(s, t, s', g, g')
    requires s' == Decrement(s.(explicitWork := s'.explicitWork), t, back)
    requires var pc := s.threads[t].pc;
             || (pc.Finish? && back.AfterInvoke?) || (pc.Out? && back.Outside?) || (pc.Invoking? && back.InHandler?)
    ensures GoodStep(s, t, s', g, g')
  {}

  /** Another thread is at work whenever one is about to sleep. */
  lemma PollerIsAwake(s: State, t: nat)
    requires EventInv(s) && s.eventWait && t < |s.threads| && s.threads[t].pc.CheckEvent?
    ensures SignalsOf(s).awake >= 2
  {
    var u := SumPositive(InEvent, s.threads);
    SumAtLeastTwo(Awake, s.threads, if t < u then t else u, if t < u then u else t);
  }

  predicate Checks(pc: Pc) { pc.CheckWork? || pc.CheckReset? || pc.CheckQueue? || pc.CheckEvent? }

  lemma CheckIsGood(s: State, t: nat, s': State, g: Signals, g': Signals)
    requires t < |s.threads| && StepWait(s, t) == Some(s') && Observed(s, t, s', g, g') && Checks(s.threads[t].pc)
    requires s.threads[t].pc.CheckEvent? && s.eventWait ==> g.awake >= 2
    ensures GoodStep(s, t, s', g, g')
  {}

  lemma WaitIsGood(s: State, t: nat, s': State, g: Signals, g': Signals)
    requires t < |s.threads| && StepWait(s, t) == Some(s') && Observed(s, t, s', g, g') && !Checks(s.threads[t].pc)
    ensures GoodStep(s, t, s', g, g')
  {}

  /** The steps of the polling thread, without the notification that may follow. */
  function Polls(maxCount: nat, s: State, t: nat): Option<State>
    requires t < |s.threads|
  {
    var pc := s.threads[t].pc;
    if pc.PushNotify? then Some(Set(s, t, Peek(pc.second, pc.count + 1), Some(pc.next)))
    else if pc.LeaveNotify? then Some(Set(s, t, TopWork, s.threads[t].local))
    else StepTransfer(maxCount, s, t, 0)
  }

  lemma PollIsGood(maxCount: nat, s: State, t: nat, s': State, g: Signals, g': Signals)
    requires t < |s.threads| && Polls(maxCount, s, t) == Some(s') && Observed(s, t, s', g, g')
    requires var pc := s.threads[t].pc; pc.Exchange? || pc.Peek? || pc.Push? || pc.PushNotify?
    ensures GoodStep(s, t, s', g, g')
  {}

  lemma LeaveIsGood(maxCount: nat, s: State, t: nat, s': State, g: Signals, g': Signals)
    requires t < |s.threads| && Polls(maxCount, s, t) == Some(s') && Observed(s, t, s', g, g')
    requires var pc := s.threads[t].pc; pc.EvLeave? || pc.LeaveLock? || pc.LeaveNotify?
    ensures GoodStep(s, t, s', g, g')
  {}

  /** A token read from the event fd is written back, or was not needed. */
  lemma EventFdIsGood(maxCount: nat, s: State, t: nat, s': State, g: Signals, g': Signals)
    requires t < |s.threads| && Polls(maxCount, s, t) == Some(s') && Observed(s, t, s', g, g')
    requires var pc := s.threads[t].pc; pc.EvRead? || pc.EvWork? || pc.EvReset? || pc.EvWrite?
    ensures GoodStep(s, t, s', g, g')
  {}

  lemma NotifyWake(s: State, u: nat, s': State)
    requires WakeInv(s) && NotifyOne(s, u) == Some(s')
    ensures WakeInv(s')
  {
    if s' != s {
      Observe(s, u, s');
      OneThreadWake(s, u, s');
    }
  }

  // ---------------------------------------------------------------- wake_all and the callers

  lemma WakerIsGood(s: State, t: nat, s': State, g: Signals, g': Signals)
    requires t < |s.threads| && StepWake(s, t) == Some(s') && Observed(s, t, s', g, g') && !s.threads[t].pc.WakeNotify?
    ensures GoodStep(s, t, s', g, g')
  {}

  lemma CallIsGood(s: State, t: nat, a: Action, back: Back, s': State, g: Signals, g': Signals)
    requires t < |s.threads| && Call(s, t, a, back) == Some(s') && Observed(s, t, s', g, g') && !a.WorkFinished?
    requires (s.threads[t].pc.Out? && back.Outside?) || (s.threads[t].pc.Invoking? && back.InHandler?)
    requires s.work >= 0
    ensures GoodStep(s, t, s', g, g')
  {}

  /** The signals after `notify_all`, of which thread `t` moves on to the event fd. */
  lemma NotifyAllTallies(s: State, t: nat, s': State)
    requires t < |s.threads| && s.threads[t].pc.WakeNotify? && StepWake(s, t) == Some(s')
    ensures var g, g' := SignalsOf(s), SignalsOf(s');
            && g'.work == g.work && g'.needsReset == g.needsReset && g'.fd == g.fd && g'.atLock == g.atLock
            && g'.writing > 0 && g'.tokens == g.tokens && g'.awake >= g.awake
    ensures Sum(InEvent, s'.threads) == Sum(InEvent, s.threads)
  {
    var m := Go(s, t, WakeFd(s.threads[t].pc.back));
    Tallies(s, t, m, m.threads[t]);
    SumAtLeast(AtWakeFd, s'.threads, t);
    SumAgrees(AtWakeLock, m.threads, s'.threads);
    SumAgrees(HoldsToken, m.threads, s'.threads);
    SumAgrees(InEvent, m.threads, s'.threads);
    SumDominates(Awake, m.threads, s'.threads);
  }

  /** `notify_all` leaves nobody blocked, so nobody misses the notice that is gone. */
  lemma NotifyAllWake(s: State, t: nat, s': State)
    requires WakeInv(s) && t < |s.threads| && s.threads[t].pc.WakeNotify? && StepWake(s, t) == Some(s')
    ensures WakeInv(s')
  {
    NotifyAllTallies(s, t, s');
    assert LockInv(s');
    var g, g' := SignalsOf(s), SignalsOf(s');
    forall u | 0 <= u < |s'.threads| ensures ThreadOk(g', s'.threads[u].pc) {
      assert ThreadOk(g, s.threads[u].pc);
      assert u == t || s'.threads[u].pc == s.threads[u].pc || s'.threads[u].pc.WaitLock?;
    }
  }

  lemma CompletionWake(s: State, op: Handler, s': State)
    requires WakeInv(s) && op in s.kernel
    requires s' == s.(kernel := s.kernel - {op}, cq := s.cq + [op], fd := s.fd + 1)
    ensures WakeInv(s')
  {
    forall u | 0 <= u < |s'.threads| ensures ThreadOk(SignalsOf(s'), s'.threads[u].pc) {
      assert ThreadOk(SignalsOf(s), s.threads[u].pc);
    }
  }

  lemma LoopWake(s: State, t: nat, s': State)
    requires WakeInv(s) && t < |s.threads| && StepLoop(s, t) == Some(s') && (s.threads[t].pc.Finish? ==> s.work > 0)
    ensures WakeInv(s')
  {
    var pc := s.threads[t].pc;
    var g, g' := SignalsOf(s), SignalsOf(s');
    Observe(s, t, s');
    if pc.Finish? {
      DecrementIsGood(s, t, AfterInvoke, s', g, g');
    } else if pc.TopWork? || pc.TopReset? {
      TopIsGood(s, t, s', g, g');
    } else if pc.Body? {
      BodyIsGood(s, t, s', g, g');
    } else {
      LoopIsGood(s, t, s', g, g');
    }
    OneThreadWake(s, t, s');
  }

  lemma WaitWake(s: State, t: nat, s': State)
    requires WakeInv(s) && t < |s.threads| && StepWait(s, t) == Some(s')
    ensures WakeInv(s')
  {
    Observe(s, t, s');
    if s.threads[t].pc.CheckEvent? && s.eventWait {
      PollerIsAwake(s, t);
    }
    if Checks(s.threads[t].pc) {
      CheckIsGood(s, t, s', SignalsOf(s), SignalsOf(s'));
    } else {
      WaitIsGood(s, t, s', SignalsOf(s), SignalsOf(s'));
    }
    OneThreadWake(s, t, s');
  }

  lemma PollWake(maxCount: nat, s: State, t: nat, s': State)
    requires WakeInv(s) && t < |s.threads| && InTransfer(s.threads[t].pc) && Polls(maxCount, s, t) == Some(s')
    ensures WakeInv(s')
  {
    var pc := s.threads[t].pc;
    var g, g' := SignalsOf(s), SignalsOf(s');
    Observe(s, t, s');
    if pc.EvRead? || pc.EvWork? || pc.EvReset? || pc.EvWrite? {
      EventFdIsGood(maxCount, s, t, s', g, g');
    } else if pc.EvLeave? || pc.LeaveLock? || pc.LeaveNotify? {
      LeaveIsGood(maxCount, s, t, s', g, g');
    } else {
      PollIsGood(maxCount, s, t, s', g, g');
    }
    OneThreadWake(s, t, s');
  }

  lemma PollThenNotify(maxCount: nat, s: State, t: nat, u: nat, s': State)
    requires t < |s.threads| && StepTransfer(maxCount, s, t, u) == Some(s')
    ensures Polls(maxCount, s, t).Some?
    ensures var m := Polls(maxCount, s, t).value; s' == m || NotifyOne(m, u) == Some(s')
  {}

  lemma TransferWake(maxCount: nat, s: State, t: nat, u: nat, s': State)
    requires WakeInv(s) && t < |s.threads| && InTransfer(s.threads[t].pc) && StepTransfer(maxCount, s, t, u) == Some(s')
    ensures WakeInv(s')
  {
    PollThenNotify(maxCount, s, t, u, s');
    var m := Polls(maxCount, s, t).value;
    PollWake(maxCount, s, t, m);
    if s' != m {
      NotifyWake(m, u, s');
    }
  }

  lemma CallWake(s: State, t: nat, a: Action, back: Back, s': State)
    requires WakeInv(s) && t < |s.threads| && Call(s, t, a, back) == Some(s')
    requires (s.threads[t].pc.Out? && back.Outside?) || (s.threads[t].pc.Invoking? && back.InHandler?)
    requires s.work >= s.explicitWork
    ensures WakeInv(s')
  {
    Observe(s, t, s');
    if a.WorkFinished? {
      DecrementIsGood(s, t, back, s', SignalsOf(s), SignalsOf(s'));
    } else {
      CallIsGood(s, t, a, back, s', SignalsOf(s), SignalsOf(s'));
    }
    OneThreadWake(s, t, s');
  }

  lemma WakerWake(s: State, t: nat, s': State)
    requires WakeInv(s) && t < |s.threads| && StepWake(s, t) == Some(s')
    ensures WakeInv(s')
  {
    if s.threads[t].pc.WakeNotify? {
      NotifyAllWake(s, t, s');
    } else {
      Observe(s, t, s');
      WakerIsGood(s, t, s', SignalsOf(s), SignalsOf(s'));
      OneThreadWake(s, t, s');
    }
  }

  /** Waking up without a reason, and entering `run`. */
  lemma MoveWake(s: State, t: nat, s': State)
    requires WakeInv(s) && t < |s.threads|
    requires || (s.threads[t].pc.Blocked? && s' == Go(s, t, WaitLock))
             || (s.threads[t].pc.Out? && s' == Set(s, t, TopWork, None))
    ensures WakeInv(s')
  {
    Observe(s, t, s');
    OneThreadWake(s, t, s');
  }

  lemma FinishingIsCounted(s: State, t: nat)
    requires Flow.WorkInv(s) && t < |s.threads| && s.threads[t].pc.Finish?
    ensures s.work > 0
  {
    SumAtLeast(Flow.Finishing, s.threads, t);
  }

  lemma StepKeepsWake(maxCount: nat, s: State, t: nat, a: Action, s': State)
    requires WakeInv(s) && Flow.WorkInv(s) && Step(maxCount, s, t, a) == Some(s')
    ensures WakeInv(s')
  {
    if a.KernelCompletes? {
      CompletionWake(s, a.op, s');
    } else if a.Advance? {
      var pc := s.threads[t].pc;
      if InLoop(pc) {
        if pc.Finish? { FinishingIsCounted(s, t); }
        LoopWake(s, t, s');
      } else if InTransfer(pc) {
        TransferWake(maxCount, s, t, a.wake, s');
      } else if InWait(pc) {
        WaitWake(s, t, s');
      } else {
        WakerWake(s, t, s');
      }
    } else if a.SpuriousWake? || a.EnterRun? {
      MoveWake(s, t, s');
    } else {
      CallWake(s, t, a, if s.threads[t].pc == Out then Outside else InHandler, s');
    }
  }

  lemma InitWake(n: nat)
    ensures WakeInv(Init(n))
  {
    SumZero(InEvent, Init(n).threads);
  }

  lemma {:induction false} RunsKeepWake(maxCount: nat, n: nat, steps: seq<(nat, Action)>)
    requires Run(maxCount, n, steps).Some?
    ensures WakeInv(Run(maxCount, n, steps).value)
  {
    if |steps| == 0 {
      InitWake(n);
    } else {
      var before := steps[..|steps| - 1];
      RunsKeepWake(maxCount, n, before);
      Flow.RunsConserveHandlers(maxCount, n, before);
      StepKeepsWake(maxCount, Run(maxCount, n, before).value, steps[|steps| - 1].0, steps[|steps| - 1].1,
                    Run(maxCount, n, steps).value);
    }
  }

  // ---------------------------------------------------------------- theorems

  /** A `wake_all` that has not reached its `notify_all`. */
  predicate WakePending(s: State) {
    exists u :: 0 <= u < |s.threads| && (s.threads[u].pc.WakeLock? || s.threads[u].pc.WakeNotify?)
  }

  /** A `wake_all` that has not returned. */
  predicate WakeInProgress(s: State) {
    exists u :: 0 <= u < |s.threads| &&
      (s.threads[u].pc.WakeLock? || s.threads[u].pc.WakeNotify? || s.threads[u].pc.WakeFd?)
  }

  lemma NoticesMeansPending(s: State)
    requires Notices(SignalsOf(s))
    ensures WakePending(s)
  {
    if SignalsOf(s).atLock > 0 {
      var u := SumPositive(AtWakeLock, s.threads);
    } else {
      var u := SumPositive(AtWakeNotify, s.threads);
    }
  }

  lemma ReadyMeansReadable(s: State)
    requires Ready(SignalsOf(s))
    ensures s.fd > 0 || WakeInProgress(s)
  {
    if Notices(SignalsOf(s)) {
      NoticesMeansPending(s);
    } else if s.fd == 0 {
      var u := SumPositive(AtWakeFd, s.threads);
    }
  }

  /** While one thread is in `eventfd_read` no other has a token it could still put back. */
  lemma ReaderAlone(s: State, t: nat)
    requires EventInv(s) && t < |s.threads| && s.threads[t].pc.EvRead?
    ensures SignalsOf(s).tokens == 0
  {
    if SignalsOf(s).tokens > 0 {
      var u := SumPositive(HoldsToken, s.threads);
      OnlyPoller(s, t, u);
    }
  }

  /** No lost wakeup: a thread asleep on `state_change_` may run, or some `wake_all` will still notify it. */
  lemma NoLostWakeup(maxCount: nat, n: nat, steps: seq<(nat, Action)>, t: nat)
    requires Run(maxCount, n, steps).Some? && t < |Run(maxCount, n, steps).value.threads|
    ensures var s := Run(maxCount, n, steps).value;
            s.threads[t].pc.Blocked? ==> CanRun(s) || WakePending(s)
  {
    RunsKeepWake(maxCount, n, steps);
    var s := Run(maxCount, n, steps).value;
    assert ThreadOk(SignalsOf(s), s.threads[t].pc);
    if Notices(SignalsOf(s)) { NoticesMeansPending(s); }
  }

  /** The same for the event fd: a thread in `eventfd_read` may run, or will be able to read. */
  lemma NoLostEvent(maxCount: nat, n: nat, steps: seq<(nat, Action)>, t: nat)
    requires Run(maxCount, n, steps).Some? && t < |Run(maxCount, n, steps).value.threads|
    ensures var s := Run(maxCount, n, steps).value;
            s.threads[t].pc.EvRead? ==> CanRun(s) || s.fd > 0 || WakeInProgress(s)
  {
    RunsKeepWake(maxCount, n, steps);
    var s := Run(maxCount, n, steps).value;
    if s.threads[t].pc.EvRead? {
      assert ThreadOk(SignalsOf(s), s.threads[t].pc);
      ReaderAlone(s, t);
      if Ready(SignalsOf(s)) { ReadyMeansReadable(s); }
    }
  }

  /** Sleeping threads are never left without a thread that will poll the ring or notify them. */
  lemma SleepersAreWatched(maxCount: nat, n: nat, steps: seq<(nat, Action)>, t: nat)
    requires Run(maxCount, n, steps).Some? && t < |Run(maxCount, n, steps).value.threads|
    ensures var s := Run(maxCount, n, steps).value;
            s.threads[t].pc.Blocked? ==>
              WakePending(s) || exists u :: 0 <= u < |s.threads| && u != t && Awake(s.threads[u]) == 1
  {
    RunsKeepWake(maxCount, n, steps);
    var s := Run(maxCount, n, steps).value;
    assert ThreadOk(SignalsOf(s), s.threads[t].pc);
    if s.threads[t].pc.Blocked? && Notices(SignalsOf(s)) {
      NoticesMeansPending(s);
    } else if s.threads[t].pc.Blocked? {
      var u := SumPositive(Awake, s.threads);
    }
  }

  /** Once every `stop` or last `on_work_finished` has returned and nothing has resumed the loop, no
      thread sleeps and none can get stuck in `eventfd_read`. */
  lemma StoppedMeansAwake(maxCount: nat, n: nat, steps: seq<(nat, Action)>, t: nat)
    requires Run(maxCount, n, steps).Some? && t < |Run(maxCount, n, steps).value.threads|
    requires var s := Run(maxCount, n, steps).value; !CanRun(s) && !WakeInProgress(s)
    ensures var s := Run(maxCount, n, steps).value;
            !s.threads[t].pc.Blocked? && (s.threads[t].pc.EvRead? ==> s.fd > 0)
  {
    NoLostWakeup(maxCount, n, steps, t);
    NoLostEvent(maxCount, n, steps, t);
  }
}
