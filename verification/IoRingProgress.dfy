/** The run loop sleeps only when it has nothing to do: no event in the ring or handler in the queue is
    left behind by threads that all wait, provided `reset` is not called while a thread is on its way out of
    `run` with a handler. */
module IoRingProgress {
  import opened Common
  import opened Tally
  import opened IoRing
  import Flow = IoRingFlow
  import Wake = IoRingWake

  function InRun(th: Thread): nat { AsNat(!th.pc.Out? && !Wake.CalledFromOutside(th.pc)) }

  /** In `run` and certain to look at the queue again before it can sleep. */
  function Attentive(th: Thread): nat {
    AsNat(InRun(th) == 1 && !th.pc.Exchange? && th.pc != Peek(false, 0) && !th.pc.EvRead? && !th.pc.CheckEvent?
      && !th.pc.CvWait? && !th.pc.Blocked? && !th.pc.Stash?)
  }

  /** Has read the event fd and will take an event off the ring if there is one. */
  function Drains(th: Thread): nat {
    AsNat(th.pc.EvWork? || th.pc.EvReset? || th.pc.EvWrite? || th.pc == Peek(true, 0))
  }

  /** In `run`, on the way to a read of the event fd or in it. */
  function Polling(th: Thread): nat { AsNat(th.pc.Exchange? || th.pc == Peek(false, 0) || th.pc.EvRead?) }

  function Notifies(th: Thread): nat { AsNat(th.pc.WakeLock? || th.pc.WakeNotify?) }

  function Writes(th: Thread): nat { AsNat(th.pc.WakeFd?) }

  /** Some `wake_all` has not yet notified, or a thread that polls finds the event fd readable. */
  predicate Alerted(s: State) {
    Sum(Notifies, s.threads) > 0 || (Sum(Polling, s.threads) > 0 && s.fd + Sum(Writes, s.threads) > 0)
  }

  predicate StashOk(s: State, th: Thread) { th.pc.Stash? ==> s.needsReset }

  /** A thread that found the queue empty holds the mutex until it sleeps. */
  predicate QueueOk(s: State, th: Thread) { th.pc.CheckEvent? || th.pc.CvWait? ==> s.queue == [] }

  predicate PointsOk(s: State) {
    forall t :: 0 <= t < |s.threads| ==> StashOk(s, s.threads[t]) && QueueOk(s, s.threads[t])
  }

  predicate IdleInv(s: State) {
    && |s.cq| <= s.fd + Sum(Drains, s.threads)
    && (s.queue != [] && CanRun(s) && Sum(InRun, s.threads) > 0 ==> Sum(Attentive, s.threads) > 0 || Alerted(s))
    && PointsOk(s)
  }

  // ---------------------------------------------------------------- steps

  /** The move from `th` to `th'` takes away no alert. */
  predicate KeepsAlert(s: State, s': State, th: Thread, th': Thread) {
    Notifies(th) <= Notifies(th') && Polling(th) <= Polling(th') && s.fd + Writes(th) <= s'.fd + Writes(th')
  }

  /** Only thread `t` moves, and it strands nothing. */
  predicate IdleStep(s: State, t: nat, s': State)
    requires t < |s.threads| == |s'.threads|
  {
    var th, th' := s.threads[t], s'.threads[t];
    && s'.threads == s.threads[t := th']
    && (s'.cq == [] || |s'.cq| + s.fd + Drains(th) <= |s.cq| + s'.fd + Drains(th'))
    && (s'.queue != [] && CanRun(s') && Attentive(th') == 0 ==>
          s.queue != [] && CanRun(s) && Attentive(th) == 0 && InRun(th') <= InRun(th) && KeepsAlert(s, s', th, th'))
    && StashOk(s', th') && QueueOk(s', th') && (s.needsReset ==> s'.needsReset)
    && (s.queue == [] ==> s'.queue == [] || s.lock.None?)
  }

  lemma PointsStay(s: State, t: nat, s': State)
    requires PointsOk(s) && Wake.LockInv(s) && t < |s.threads| == |s'.threads| && IdleStep(s, t, s')
    ensures PointsOk(s')
  {
    forall u | 0 <= u < |s'.threads| ensures StashOk(s', s'.threads[u]) && QueueOk(s', s'.threads[u]) {
      assert StashOk(s, s.threads[u]) && QueueOk(s, s.threads[u]);
    }
  }

  lemma OneThreadIdle(s: State, t: nat, s': State)
    requires IdleInv(s) && Wake.LockInv(s) && t < |s.threads| == |s'.threads| && IdleStep(s, t, s')
    ensures IdleInv(s')
  {
    var th' := s'.threads[t];
    PointsStay(s, t, s');
    SumUpdate(Drains, s.threads, t, th');
    SumUpdate(InRun, s.threads, t, th');
    SumUpdate(Attentive, s.threads, t, th');
    SumUpdate(Notifies, s.threads, t, th');
    SumUpdate(Polling, s.threads, t, th');
    SumUpdate(Writes, s.threads, t, th');
    SumAtLeast(Attentive, s'.threads, t);
  }

  /** What the work count says about handlers in a thread's hands or in the queue. */
  predicate Employed(s: State, th: Thread) {
    (s.queue != [] || th.local.Some? || th.pc.Finish? ==> s.work > 0) && Flow.LocalOk(th)
  }

  lemma Employ(s: State, t: nat)
    requires Flow.WorkInv(s) && Flow.LocalInv(s) && t < |s.threads|
    ensures Employed(s, s.threads[t])
  {
    SumAtLeast(Flow.HeldCount, s.threads, t);
    SumAtLeast(Flow.Finishing, s.threads, t);
  }

  lemma TopIsIdle(s: State, t: nat, s': State)
    requires t < |s.threads| && StepLoop(s, t) == Some(s') && Employed(s, s.threads[t])
    requires s.threads[t].pc.TopWork? || s.threads[t].pc.TopReset?
    ensures IdleStep(s, t, s')
  {}

  lemma LoopIsIdle(s: State, t: nat, s': State)
    requires t < |s.threads| && StepLoop(s, t) == Some(s') && Employed(s, s.threads[t]) && StashOk(s, s.threads[t])
    requires !s.threads[t].pc.TopWork? && !s.threads[t].pc.TopReset?
    ensures IdleStep(s, t, s')
  {}

  lemma WaitIsIdle(s: State, t: nat, s': State)
    requires t < |s.threads| && StepWait(s, t) == Some(s') && QueueOk(s, s.threads[t])
    ensures IdleStep(s, t, s')
  {}

  lemma PeekIsIdle(maxCount: nat, s: State, t: nat, s': State)
    requires t < |s.threads| && maxCount > 0 && Wake.Polls(maxCount, s, t) == Some(s') && Flow.LocalOk(s.threads[t])
    requires s.threads[t].pc.Peek?
    ensures IdleStep(s, t, s')
  {}

  lemma EventFdIsIdle(maxCount: nat, s: State, t: nat, s': State)
    requires t < |s.threads| && Wake.Polls(maxCount, s, t) == Some(s')
    requires var pc := s.threads[t].pc; pc.EvRead? || pc.EvWork? || pc.EvReset? || pc.EvWrite?
    ensures IdleStep(s, t, s')
  {}

  lemma PollIsIdle(maxCount: nat, s: State, t: nat, s': State)
    requires t < |s.threads| && Wake.Polls(maxCount, s, t) == Some(s')
    requires var pc := s.threads[t].pc; !pc.Peek? && !pc.EvRead? && !pc.EvWork? && !pc.EvReset? && !pc.EvWrite?
    ensures IdleStep(s, t, s')
  {}

  lemma WakerIsIdle(s: State, t: nat, s': State)
    requires t < |s.threads| && StepWake(s, t) == Some(s') && !s.threads[t].pc.WakeNotify?
    ensures IdleStep(s, t, s')
  {}

  lemma CallIsIdle(s: State, t: nat, a: Action, back: Back, s': State)
    requires t < |s.threads| && Call(s, t, a, back) == Some(s') && Employed(s, s.threads[t]) && !a.Reset?
    requires (s.threads[t].pc.Out? && back.Outside?) || (s.threads[t].pc.Invoking? && back.InHandler?)
    requires s.work >= s.explicitWork
    ensures IdleStep(s, t, s')
  {}

  /** A thread in `run` that could miss a handler in the queue sleeps on the condition variable or polls. */
  lemma PollsOrSleeps(s: State, t: nat)
    requires PointsOk(s) && s.queue != [] && t < |s.threads| && InRun(s.threads[t]) == 1
    requires CanRun(s) || !s.threads[t].pc.Stash?
    ensures Attentive(s.threads[t]) == 1 || Polling(s.threads[t]) == 1 || s.threads[t].pc.Blocked?
  {
    assert StashOk(s, s.threads[t]) && QueueOk(s, s.threads[t]);
  }

  /** After `notify_all` nobody sleeps, and whoever polls will find the event fd readable. */
  lemma NotifyAllIdle(s: State, t: nat, s': State)
    requires IdleInv(s) && t < |s.threads| && s.threads[t].pc.WakeNotify? && StepWake(s, t) == Some(s')
    ensures IdleInv(s')
  {
    SumAgrees(Drains, s.threads, s'.threads);
    SumAtLeast(Writes, s'.threads, t);
    forall u | 0 <= u < |s'.threads| ensures StashOk(s', s'.threads[u]) && QueueOk(s', s'.threads[u]) {
      assert StashOk(s, s.threads[u]) && QueueOk(s, s.threads[u]);
    }
    if s'.queue != [] && CanRun(s') && Sum(InRun, s'.threads) > 0 {
      var u := SumPositive(InRun, s'.threads);
      PollsOrSleeps(s', u);
      SumAtLeast(Attentive, s'.threads, u);
      SumAtLeast(Polling, s'.threads, u);
    }
  }

  lemma NotifyIdle(s: State, u: nat, s': State)
    requires IdleInv(s) && Wake.LockInv(s) && NotifyOne(s, u) == Some(s')
    ensures IdleInv(s')
  {
    if s' != s {
      OneThreadIdle(s, u, s');
    }
  }

  /** No thread is on its way out of `run` with a handler. */
  predicate NobodyLeaving(s: State) { forall t :: 0 <= t < |s.threads| ==> !s.threads[t].pc.Stash? }

  /** While the loop is stopped, whoever sleeps or polls has a notification to come or a readable event fd. */
  lemma StoppedIsAlerted(s: State, t: nat)
    requires Wake.WakeInv(s) && !CanRun(s) && t < |s.threads|
             && (Polling(s.threads[t]) == 1 || s.threads[t].pc.Blocked?)
    ensures Sum(Attentive, s.threads) > 0 || Alerted(s)
  {
    var g := Wake.SignalsOf(s);
    assert Wake.ThreadOk(g, s.threads[t].pc);
    SumAtLeast(Polling, s.threads, t);
    if Wake.Notices(g) {
      Wake.NoticesMeansPending(s);
      var u :| 0 <= u < |s.threads| && (s.threads[u].pc.WakeLock? || s.threads[u].pc.WakeNotify?);
      SumAtLeast(Notifies, s.threads, u);
    } else if s.fd == 0 && g.writing > 0 {
      var u := SumPositive(Wake.AtWakeFd, s.threads);
      SumAtLeast(Writes, s.threads, u);
    } else if s.fd == 0 {
      var u := SumPositive(Wake.HoldsToken, s.threads);
      SumAtLeast(Attentive, s.threads, u);
    }
  }

  lemma ResetIdle(s: State, s': State)
    requires IdleInv(s) && Wake.WakeInv(s) && NobodyLeaving(s) && s' == s.(needsReset := false)
    ensures IdleInv(s')
  {
    forall u | 0 <= u < |s'.threads| ensures StashOk(s', s'.threads[u]) && QueueOk(s', s'.threads[u]) {
      assert QueueOk(s, s.threads[u]);
    }
    if s'.queue != [] && CanRun(s') && !CanRun(s) && Sum(InRun, s.threads) > 0 {
      var u := SumPositive(InRun, s.threads);
      PollsOrSleeps(s, u);
      if Attentive(s.threads[u]) == 1 {
        SumAtLeast(Attentive, s.threads, u);
      } else {
        StoppedIsAlerted(s, u);
      }
    }
  }

  lemma PollIdle(maxCount: nat, s: State, t: nat, s': State)
    requires IdleInv(s) && Wake.WakeInv(s) && Flow.LocalInv(s) && t < |s.threads| && maxCount > 0
    requires Wake.Polls(maxCount, s, t) == Some(s')
    ensures IdleInv(s')
  {
    var pc := s.threads[t].pc;
    if pc.Peek? {
      assert Flow.LocalOk(s.threads[t]);
      PeekIsIdle(maxCount, s, t, s');
    } else if pc.EvRead? || pc.EvWork? || pc.EvReset? || pc.EvWrite? {
      EventFdIsIdle(maxCount, s, t, s');
    } else {
      PollIsIdle(maxCount, s, t, s');
    }
    OneThreadIdle(s, t, s');
  }

  lemma TransferIdle(maxCount: nat, s: State, t: nat, u: nat, s': State)
    requires IdleInv(s) && Wake.WakeInv(s) && Flow.LocalInv(s) && t < |s.threads| && maxCount > 0
    requires InTransfer(s.threads[t].pc) && StepTransfer(maxCount, s, t, u) == Some(s')
    ensures IdleInv(s')
  {
    Wake.PollThenNotify(maxCount, s, t, u, s');
    var m := Wake.Polls(maxCount, s, t).value;
    PollIdle(maxCount, s, t, m);
    Wake.PollWake(maxCount, s, t, m);
    if s' != m {
      NotifyIdle(m, u, s');
    }
  }

  lemma CompletionIdle(s: State, op: Handler, s': State)
    requires IdleInv(s) && op in s.kernel
    requires s' == s.(kernel := s.kernel - {op}, cq := s.cq + [op], fd := s.fd + 1)
    ensures IdleInv(s')
  {
    forall u | 0 <= u < |s'.threads| ensures StashOk(s', s'.threads[u]) && QueueOk(s', s'.threads[u]) {
      assert StashOk(s, s.threads[u]) && QueueOk(s, s.threads[u]);
    }
  }

  lemma LoopIdle(s: State, t: nat, s': State)
    requires IdleInv(s) && Wake.LockInv(s) && Flow.LocalInv(s) && Flow.WorkInv(s)
    requires t < |s.threads| && StepLoop(s, t) == Some(s')
    ensures IdleInv(s')
  {
    Employ(s, t);
    assert StashOk(s, s.threads[t]);
    if s.threads[t].pc.TopWork? || s.threads[t].pc.TopReset? {
      TopIsIdle(s, t, s');
    } else {
      LoopIsIdle(s, t, s');
    }
    OneThreadIdle(s, t, s');
  }

  lemma WaitIdle(s: State, t: nat, s': State)
    requires IdleInv(s) && Wake.LockInv(s) && t < |s.threads| && StepWait(s, t) == Some(s')
    ensures IdleInv(s')
  {
    assert QueueOk(s, s.threads[t]);
    WaitIsIdle(s, t, s');
    OneThreadIdle(s, t, s');
  }

  lemma WakerIdle(s: State, t: nat, s': State)
    requires IdleInv(s) && Wake.LockInv(s) && t < |s.threads| && StepWake(s, t) == Some(s')
    ensures IdleInv(s')
  {
    if s.threads[t].pc.WakeNotify? {
      NotifyAllIdle(s, t, s');
    } else {
      WakerIsIdle(s, t, s');
      OneThreadIdle(s, t, s');
    }
  }

  lemma AdvanceIdle(maxCount: nat, s: State, t: nat, u: nat, s': State)
    requires IdleInv(s) && Wake.WakeInv(s) && Flow.LocalInv(s) && Flow.WorkInv(s) && t < |s.threads| && maxCount > 0
    requires AdvanceThread(maxCount, s, t, u) == Some(s')
    ensures IdleInv(s')
  {
    var pc := s.threads[t].pc;
    if InLoop(pc) {
      LoopIdle(s, t, s');
    } else if InTransfer(pc) {
      TransferIdle(maxCount, s, t, u, s');
    } else if InWait(pc) {
      WaitIdle(s, t, s');
    } else {
      WakerIdle(s, t, s');
    }
  }

  lemma CallIdle(s: State, t: nat, a: Action, back: Back, s': State)
    requires IdleInv(s) && Wake.WakeInv(s) && Flow.LocalInv(s) && Flow.WorkInv(s)
    requires t < |s.threads| && Call(s, t, a, back) == Some(s')
    requires (s.threads[t].pc.Out? && back.Outside?) || (s.threads[t].pc.Invoking? && back.InHandler?)
    requires a.Reset? ==> NobodyLeaving(s)
    ensures IdleInv(s')
  {
    if a.Reset? {
      ResetIdle(s, s');
    } else {
      Employ(s, t);
      CallIsIdle(s, t, a, back, s');
      OneThreadIdle(s, t, s');
    }
  }

  /** Waking up without a reason, and entering `run`. */
  lemma MoveIdle(s: State, t: nat, s': State)
    requires IdleInv(s) && Wake.LockInv(s) && t < |s.threads|
    requires || (s.threads[t].pc.Blocked? && s' == Go(s, t, WaitLock))
             || (s.threads[t].pc.Out? && s' == Set(s, t, TopWork, None))
    ensures IdleInv(s')
  {
    OneThreadIdle(s, t, s');
  }

  lemma StepIdle(maxCount: nat, s: State, t: nat, a: Action, s': State)
    requires IdleInv(s) && Wake.WakeInv(s) && Flow.LocalInv(s) && Flow.WorkInv(s)
    requires maxCount > 0 && Step(maxCount, s, t, a) == Some(s')
    requires a.Reset? ==> NobodyLeaving(s)
    ensures IdleInv(s')
  {
    if a.KernelCompletes? {
      CompletionIdle(s, a.op, s');
    } else if a.Advance? {
      AdvanceIdle(maxCount, s, t, a.wake, s');
    } else if a.SpuriousWake? || a.EnterRun? {
      MoveIdle(s, t, s');
    } else {
      CallIdle(s, t, a, if s.threads[t].pc == Out then Outside else InHandler, s');
    }
  }

  // ---------------------------------------------------------------- runs

  /** Every `reset` of the run is called while no thread is on its way out with a handler. */
  predicate QuietResets(maxCount: nat, n: nat, steps: seq<(nat, Action)>)
    requires Run(maxCount, n, steps).Some?
  {
    |steps| > 0 ==>
      var before := steps[..|steps| - 1];
      && QuietResets(maxCount, n, before)
      && (steps[|steps| - 1].1.Reset? ==> NobodyLeaving(Run(maxCount, n, before).value))
  }

  lemma {:induction false} RunsKeepIdle(maxCount: nat, n: nat, steps: seq<(nat, Action)>)
    requires maxCount > 0 && Run(maxCount, n, steps).Some? && QuietResets(maxCount, n, steps)
    ensures IdleInv(Run(maxCount, n, steps).value)
  {
    if |steps| > 0 {
      var before := steps[..|steps| - 1];
      RunsKeepIdle(maxCount, n, before);
      Flow.RunsConserveHandlers(maxCount, n, before);
      Wake.RunsKeepWake(maxCount, n, before);
      StepIdle(maxCount, Run(maxCount, n, before).value, steps[|steps| - 1].0, steps[|steps| - 1].1,
               Run(maxCount, n, steps).value);
    }
  }

  // ---------------------------------------------------------------- nobody can move

  /** No thread can take a step of its own, whichever sleeper a notification would pick. */
  ghost predicate Stuck(maxCount: nat, s: State) {
    forall t: nat, u: nat :: t < |s.threads| ==> AdvanceThread(maxCount, s, t, u).None?
  }

  lemma HolderMoves(maxCount: nat, s: State)
    requires Wake.LockInv(s) && s.lock.Some?
    ensures AdvanceThread(maxCount, s, s.lock.value, 0).Some?
  {
    assert InCritical(s.threads[s.lock.value].pc);
  }

  /** Outside, asleep, or in a read of the event fd, with no handler in hand. */
  predicate Waits(th: Thread) { (th.pc.Out? || th.pc.Blocked? || th.pc.EvRead?) && th.local.None? }

  /** With the mutex free, these are the only points where a thread can wait. */
  lemma StuckPoints(maxCount: nat, s: State, t: nat)
    requires Wake.LockInv(s) && Flow.LocalInv(s) && Stuck(maxCount, s) && t < |s.threads|
    ensures Waits(s.threads[t]) && (s.threads[t].pc.EvRead? ==> s.fd == 0)
  {
    if s.lock.Some? { HolderMoves(maxCount, s); }
    assert Flow.LocalOk(s.threads[t]);
    var u: nat := 0;
    if !NobodyBlocked(s.threads) {
      u :| u < |s.threads| && s.threads[u].pc == Blocked;
    }
    assert AdvanceThread(maxCount, s, t, u).None?;
  }

  lemma WaitersDoNothing(threads: seq<Thread>)
    requires forall t :: 0 <= t < |threads| ==> Waits(threads[t])
    ensures Sum(Attentive, threads) == 0 && Sum(Drains, threads) == 0 && Sum(Notifies, threads) == 0
    ensures Sum(Writes, threads) == 0
    ensures Sum(Flow.HeldCount, threads) == 0 && Sum(Flow.Finishing, threads) == 0
  {
    SumZero(Attentive, threads);
    SumZero(Drains, threads);
    SumZero(Notifies, threads);
    SumZero(Writes, threads);
    SumZero(Flow.HeldCount, threads);
    SumZero(Flow.Finishing, threads);
  }

  /** With everybody waiting there is no waker and no token. */
  lemma WaitersDoNotWake(s: State)
    requires forall t :: 0 <= t < |s.threads| ==> Waits(s.threads[t])
    ensures var g := Wake.SignalsOf(s); !Wake.Notices(g) && g.writing == 0 && g.tokens == 0
  {
    SumZero(Wake.AtWakeLock, s.threads);
    SumZero(Wake.AtWakeNotify, s.threads);
    SumZero(Wake.AtWakeFd, s.threads);
    SumZero(Wake.HoldsToken, s.threads);
  }

  lemma StuckThreads(maxCount: nat, s: State)
    requires Wake.LockInv(s) && Flow.LocalInv(s) && Stuck(maxCount, s)
    ensures forall t :: 0 <= t < |s.threads| ==> Waits(s.threads[t]) && (s.threads[t].pc.EvRead? ==> s.fd == 0)
  {
    forall t | 0 <= t < |s.threads| ensures Waits(s.threads[t]) && (s.threads[t].pc.EvRead? ==> s.fd == 0) {
      StuckPoints(maxCount, s, t);
    }
  }

  /** If every thread waits and thread `t` does so inside `run`, then one is in `eventfd_read`, and the
      loop may run. */
  lemma WaitersReader(s: State, t: nat) returns (r: nat)
    requires Wake.WakeInv(s) && t < |s.threads| && InRun(s.threads[t]) == 1
    requires forall u :: 0 <= u < |s.threads| ==> Waits(s.threads[u]) && (s.threads[u].pc.EvRead? ==> s.fd == 0)
    ensures r < |s.threads| && s.threads[r].pc.EvRead? && CanRun(s)
  {
    WaitersDoNotWake(s);
    r := t;
    if s.threads[t].pc.Blocked? {
      assert Wake.ThreadOk(Wake.SignalsOf(s), s.threads[t].pc);
      r := SumPositive(Wake.Awake, s.threads);
    }
    assert Wake.ThreadOk(Wake.SignalsOf(s), s.threads[r].pc);
  }

  /** The run loop sleeps only when it is idle: if some thread is inside `run` and no thread can take a
      step, then the loop is neither stopped nor out of work, the ring and the queue are empty, no thread
      holds a handler, and all work left is with the kernel or was declared by the user. */
  lemma OnlySleepsWhenIdle(maxCount: nat, n: nat, steps: seq<(nat, Action)>, t: nat)
    requires maxCount > 0 && Run(maxCount, n, steps).Some? && QuietResets(maxCount, n, steps)
    requires var s := Run(maxCount, n, steps).value;
             Stuck(maxCount, s) && t < |s.threads| && InRun(s.threads[t]) == 1
    ensures var s := Run(maxCount, n, steps).value;
            && CanRun(s) && s.cq == [] && s.queue == []
            && (forall u :: 0 <= u < |s.threads| ==> s.threads[u].local.None?)
            && s.work == s.explicitWork + |s.kernel|
  {
    var s := Run(maxCount, n, steps).value;
    RunsKeepIdle(maxCount, n, steps);
    Flow.RunsConserveHandlers(maxCount, n, steps);
    Wake.RunsKeepWake(maxCount, n, steps);
    StuckThreads(maxCount, s);
    WaitersDoNothing(s.threads);
    var r := WaitersReader(s, t);
    SumAtLeast(InRun, s.threads, t);
  }

  // ---------------------------------------------------------------- when it does not hold

  /** A run, with every `reset` called while no thread is on its way out with a handler if `quiet`. */
  datatype Path = Path(maxCount: nat, n: nat, quiet: bool, steps: seq<(nat, Action)>)

  predicate Leads(p: Path, s: State) {
    Run(p.maxCount, p.n, p.steps) == Some(s) && (p.quiet ==> QuietResets(p.maxCount, p.n, p.steps))
  }

  lemma Follow(p: Path, s: State, t: nat, a: Action, s': State) returns (q: Path)
    requires Leads(p, s) && Step(p.maxCount, s, t, a) == Some(s') && (a.Reset? ==> !p.quiet)
    ensures q == p.(steps := p.steps + [(t, a)]) && Leads(q, s')
  {
    var more := p.steps + [(t, a)];
    assert more[..|more| - 1] == p.steps && more[|more| - 1] == (t, a);
    q := p.(steps := more);
  }

  lemma Advances(p: Path, s: State, t: nat, s': State) returns (q: Path)
    requires Leads(p, s) && t < |s.threads| && AdvanceThread(p.maxCount, s, t, 0) == Some(s')
    ensures q == p.(steps := p.steps + [(t, Advance(0))]) && Leads(q, s')
  {
    q := Follow(p, s, t, Advance(0), s');
  }

  /** A thread at the top of the loop finds no handler and starts to poll the ring. */
  lemma StartsPolling(p: Path, s: State, t: nat) returns (q: Path)
    requires Leads(p, s) && t < |s.threads| && s.threads[t] == Thread(TopWork, None)
    requires CanRun(s) && s.lock.None? && s.queue == [] && !s.eventWait
    ensures q == p.(steps := q.steps) && Leads(q, Set(s.(eventWait := true), t, Peek(false, 0), None))
  {
    var s1 := Go(s, t, TopReset);
    var s2 := Go(s1, t, Body);
    var s3 := Go(s2, t, Exchange);
    var s4 := Go(s3.(eventWait := true), t, Peek(false, 0));
    q := Advances(p, s, t, s1);
    q := Advances(q, s1, t, s2);
    q := Advances(q, s2, t, s3);
    q := Advances(q, s3, t, s4);
    assert s4.threads == s.threads[t := Thread(Peek(false, 0), None)];
  }

  /** It finds no event, or may take none, and waits for the event fd. */
  lemma FallsAsleep(p: Path, s: State, t: nat) returns (q: Path)
    requires Leads(p, s) && t < |s.threads| && s.threads[t] == Thread(TopWork, None)
    requires CanRun(s) && s.lock.None? && s.queue == [] && !s.eventWait && (p.maxCount == 0 || s.cq == [])
    ensures q == p.(steps := q.steps) && Leads(q, Set(s.(eventWait := true), t, EvRead, None))
  {
    q := StartsPolling(p, s, t);
    var s1 := Set(s.(eventWait := true), t, Peek(false, 0), None);
    var s2 := Go(s1, t, EvRead);
    q := Advances(q, s1, t, s2);
    assert s2.threads == s.threads[t := Thread(EvRead, None)];
  }

  /** Reading the event fd, it uses up a token and looks at the ring again. */
  lemma Reads(p: Path, s: State, t: nat) returns (q: Path)
    requires Leads(p, s) && t < |s.threads| && s.threads[t] == Thread(EvRead, None) && CanRun(s) && s.fd > 0
    ensures q == p.(steps := q.steps) && Leads(q, Set(s.(fd := s.fd - 1), t, Peek(true, 0), None))
  {
    var s1 := Go(s.(fd := s.fd - 1), t, EvWork);
    var s2 := Go(s1, t, EvReset);
    var s3 := Set(s2, t, Peek(true, 0), None);
    q := Advances(p, s, t, s1);
    q := Advances(q, s1, t, s2);
    q := Advances(q, s2, t, s3);
    assert s3.threads == s.threads[t := Thread(Peek(true, 0), None)];
  }

  /** It finds nothing there, or may take nothing, and stops polling. */
  lemma FindsNothing(p: Path, s: State, t: nat) returns (q: Path)
    requires Leads(p, s) && t < |s.threads| && s.threads[t] == Thread(Peek(true, 0), None)
    requires p.maxCount == 0 || s.cq == []
    ensures q == p.(steps := q.steps) && Leads(q, Set(s.(eventWait := false), t, LeaveLock, None))
  {
    var s1 := Go(s, t, EvLeave);
    var s2 := Go(s1.(eventWait := false), t, LeaveLock);
    q := Advances(p, s, t, s1);
    q := Advances(q, s1, t, s2);
    assert s2.threads == s.threads[t := Thread(LeaveLock, None)];
    assert s2 == Set(s.(eventWait := false), t, LeaveLock, None);
  }

  lemma StopsPolling(p: Path, s: State, t: nat) returns (q: Path)
    requires Leads(p, s) && t < |s.threads| && s.threads[t] == Thread(LeaveLock, None)
    requires s.lock.None? && NobodyBlocked(s.threads)
    ensures q == p.(steps := q.steps) && Leads(q, Set(s, t, TopWork, None))
  {
    var s1 := Go(s, t, LeaveNotify);
    var s2 := Set(s1, t, TopWork, None);
    assert NobodyBlocked(s2.threads);
    q := Advances(p, s, t, s1);
    q := Advances(q, s1, t, s2);
    assert s2.threads == s.threads[t := Thread(TopWork, None)];
    assert s2 == Set(s, t, TopWork, None);
  }

  /** One futile turn of the loop. */
  lemma FutileTurn(p: Path, s: State, t: nat) returns (q: Path)
    requires Leads(p, s) && t < |s.threads| && s.threads[t] == Thread(TopWork, None)
    requires CanRun(s) && s.lock.None? && s.queue == [] && !s.eventWait && NobodyBlocked(s.threads)
    requires (p.maxCount == 0 || s.cq == []) && s.fd > 0
    ensures q == p.(steps := q.steps) && Leads(q, s.(fd := s.fd - 1))
  {
    q := FallsAsleep(p, s, t);
    var s1 := Set(s.(eventWait := true), t, EvRead, None);
    q := Reads(q, s1, t);
    var s2 := Set(s1.(fd := s1.fd - 1), t, Peek(true, 0), None);
    q := FindsNothing(q, s2, t);
    var s3 := Set(s2.(eventWait := false), t, LeaveLock, None);
    q := StopsPolling(q, s3, t);
    var s4 := Set(s3, t, TopWork, None);
    assert s4.threads == s.threads;
    assert s4 == s.(fd := s.fd - 1);
  }

  lemma SubmitsAndCompletes(p: Path, s: State, t: nat) returns (q: Path)
    requires Leads(p, s) && t < |s.threads| && s.threads[t] == Thread(Out, None) && s.kernel == {}
    ensures q == p.(steps := q.steps)
    ensures Leads(q, s.(work := s.work + 1, next := s.next + 1, cq := s.cq + [s.next], fd := s.fd + 1))
  {
    var s1 := Go(s.(work := s.work + 1, next := s.next + 1), t, SubmitRing(Outside, s.next));
    var s2 := Go(s1.(kernel := s1.kernel + {s.next}), t, Out);
    var s3 := s2.(kernel := s2.kernel - {s.next}, cq := s2.cq + [s.next], fd := s2.fd + 1);
    q := Follow(p, s, t, Submit, s1);
    q := Advances(q, s1, t, s2);
    q := Follow(q, s2, t, KernelCompletes(s.next), s3);
    assert s3.threads == s.threads && s3.kernel == s.kernel;
  }

  /** Nobody can move, thread `t` waits inside `run`, and yet a handler is ready. */
  ghost predicate Stranded(maxCount: nat, s: State, t: nat) {
    Stuck(maxCount, s) && t < |s.threads| && InRun(s.threads[t]) == 1 && CanRun(s) && (s.cq != [] || s.queue != [])
  }

  /** Thread `t` submits an operation, which completes at once, and thread 0 enters `run`. */
  lemma Begins(maxCount: nat, n: nat, quiet: bool, t: nat) returns (q: Path)
    requires t < n
    ensures q == Path(maxCount, n, quiet, q.steps)
    ensures Leads(q, Set(Init(n).(work := 1, next := 1, cq := [0], fd := 1), 0, TopWork, None))
  {
    q := Path(maxCount, n, quiet, []);
    q := SubmitsAndCompletes(q, Init(n), t);
    var s0 := Init(n).(work := 1, next := 1, cq := [0], fd := 1);
    assert Init(n).cq + [0] == [0];
    q := Follow(q, s0, 0, EnterRun, Set(s0, 0, TopWork, None));
  }

  /** With a limit of zero events per transfer, which is what `hardware_concurrency` may return, the
      only thread sleeps with an event in the ring. */
  lemma NoTransferLimitStrands() returns (q: Path, s: State)
    ensures q.maxCount == 0 && q.quiet && Leads(q, s) && Stranded(0, s, 0)
  {
    q := Begins(0, 1, true, 0);
    var s1 := Set(Init(1).(work := 1, next := 1, cq := [0], fd := 1), 0, TopWork, None);
    q := FutileTurn(q, s1, 0);
    var s2 := s1.(fd := s1.fd - 1);
    q := FallsAsleep(q, s2, 0);
    s := Set(s2.(eventWait := true), 0, EvRead, None);
    SleeperIsStuck(0, s, 0);
  }

  lemma SleeperIsStuck(maxCount: nat, s: State, t: nat)
    requires t < |s.threads| && s.fd == 0 && s.threads[t].pc.EvRead?
    requires forall u :: 0 <= u < |s.threads| && u != t ==> s.threads[u].pc.Out?
    ensures Stuck(maxCount, s)
  {}

  lemma SubmitsOnly(p: Path, s: State, t: nat) returns (q: Path)
    requires Leads(p, s) && t < |s.threads| && s.threads[t] == Thread(Out, None)
    ensures q == p.(steps := q.steps)
    ensures Leads(q, s.(work := s.work + 1, next := s.next + 1, kernel := s.kernel + {s.next}))
  {
    var s1 := Go(s.(work := s.work + 1, next := s.next + 1), t, SubmitRing(Outside, s.next));
    var s2 := Go(s1.(kernel := s1.kernel + {s.next}), t, Out);
    q := Follow(p, s, t, Submit, s1);
    q := Advances(q, s1, t, s2);
    assert s2.threads == s.threads;
  }

  /** Sleeping when idle does happen: the only thread waits in `eventfd_read` while the kernel has its
      operation. */
  lemma IdleIsReachable() returns (q: Path, s: State)
    ensures q.maxCount == 1 && q.quiet && Leads(q, s) && Stuck(1, s) && s.kernel == {0}
    ensures |s.threads| == 1 && InRun(s.threads[0]) == 1
  {
    q := Path(1, 1, true, []);
    q := SubmitsOnly(q, Init(1), 0);
    var s1 := Init(1).(work := 1, next := 1, kernel := {0});
    assert Init(1).kernel + {0} == {0};
    var s2 := Set(s1, 0, TopWork, None);
    q := Follow(q, s1, 0, EnterRun, s2);
    q := FallsAsleep(q, s2, 0);
    s := Set(s2.(eventWait := true), 0, EvRead, None);
    SleeperIsStuck(1, s, 0);
  }

  /** A thread that finds another one polling goes to the condition variable. */
  lemma GoesToWait(p: Path, s: State, t: nat) returns (q: Path)
    requires Leads(p, s) && t < |s.threads| && s.threads[t] == Thread(TopWork, None)
    requires CanRun(s) && s.lock.None? && s.queue == [] && s.eventWait
    ensures q == p.(steps := q.steps) && Leads(q, Set(s, t, WaitLock, None))
  {
    var s1 := Go(s, t, TopReset);
    var s2 := Go(s1, t, Body);
    var s3 := Go(s2, t, Exchange);
    var s4 := Go(s3, t, WaitLock);
    q := Advances(p, s, t, s1);
    q := Advances(q, s1, t, s2);
    q := Advances(q, s2, t, s3);
    q := Advances(q, s3, t, s4);
    assert s4.threads == s.threads[t := Thread(WaitLock, None)];
  }

  /** Under the mutex it checks all there is to wait for. */
  lemma ChecksAll(p: Path, s: State, t: nat) returns (q: Path)
    requires Leads(p, s) && t < |s.threads| && s.threads[t] == Thread(WaitLock, None)
    requires CanRun(s) && s.lock.None? && s.queue == [] && s.eventWait
    ensures q == p.(steps := q.steps) && Leads(q, Set(s.(lock := Some(t)), t, CvWait, None))
  {
    var s1 := Go(s.(lock := Some(t)), t, CheckWork);
    var s2 := Go(s1, t, CheckReset);
    var s3 := Go(s2, t, CheckQueue);
    var s4 := Go(s3, t, CheckEvent);
    var s5 := Go(s4, t, CvWait);
    q := Advances(p, s, t, s1);
    q := Advances(q, s1, t, s2);
    q := Advances(q, s2, t, s3);
    q := Advances(q, s3, t, s4);
    q := Advances(q, s4, t, s5);
    assert s5.threads == s.threads[t := Thread(CvWait, None)];
    assert s5 == Set(s.(lock := Some(t)), t, CvWait, None);
  }

  /** With a handler neither in hand nor in the queue, and another thread polling the ring, a thread goes to sleep
      on the condition variable instead of going round. */
  lemma SecondThreadSleeps(p: Path, s: State, t: nat) returns (q: Path)
    requires Leads(p, s) && t < |s.threads| && s.threads[t] == Thread(TopWork, None)
    requires CanRun(s) && s.lock.None? && s.queue == [] && s.eventWait
    ensures q == p.(steps := q.steps) && Leads(q, Set(s, t, Blocked, None))
  {
    q := GoesToWait(p, s, t);
    var s1 := Set(s, t, WaitLock, None);
    q := ChecksAll(q, s1, t);
    var s2 := Set(s1.(lock := Some(t)), t, CvWait, None);
    var s3 := Go(s2.(lock := None), t, Blocked);
    q := Advances(q, s2, t, s3);
    assert s3.threads == s.threads[t := Thread(Blocked, None)];
    assert s3 == Set(s, t, Blocked, None);
  }

  /** A thread takes an event and comes back to the top with its handler. */
  lemma TakesOne(p: Path, s: State, t: nat) returns (q: Path)
    requires Leads(p, s) && p.maxCount == 1 && t < |s.threads| && s.threads[t] == Thread(Peek(false, 0), None)
    requires |s.cq| == 1 && s.work > 0
    ensures q == p.(steps := q.steps) && Leads(q, Set(s.(cq := [], eventWait := false), t, TopReset, Some(s.cq[0])))
  {
    var h := s.cq[0];
    var s1 := Set(s.(cq := s.cq[1..]), t, Peek(false, 1), Some(h));
    var s2 := Go(s1, t, EvLeave);
    var s3 := Go(s2.(eventWait := false), t, TopWork);
    var s4 := Go(s3, t, TopReset);
    q := Advances(p, s, t, s1);
    q := Advances(q, s1, t, s2);
    q := Advances(q, s2, t, s3);
    q := Advances(q, s3, t, s4);
    assert s.cq[1..] == [];
    assert s4.threads == s.threads[t := Thread(TopReset, Some(h))];
    assert s4 == Set(s.(cq := [], eventWait := false), t, TopReset, Some(h));
  }

  /** `stop` called from outside, when nobody sleeps, up to its `notify_all`. */
  lemma StartsStopping(p: Path, s: State, t: nat) returns (q: Path)
    requires Leads(p, s) && t < |s.threads| && s.threads[t] == Thread(Out, None) && s.lock.None?
    ensures q == p.(steps := q.steps) && Leads(q, Set(s.(needsReset := true), t, WakeNotify(Outside), None))
  {
    var s1 := Go(s.(needsReset := true), t, WakeLock(Outside));
    var s2 := Go(s1, t, WakeNotify(Outside));
    q := Follow(p, s, t, Stop, s1);
    q := Advances(q, s1, t, s2);
    assert s2.threads == s.threads[t := Thread(WakeNotify(Outside), None)];
    assert s2 == Set(s.(needsReset := true), t, WakeNotify(Outside), None);
  }

  lemma EndsStopping(p: Path, s: State, t: nat) returns (q: Path)
    requires Leads(p, s) && t < |s.threads| && s.threads[t] == Thread(WakeNotify(Outside), None)
             && NobodyBlocked(s.threads)
    ensures q == p.(steps := q.steps) && Leads(q, Set(s.(fd := s.fd + 1), t, Out, None))
  {
    var s1 := Go(s, t, WakeFd(Outside));
    var s2 := Go(s1.(fd := s1.fd + 1), t, Out);
    assert s1.threads == WakeEvery(s1.threads);
    q := Advances(p, s, t, s1);
    q := Advances(q, s1, t, s2);
    assert s2.threads == s.threads[t := Thread(Out, None)];
    assert s2 == Set(s.(fd := s.fd + 1), t, Out, None);
  }

  lemma Stops(p: Path, s: State, t: nat) returns (q: Path)
    requires Leads(p, s) && t < |s.threads| && s.threads[t] == Thread(Out, None)
    requires s.lock.None? && NobodyBlocked(s.threads)
    ensures q == p.(steps := q.steps) && Leads(q, s.(needsReset := true, fd := s.fd + 1))
  {
    q := StartsStopping(p, s, t);
    var s1 := Set(s.(needsReset := true), t, WakeNotify(Outside), None);
    q := EndsStopping(q, s1, t);
    var s2 := Set(s1.(fd := s1.fd + 1), t, Out, None);
    assert s2.threads == s.threads;
    assert s2 == s.(needsReset := true, fd := s.fd + 1);
  }

  /** Thread 0 takes the only handler. */
  lemma Holding() returns (q: Path, s: State)
    ensures q.maxCount == 1 && q.n == 3 && !q.quiet && Leads(q, s)
    ensures s == Set(Init(3).(work := 1, next := 1, fd := 1), 0, TopReset, Some(0))
  {
    q := Begins(1, 3, false, 2);
    var s1 := Set(Init(3).(work := 1, next := 1, cq := [0], fd := 1), 0, TopWork, None);
    q := StartsPolling(q, s1, 0);
    var s2 := Set(s1.(eventWait := true), 0, Peek(false, 0), None);
    q := TakesOne(q, s2, 0);
    s := Set(s2.(cq := [], eventWait := false), 0, TopReset, Some(0));
    assert s.threads == Set(Init(3), 0, TopReset, Some(0)).threads;
    assert s == Set(Init(3).(work := 1, next := 1, fd := 1), 0, TopReset, Some(0));
  }

  lemma {:induction false} FutileTurns(p: Path, s: State, t: nat) returns (q: Path)
    requires Leads(p, s) && t < |s.threads| && s.threads[t] == Thread(TopWork, None)
    requires CanRun(s) && s.lock.None? && s.queue == [] && !s.eventWait && NobodyBlocked(s.threads)
    requires p.maxCount == 0 || s.cq == []
    ensures q == p.(steps := q.steps) && Leads(q, s.(fd := 0))
    decreases s.fd
  {
    if s.fd == 0 {
      assert s.(fd := 0) == s;
      q := p;
    } else {
      q := FutileTurn(p, s, t);
      q := FutileTurns(q, s.(fd := s.fd - 1), t);
    }
  }

  /** Thread `t` is on its way out of `run` with a handler, and all others are outside. */
  predicate LeavesAlone(s: State, t: nat) {
    && t < |s.threads| && s.threads[t].pc.Stash? && s.threads[t].local.Some?
    && (forall v :: 0 <= v < |s.threads| && v != t ==> s.threads[v] == Thread(Out, None))
    && s.work != 0 && s.lock.None? && s.queue == [] && s.cq == [] && !s.eventWait
  }

  /** Thread `u` resets the loop, enters `run` and falls asleep before thread `t` is out. */
  lemma SleepsWhileLeaving(p: Path, s: State, t: nat, u: nat) returns (q: Path)
    requires Leads(p, s) && !p.quiet && LeavesAlone(s, t) && u < |s.threads| && u != t
    ensures q == p.(steps := q.steps)
    ensures Leads(q, Set(s.(needsReset := false, eventWait := true, fd := 0), u, EvRead, None))
  {
    var s1 := s.(needsReset := false);
    var s2 := Set(s1, u, TopWork, None);
    q := Follow(p, s, u, Reset, s1);
    q := Follow(q, s1, u, EnterRun, s2);
    q := FutileTurns(q, s2, u);
    var s3 := s2.(fd := 0);
    q := FallsAsleep(q, s3, u);
    var s4 := Set(s3.(eventWait := true), u, EvRead, None);
    assert s4.threads == s.threads[u := Thread(EvRead, None)];
    assert s4 == Set(s.(needsReset := false, eventWait := true, fd := 0), u, EvRead, None);
  }

  /** Whenever `reset` is called while a thread is on its way out of `run` with a handler and all others are
      outside, that handler can go back to the queue unannounced, and the loop sleeps on it. */
  lemma ResetStrands(p: Path, s: State, t: nat, u: nat) returns (q: Path, s': State)
    requires Leads(p, s) && !p.quiet && LeavesAlone(s, t) && u < |s.threads| && u != t
    ensures q == p.(steps := q.steps) && Leads(q, s') && Stranded(p.maxCount, s', u)
  {
    q := SleepsWhileLeaving(p, s, t, u);
    var s1 := Set(s.(needsReset := false, eventWait := true, fd := 0), u, EvRead, None);
    s' := Set(s1.(queue := [s.threads[t].local.value] + s1.queue), t, Out, None);
    q := Advances(q, s1, t, s');
    SleeperIsStuck(p.maxCount, s', u);
  }

  /** Such a run from the start: thread 0 takes the only handler, thread 2 stops the loop, thread 0 decides to
      leave, and thread 1 resets the loop and enters it. */
  lemma EarlyResetStrands() returns (q: Path, s: State)
    ensures q.maxCount == 1 && Leads(q, s) && Stranded(1, s, 1)
  {
    q, s := Holding();
    q := Stops(q, s, 2);
    var s1 := s.(needsReset := true, fd := s.fd + 1);
    var s2 := Go(s1, 0, Stash);
    q := Advances(q, s1, 0, s2);
    q, s := ResetStrands(q, s2, 0, 1);
  }
}
