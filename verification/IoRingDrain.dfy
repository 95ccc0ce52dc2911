/** The run loop does its work: a thread alone in `run` gets every ready handler invoked and finished, and a thread
    in a loop that is stopped or out of work gets out. */
module IoRingDrain {
  import opened Common
  import opened Tally
  import opened IoRing
  import Flow = IoRingFlow
  import Wake = IoRingWake
  import opened IoRingProgress

  // ---------------------------------------------------------------- one handler

  /** A thread at the top of a loop that may run, with a handler in hand, invokes that handler next. */
  lemma InvokesHandler(p: Path, s: State, t: nat, h: Handler) returns (q: Path)
    requires Leads(p, s) && t < |s.threads| && s.threads[t] == Thread(TopWork, Some(h)) && CanRun(s)
    ensures q == p.(steps := p.steps + [(t, Advance(0)), (t, Advance(0)), (t, Advance(0))])
    ensures Leads(q, Set(s.(invoked := s.invoked + [h]), t, Invoking, Some(h)))
  {
    var s1 := Set(s, t, TopReset, Some(h));
    var s2 := Set(s, t, Body, Some(h));
    var s3 := Set(s.(invoked := s.invoked + [h]), t, Invoking, Some(h));
    InvokeSteps(s, t, h, s1, s2, s3);
    q := Advances(p, s, t, s1);
    q := Advances(q, s1, t, s2);
    q := Advances(q, s2, t, s3);
    assert q.steps == p.steps + [(t, Advance(0)), (t, Advance(0)), (t, Advance(0))];
  }

  lemma InvokeSteps(s: State, t: nat, h: Handler, s1: State, s2: State, s3: State)
    requires t < |s.threads| && s.threads[t] == Thread(TopWork, Some(h)) && CanRun(s)
    requires s1 == Set(s, t, TopReset, Some(h)) && s2 == Set(s, t, Body, Some(h))
    requires s3 == Set(s.(invoked := s.invoked + [h]), t, Invoking, Some(h))
    ensures StepLoop(s, t) == Some(s1) && StepLoop(s1, t) == Some(s2) && StepLoop(s2, t) == Some(s3)
  {
    assert s1.threads[t := s2.threads[t]] == s2.threads && s2.threads[t := s3.threads[t]] == s3.threads;
  }

  /** When the handler returns it is finished, and then the work count is one less. */
  lemma FinishesHandler(p: Path, s: State, t: nat, h: Handler) returns (q: Path, s': State)
    requires Leads(p, s) && t < |s.threads| && s.threads[t] == Thread(Invoking, Some(h))
    ensures q == p.(steps := p.steps + [(t, Advance(0)), (t, Advance(0))]) && Leads(q, s')
    ensures s'.done == s.done + {h} && s'.invoked == s.invoked && s'.work == s.work - 1
  {
    var s1 := Set(s.(done := s.done + {h}), t, Finish, None);
    s' := Decrement(s1, t, AfterInvoke);
    q := Advances(p, s, t, s1);
    q := Advances(q, s1, t, s');
    assert q.steps == p.steps + [(t, Advance(0)), (t, Advance(0))];
  }

  // ---------------------------------------------------------------- waking others

  function Asleep(th: Thread): nat { AsNat(th.pc.Blocked?) }

  /** A thread that puts a handler into the queue, or stops polling with nothing, wakes one of the threads asleep
      on the condition variable, if there are any. */
  lemma NotifiesOne(maxCount: nat, s: State, t: nat, u: nat, s': State)
    requires t < |s.threads| && (s.threads[t].pc.PushNotify? || s.threads[t].pc.LeaveNotify?)
    requires StepTransfer(maxCount, s, t, u) == Some(s')
    ensures Sum(Asleep, s'.threads) == if Sum(Asleep, s.threads) > 0 then Sum(Asleep, s.threads) - 1 else 0
  {
    Wake.PollThenNotify(maxCount, s, t, u, s');
    var m := Wake.Polls(maxCount, s, t).value;
    SumUpdate(Asleep, s.threads, t, m.threads[t]);
    SumZero(Asleep, m.threads);
    if u < |m.threads| && m.threads[u].pc.Blocked? {
      SumUpdate(Asleep, m.threads, u, s'.threads[u]);
      SumAtLeast(Asleep, m.threads, u);
    }
  }

  // ---------------------------------------------------------------- a thread alone in the loop

  /** No thread but `t` is inside `run`; others may be in a call from outside. */
  predicate Alone(s: State, t: nat) {
    && t < |s.threads| && InRun(s.threads[t]) == 1
    && forall u :: 0 <= u < |s.threads| && u != t ==> InRun(s.threads[u]) == 0
  }

  /** The steps left of a call from outside. */
  function CallLeft(th: Thread): nat {
    if !Wake.CalledFromOutside(th.pc) then 0
    else if th.pc.WakeLock? then 3
    else if th.pc.WakeNotify? then 2
    else 1
  }

  /** The handlers that are ready or in the hands of thread `t`. */
  function Ready(s: State, t: nat): nat
    requires t < |s.threads|
  {
    |s.cq| + |s.queue| + Flow.HeldCount(s.threads[t])
  }

  /** How far a thread is from taking an event off the ring or finishing a handler, with nothing else to do. What
      comes first depends on whether there is a handler in the queue. */
  function Rank(th: Thread, queued: bool): nat {
    match th.pc
    case Finish => 60
    case WakeLock(_) => 59
    case WakeNotify(_) => 58
    case WakeFd(_) => 57
    case SubmitRing(_, _) => 57
    case WaitLock => 56
    case CheckWork => 55
    case CheckReset => 54
    case CheckQueue => 53
    case CheckEvent => 52
    case CvWait => 51
    case Blocked => 50
    case WaitPop => 49
    case Exchange => if queued then 48 else 27
    case Peek(second, _) => if th.local.Some? then 15 else if second then (if queued then 42 else 21)
                            else if queued then 47 else 26
    case EvRead => if queued then 46 else 25
    case EvWork => if queued then 45 else 24
    case EvReset => if queued then 44 else 23
    case EvWrite => if queued then 43 else 22
    case EvLeave => if th.local.Some? then 14 else 34
    case LeaveLock => 33
    case LeaveNotify => 32
    case TopWork => if th.local.Some? then 13 else 30
    case TopReset => if th.local.Some? then 12 else 29
    case Body => if th.local.Some? then 11 else 28
    case Push(_, _, _) => 17
    case PushNotify(_, _, _) => 16
    case Invoking => 10
    case _ => 0
  }

  function RankOf(s: State, t: nat): nat
    requires t < |s.threads|
  {
    Rank(s.threads[t], s.queue != [])
  }

  /** Thread `t` has got on: fewer handlers ready, or the same and fewer of them in the ring, or it is closer. */
  predicate GotOn(s: State, t: nat, s': State) {
    && t < |s.threads| == |s'.threads|
    && (|| Ready(s', t) < Ready(s, t)
        || (Ready(s', t) == Ready(s, t) && |s'.cq| < |s.cq|)
        || (Ready(s', t) == Ready(s, t) && |s'.cq| == |s.cq| && RankOf(s', t) < RankOf(s, t)))
  }

  /** A call from outside has got on, or none has and thread `t` has. */
  predicate Closer(s: State, t: nat, s': State) {
    || Sum(CallLeft, s'.threads) < Sum(CallLeft, s.threads)
    || (Sum(CallLeft, s'.threads) == Sum(CallLeft, s.threads) && GotOn(s, t, s'))
  }

  /** What a step of thread `t`, inside `run`, leaves as it was. */
  predicate OwnMove(s: State, t: nat, s': State)
    requires t < |s.threads|
  {
    && |s'.threads| == |s.threads| && s'.threads == s.threads[t := s'.threads[t]] && InRun(s'.threads[t]) == 1
    && s'.needsReset == s.needsReset && s'.next == s.next
  }

  /** Nothing keeps thread `t` from its next step. */
  predicate CanGo(maxCount: nat, s: State, t: nat) {
    && t < |s.threads| && maxCount > 0 && CanRun(s) && NobodyBlocked(s.threads) && Flow.LocalOk(s.threads[t])
    && var pc := s.threads[t].pc;
       && InRun(s.threads[t]) == 1 && !pc.Stash? && !pc.CvWait? && s.lock == (if InCritical(pc) then Some(t) else None)
       && (pc.Exchange? || Wake.Checks(pc) ==> !s.eventWait) && (pc.EvRead? ==> s.fd > 0) && Ready(s, t) > 0
  }

  lemma TopGetsOn(maxCount: nat, s: State, t: nat)
    requires CanGo(maxCount, s, t) && (s.threads[t].pc.TopWork? || s.threads[t].pc.TopReset?)
    ensures var r := StepLoop(s, t); r.Some? && OwnMove(s, t, r.value) && GotOn(s, t, r.value)
  {}

  lemma LoopGetsOn(maxCount: nat, s: State, t: nat)
    requires CanGo(maxCount, s, t) && (s.threads[t].pc.Invoking? || s.threads[t].pc.Finish?)
    ensures var r := StepLoop(s, t); r.Some? && OwnMove(s, t, r.value) && GotOn(s, t, r.value)
  {}

  lemma BodyGetsOn(maxCount: nat, s: State, t: nat)
    requires CanGo(maxCount, s, t) && s.threads[t].pc.Body?
    ensures var r := StepLoop(s, t); r.Some? && OwnMove(s, t, r.value) && GotOn(s, t, r.value)
  {}

  /** A step that only moves the thread on to a point that is closer. */
  lemma StepsDown(s: State, t: nat, pc: Pc)
    requires t < |s.threads| && InRun(Thread(pc, s.threads[t].local)) == 1
    requires Flow.InHand(pc) == Flow.InHand(s.threads[t].pc)
    requires Rank(Thread(pc, s.threads[t].local), s.queue != []) < RankOf(s, t)
    ensures OwnMove(s, t, Go(s, t, pc)) && GotOn(s, t, Go(s, t, pc))
  {}

  lemma CheckMoves(s: State, t: nat)
    requires t < |s.threads| && Wake.Checks(s.threads[t].pc) && !s.eventWait
    ensures var r := StepWait(s, t); r.Some? && OwnMove(s, t, r.value) && GotOn(s, t, r.value)
  {
    var pc := StepWait(s, t).value.threads[t].pc;
    assert StepWait(s, t) == Some(Go(s, t, pc));
    StepsDown(s, t, pc);
  }

  lemma WaitGetsOn(maxCount: nat, s: State, t: nat)
    requires CanGo(maxCount, s, t) && (s.threads[t].pc.WaitLock? || s.threads[t].pc.WaitPop?)
    ensures var r := StepWait(s, t); r.Some? && OwnMove(s, t, r.value) && GotOn(s, t, r.value)
  {}

  lemma PeekGetsOn(maxCount: nat, s: State, t: nat)
    requires CanGo(maxCount, s, t) && s.threads[t].pc.Peek?
    ensures var r := StepTransfer(maxCount, s, t, 0); r.Some? && OwnMove(s, t, r.value) && GotOn(s, t, r.value)
  {}

  lemma PushGetsOn(maxCount: nat, s: State, t: nat)
    requires CanGo(maxCount, s, t)
    requires var pc := s.threads[t].pc; pc.Push? || pc.PushNotify? || pc.Exchange?
    ensures var r := StepTransfer(maxCount, s, t, 0); r.Some? && OwnMove(s, t, r.value) && GotOn(s, t, r.value)
  {}

  lemma ReadGetsOn(maxCount: nat, s: State, t: nat)
    requires CanGo(maxCount, s, t) && (s.threads[t].pc.EvRead? || s.threads[t].pc.EvWork?)
    ensures var r := StepTransfer(maxCount, s, t, 0); r.Some? && OwnMove(s, t, r.value) && GotOn(s, t, r.value)
  {}

  lemma EventGetsOn(maxCount: nat, s: State, t: nat)
    requires CanGo(maxCount, s, t) && (s.threads[t].pc.EvReset? || s.threads[t].pc.EvWrite?)
    ensures var r := StepTransfer(maxCount, s, t, 0); r.Some? && OwnMove(s, t, r.value) && GotOn(s, t, r.value)
  {}

  lemma LeaveGetsOn(maxCount: nat, s: State, t: nat)
    requires CanGo(maxCount, s, t)
    requires var pc := s.threads[t].pc; pc.EvLeave? || pc.LeaveLock? || pc.LeaveNotify?
    ensures var r := StepTransfer(maxCount, s, t, 0); r.Some? && OwnMove(s, t, r.value) && GotOn(s, t, r.value)
  {}

  lemma CallGetsOn(maxCount: nat, s: State, t: nat)
    requires CanGo(maxCount, s, t)
    requires var pc := s.threads[t].pc; pc.WakeLock? || pc.WakeFd? || pc.SubmitRing?
    ensures var r := StepWake(s, t); r.Some? && OwnMove(s, t, r.value) && GotOn(s, t, r.value)
  {}

  lemma NotifyGetsOn(maxCount: nat, s: State, t: nat)
    requires CanGo(maxCount, s, t) && s.threads[t].pc.WakeNotify?
    ensures var r := StepWake(s, t); r.Some? && OwnMove(s, t, r.value) && GotOn(s, t, r.value)
  {
    var pc := WakeFd(s.threads[t].pc.back);
    StepsDown(s, t, pc);
    assert WakeEvery(Go(s, t, pc).threads) == Go(s, t, pc).threads;
  }

  lemma GetsOn(maxCount: nat, s: State, t: nat) returns (s': State)
    requires CanGo(maxCount, s, t)
    ensures AdvanceThread(maxCount, s, t, 0) == Some(s') && OwnMove(s, t, s') && GotOn(s, t, s')
  {
    var pc := s.threads[t].pc;
    if pc.TopWork? || pc.TopReset? {
      TopGetsOn(maxCount, s, t);
    } else if pc.Body? {
      BodyGetsOn(maxCount, s, t);
    } else if InLoop(pc) {
      LoopGetsOn(maxCount, s, t);
    } else if pc.Peek? {
      PeekGetsOn(maxCount, s, t);
    } else if pc.Push? || pc.PushNotify? || pc.Exchange? {
      PushGetsOn(maxCount, s, t);
    } else if pc.EvRead? || pc.EvWork? {
      ReadGetsOn(maxCount, s, t);
    } else if pc.EvReset? || pc.EvWrite? {
      EventGetsOn(maxCount, s, t);
    } else if InTransfer(pc) {
      LeaveGetsOn(maxCount, s, t);
    } else if Wake.Checks(pc) {
      CheckMoves(s, t);
    } else if InWait(pc) {
      WaitGetsOn(maxCount, s, t);
    } else if pc.WakeNotify? {
      NotifyGetsOn(maxCount, s, t);
    } else {
      CallGetsOn(maxCount, s, t);
    }
    s' := AdvanceThread(maxCount, s, t, 0).value;
  }

  // ---------------------------------------------------------------- nothing is in its way

  /** What is known of the state after any run with quiet resets. */
  ghost predicate Known(s: State) { Flow.FlowInv(s) && Wake.WakeInv(s) && IdleInv(s) }

  lemma Knows(p: Path, s: State)
    requires Leads(p, s) && p.quiet && p.maxCount > 0
    ensures Known(s)
  {
    Flow.RunsConserveHandlers(p.maxCount, p.n, p.steps);
    Wake.RunsKeepWake(p.maxCount, p.n, p.steps);
    RunsKeepIdle(p.maxCount, p.n, p.steps);
  }

  lemma NoCalls(s: State, u: nat)
    requires Sum(CallLeft, s.threads) == 0 && u < |s.threads|
    ensures !Wake.CalledFromOutside(s.threads[u].pc)
  {
    SumAtLeast(CallLeft, s.threads, u);
  }

  /** Alone, with no call under way, the thread is the only one that counts. */
  lemma OnlyOneCounts(s: State, t: nat)
    requires Alone(s, t) && Sum(CallLeft, s.threads) == 0
    ensures var g, th := Wake.SignalsOf(s), s.threads[t];
            && g.awake == Wake.Awake(th) && g.atLock == Wake.AtWakeLock(th) && g.notifying == Wake.AtWakeNotify(th)
    ensures Sum(Drains, s.threads) == Drains(s.threads[t]) && Sum(Attentive, s.threads) == Attentive(s.threads[t])
    ensures Sum(Notifies, s.threads) == Notifies(s.threads[t]) && Sum(Writes, s.threads) == Writes(s.threads[t])
    ensures Sum(Wake.InEvent, s.threads) == Wake.InEvent(s.threads[t])
  {
    forall u | 0 <= u < |s.threads| && u != t ensures s.threads[u].pc.Out? { NoCalls(s, u); }
    SumSingle(Wake.Awake, s.threads, t);
    SumSingle(Wake.AtWakeLock, s.threads, t);
    SumSingle(Wake.AtWakeNotify, s.threads, t);
    SumSingle(Drains, s.threads, t);
    SumSingle(Attentive, s.threads, t);
    SumSingle(Notifies, s.threads, t);
    SumSingle(Writes, s.threads, t);
    SumSingle(Wake.InEvent, s.threads, t);
  }

  lemma LockIsOwn(s: State, t: nat)
    requires Alone(s, t) && Wake.LockInv(s)
    ensures s.lock == if InCritical(s.threads[t].pc) then Some(t) else None
  {
    if s.lock.Some? {
      var v := s.lock.value;
      assert InCritical(s.threads[v].pc) && InRun(s.threads[v]) == 1;
    }
  }

  lemma HasWork(s: State, t: nat)
    requires Flow.WorkInv(s) && t < |s.threads| && Ready(s, t) > 0
    ensures s.work > 0
  {
    SumAtLeast(Flow.HeldCount, s.threads, t);
  }

  lemma NobodySleeps(s: State, t: nat)
    requires Alone(s, t) && Known(s) && Sum(CallLeft, s.threads) == 0
    ensures NobodyBlocked(s.threads) && !s.threads[t].pc.CvWait?
  {
    OnlyOneCounts(s, t);
    assert Wake.ThreadOk(Wake.SignalsOf(s), s.threads[t].pc);
  }

  /** A ready handler leaves the event fd readable to the thread that is about to read it. */
  lemma CanRead(s: State, t: nat)
    requires Alone(s, t) && Known(s) && Sum(CallLeft, s.threads) == 0 && CanRun(s) && Ready(s, t) > 0
    requires s.threads[t].pc.EvRead?
    ensures s.fd > 0
  {
    OnlyOneCounts(s, t);
    SumAtLeast(InRun, s.threads, t);
    assert Flow.LocalOk(s.threads[t]);
  }

  lemma NothingInTheWay(maxCount: nat, s: State, t: nat)
    requires Alone(s, t) && Known(s) && Sum(CallLeft, s.threads) == 0
    requires maxCount > 0 && !s.needsReset && Ready(s, t) > 0
    ensures CanGo(maxCount, s, t)
  {
    HasWork(s, t);
    LockIsOwn(s, t);
    NobodySleeps(s, t);
    OnlyOneCounts(s, t);
    if s.threads[t].pc.EvRead? { CanRead(s, t); }
    assert StashOk(s, s.threads[t]) && Flow.LocalOk(s.threads[t]);
  }

  // ---------------------------------------------------------------- calls from outside

  /** What a step of a call from outside does to the others: sleepers may wake up. */
  predicate CallMove(s: State, s': State) {
    && |s'.threads| == |s.threads| && s'.needsReset == s.needsReset
    && Sum(CallLeft, s'.threads) < Sum(CallLeft, s.threads)
    && forall v :: 0 <= v < |s.threads| ==> InRun(s'.threads[v]) == InRun(s.threads[v])
  }

  lemma CallNotifies(s: State, u: nat)
    requires u < |s.threads| && s.threads[u].pc == WakeNotify(Outside)
    ensures StepWake(s, u).Some? && CallMove(s, StepWake(s, u).value)
  {
    var m := Go(s, u, WakeFd(Outside));
    CallGoesOn(s, u, WakeFd(Outside), m);
    WakingChangesNoCall(m.threads);
  }

  lemma WakingChangesNoCall(threads: seq<Thread>)
    ensures Sum(CallLeft, WakeEvery(threads)) == Sum(CallLeft, threads)
    ensures forall v :: 0 <= v < |threads| ==> InRun(WakeEvery(threads)[v]) == InRun(threads[v])
  {
    SumAgrees(CallLeft, WakeEvery(threads), threads);
  }

  lemma CallGoesOn(s: State, u: nat, pc: Pc, s': State)
    requires u < |s.threads| && s'.threads == s.threads[u := s.threads[u].(pc := pc)] && s'.needsReset == s.needsReset
    requires Wake.CalledFromOutside(s.threads[u].pc) && (pc.Out? || Wake.CalledFromOutside(pc))
    requires CallLeft(s.threads[u].(pc := pc)) < CallLeft(s.threads[u])
    ensures CallMove(s, s')
  {
    SumUpdate(CallLeft, s.threads, u, s'.threads[u]);
  }

  /** A call from outside takes its next step when the mutex is free. */
  lemma CallMoves(maxCount: nat, s: State, u: nat) returns (s': State)
    requires u < |s.threads| && Wake.CalledFromOutside(s.threads[u].pc) && s.lock.None?
    ensures AdvanceThread(maxCount, s, u, 0) == Some(s') && CallMove(s, s')
  {
    s' := StepWake(s, u).value;
    if s.threads[u].pc.WakeNotify? {
      CallNotifies(s, u);
    } else {
      CallGoesOn(s, u, if s.threads[u].pc.WakeLock? then WakeNotify(Outside) else Out, s');
    }
  }

  lemma ReleaseMoves(s: State, t: nat)
    requires t < |s.threads| && (s.threads[t].pc.CvWait? || s.threads[t].pc.WaitPop?) && s.threads[t].local.None?
    ensures var r := StepWait(s, t); r.Some? && OwnMove(s, t, r.value) && GotOn(s, t, r.value)
  {}

  /** The thread that holds the mutex takes its next step. */
  lemma CriticalMoves(maxCount: nat, s: State, t: nat) returns (s': State)
    requires t < |s.threads| && InCritical(s.threads[t].pc) && !s.eventWait && Flow.LocalOk(s.threads[t])
    ensures AdvanceThread(maxCount, s, t, 0) == Some(s') && OwnMove(s, t, s') && GotOn(s, t, s')
  {
    if Wake.Checks(s.threads[t].pc) { CheckMoves(s, t); } else { ReleaseMoves(s, t); }
    s' := StepWait(s, t).value;
  }

  lemma NobodyPolls(s: State, t: nat)
    requires Alone(s, t) && Wake.EventInv(s) && !InEventRegion(s.threads[t].pc)
    ensures !s.eventWait
  {
    if s.eventWait { var u := SumPositive(Wake.InEvent, s.threads); }
  }

  // ---------------------------------------------------------------- all of it

  /** The handler is not with the kernel nor on its way there. */
  predicate Returned(s: State, h: Handler) {
    h !in s.kernel && forall u :: 0 <= u < |s.threads| ==> s.threads[u].pc.SubmitRing? ==> s.threads[u].pc.op != h
  }

  lemma StaysReturned(maxCount: nat, s: State, t: nat, s': State, h: Handler)
    requires t < |s.threads| && AdvanceThread(maxCount, s, t, 0) == Some(s') && Returned(s, h)
    ensures Returned(s', h)
  {
    KernelGrows(maxCount, s, t, s');
  }

  /** A step hands an operation to the kernel only if it was on its way there, and sends no new one. */
  lemma KernelGrows(maxCount: nat, s: State, t: nat, s': State)
    requires t < |s.threads| && AdvanceThread(maxCount, s, t, 0) == Some(s')
    ensures |s'.threads| == |s.threads|
    ensures s'.kernel == if s.threads[t].pc.SubmitRing? then s.kernel + {s.threads[t].pc.op} else s.kernel
    ensures forall u :: 0 <= u < |s.threads| && s'.threads[u].pc.SubmitRing? ==> s'.threads[u].pc == s.threads[u].pc
  {
    var pc := s.threads[t].pc;
    if InLoop(pc) {
      LoopSubmitsNothing(s, t, s');
    } else if InTransfer(pc) {
      TransferSubmitsNothing(maxCount, s, t, s');
    } else if InWait(pc) {
      WaitSubmitsNothing(s, t, s');
    }
  }

  lemma WaitSubmitsNothing(s: State, t: nat, s': State)
    requires t < |s.threads| && StepWait(s, t) == Some(s')
    ensures |s'.threads| == |s.threads| && s'.kernel == s.kernel && !s'.threads[t].pc.SubmitRing?
    ensures s'.threads == s.threads[t := s'.threads[t]]
  {}

  lemma LoopSubmitsNothing(s: State, t: nat, s': State)
    requires t < |s.threads| && StepLoop(s, t) == Some(s')
    ensures |s'.threads| == |s.threads| && s'.kernel == s.kernel && !s'.threads[t].pc.SubmitRing?
    ensures s'.threads == s.threads[t := s'.threads[t]]
  {}

  lemma TransferSubmitsNothing(maxCount: nat, s: State, t: nat, s': State)
    requires t < |s.threads| && InTransfer(s.threads[t].pc) && StepTransfer(maxCount, s, t, 0) == Some(s')
    ensures |s'.threads| == |s.threads| && s'.kernel == s.kernel
    ensures forall u :: 0 <= u < |s.threads| && s'.threads[u].pc.SubmitRing? ==> s'.threads[u].pc == s.threads[u].pc
  {
    Wake.PollThenNotify(maxCount, s, t, 0, s');
    PollSubmitsNothing(maxCount, s, t, Wake.Polls(maxCount, s, t).value);
  }

  lemma PollSubmitsNothing(maxCount: nat, s: State, t: nat, s': State)
    requires t < |s.threads| && InTransfer(s.threads[t].pc) && Wake.Polls(maxCount, s, t) == Some(s')
    ensures |s'.threads| == |s.threads| && s'.kernel == s.kernel && !s'.threads[t].pc.SubmitRing?
    ensures s'.threads == s.threads[t := s'.threads[t]]
  {}

  predicate OnlyAdvances(before: seq<(nat, Action)>, after: seq<(nat, Action)>) {
    before <= after && forall i :: |before| <= i < |after| ==> after[i].1.Advance?
  }

  lemma OneMore(before: seq<(nat, Action)>, t: nat, after: seq<(nat, Action)>)
    requires OnlyAdvances(before + [(t, Advance(0))], after)
    ensures OnlyAdvances(before, after)
  {
    assert after[|before|] == (t, Advance(0));
  }

  lemma OwnStaysAlone(s: State, t: nat, s': State)
    requires Alone(s, t) && OwnMove(s, t, s')
    ensures Alone(s', t) && Sum(CallLeft, s'.threads) == Sum(CallLeft, s.threads)
  {
    SumUpdate(CallLeft, s.threads, t, s'.threads[t]);
  }

  /** The next step towards a loop with nothing left to do: a call from outside goes on if there is one, and else
      the thread in the loop. */
  lemma NextStep(maxCount: nat, s: State, t: nat) returns (u: nat, s': State)
    requires Alone(s, t) && Known(s) && maxCount > 0 && !s.needsReset
    requires Sum(CallLeft, s.threads) > 0 || Ready(s, t) > 0
    ensures u < |s.threads| && AdvanceThread(maxCount, s, u, 0) == Some(s')
    ensures Alone(s', t) && !s'.needsReset && Closer(s, t, s')
  {
    LockIsOwn(s, t);
    if Sum(CallLeft, s.threads) == 0 {
      NothingInTheWay(maxCount, s, t);
      u := t;
      s' := GetsOn(maxCount, s, t);
      OwnStaysAlone(s, t, s');
    } else if s.lock.None? {
      u := SumPositive(CallLeft, s.threads);
      s' := CallMoves(maxCount, s, u);
    } else {
      u := t;
      NobodyPolls(s, t);
      assert Flow.LocalOk(s.threads[t]);
      s' := CriticalMoves(maxCount, s, t);
      OwnStaysAlone(s, t, s');
    }
  }

  /** All calls from outside are over, and no handler is ready or in hand. */
  predicate Idle(s: State, t: nat) {
    && t < |s.threads| && Sum(CallLeft, s.threads) == 0
    && s.cq == [] && s.queue == [] && Flow.HeldCount(s.threads[t]) == 0
  }

  lemma {:induction false} Drain(p: Path, s: State, t: nat) returns (q: Path, s': State)
    requires Leads(p, s) && p.quiet && p.maxCount > 0 && Alone(s, t) && !s.needsReset
    ensures q == p.(steps := q.steps) && OnlyAdvances(p.steps, q.steps) && Leads(q, s') && Alone(s', t) && Idle(s', t)
    ensures forall h: Handler :: Returned(s, h) ==> Returned(s', h)
    decreases Sum(CallLeft, s.threads), Ready(s, t), |s.cq|, RankOf(s, t)
  {
    if Idle(s, t) {
      q, s' := p, s;
    } else {
      Knows(p, s);
      var u, m := NextStep(p.maxCount, s, t);
      q := Advances(p, s, u, m);
      q, s' := Drain(q, m, t);
      OneMore(p.steps, u, q.steps);
      forall h: Handler | Returned(s, h) ensures Returned(s', h) { StaysReturned(p.maxCount, s, u, m, h); }
    }
  }

  /** A handler that is ready, or in the thread's hands: in the ring, in the queue, or taken off either. */
  predicate IsReady(s: State, t: nat, h: Handler)
    requires t < |s.threads|
  {
    h in s.cq || h in s.queue || s.threads[t].local == Some(h)
  }

  lemma ReadyIsReturned(s: State, t: nat, h: Handler)
    requires Flow.FlowAt(s, h) && t < |s.threads| && IsReady(s, t, h)
    ensures h < s.next && Returned(s, h)
  {
    SumAtLeast(Flow.HeldBy(h), s.threads, t);
    forall u | 0 <= u < |s.threads| && s.threads[u].pc.SubmitRing? ensures s.threads[u].pc.op != h {
      SumAtLeast(Flow.HeldBy(h), s.threads, u);
      if u != t { SumAtLeastTwo(Flow.HeldBy(h), s.threads, if t < u then t else u, if t < u then u else t); }
    }
  }

  lemma NowhereElse(s: State, t: nat, h: Handler)
    requires Flow.FlowAt(s, h) && h < s.next && Alone(s, t) && Idle(s, t) && h !in s.kernel
    requires forall u :: 0 <= u < |s.threads| ==> Flow.LocalOk(s.threads[u])
    ensures h in s.done && multiset(s.invoked)[h] == 1
  {
    forall u | 0 <= u < |s.threads| ensures Flow.HeldBy(h)(s.threads[u]) == 0 && Flow.RunningNow(h)(s.threads[u]) == 0 {
      NoCalls(s, u);
      assert Flow.LocalOk(s.threads[u]);
    }
    SumZero(Flow.HeldBy(h), s.threads);
    SumZero(Flow.RunningNow(h), s.threads);
  }

  /** The run loop does its work. From every state of every run, with one thread inside a loop that may run, that
      thread's own steps, and those of calls from outside that are under way, lead to a state in which every
      handler that was ready has been invoked, once, and is finished. */
  lemma EveryReadyHandlerRuns(p: Path, s: State, t: nat) returns (q: Path, s': State)
    requires Leads(p, s) && p.quiet && p.maxCount > 0 && Alone(s, t) && !s.needsReset
    ensures q == p.(steps := q.steps) && OnlyAdvances(p.steps, q.steps) && Leads(q, s') && Idle(s', t)
    ensures forall h: Handler :: IsReady(s, t, h) ==> h in s'.done && multiset(s'.invoked)[h] == 1
  {
    Knows(p, s);
    q, s' := Drain(p, s, t);
    Knows(q, s');
    NextGrows(p, q, s, s');
    forall h: Handler | IsReady(s, t, h) ensures h in s'.done && multiset(s'.invoked)[h] == 1 {
      assert Flow.FlowAt(s, h) && Flow.FlowAt(s', h);
      ReadyIsReturned(s, t, h);
      NowhereElse(s', t, h);
    }
  }

  /** The number of operations ever submitted never falls. */
  lemma {:induction false} NextGrows(p: Path, q: Path, s: State, s': State)
    requires Leads(p, s) && Leads(q, s') && q == p.(steps := q.steps) && p.steps <= q.steps
    ensures s.next <= s'.next
    decreases |q.steps|
  {
    if |q.steps| == |p.steps| {
      assert q.steps == p.steps;
    } else {
      var before := q.(steps := q.steps[..|q.steps| - 1]);
      var m := Run(before.maxCount, before.n, before.steps).value;
      NextGrows(p, before, s, m);
      var (t, a) := q.steps[|q.steps| - 1];
      StepNext(q.maxCount, m, t, a, s');
    }
  }

  lemma StepNext(maxCount: nat, s: State, t: nat, a: Action, s': State)
    requires Step(maxCount, s, t, a) == Some(s')
    ensures s.next <= s'.next
  {}

  // ---------------------------------------------------------------- getting out

  /** No thread but `t` is in the middle of `wake_all` or holds the mutex. */
  predicate Undisturbed(s: State, t: nat) {
    forall u :: 0 <= u < |s.threads| && u != t ==>
      var pc := s.threads[u].pc; !pc.WakeLock? && !pc.WakeNotify? && !pc.WakeFd? && !InCritical(pc)
  }

  /** How far a thread in a loop that may not run is from getting out. */
  function WayOut(th: Thread, needsReset: bool): nat {
    match th.pc
    case TopReset => if needsReset then 2 else 19
    case Stash => 1
    case TopWork => 3
    case WakeFd(back) => if back.AfterInvoke? then 4 else 9
    case WakeNotify(back) => if back.AfterInvoke? then 5 else 10
    case WakeLock(back) => if back.AfterInvoke? then 6 else 11
    case SubmitRing(_, _) => 9
    case Finish => 7
    case Invoking => 8
    case Body => 18
    case LeaveNotify => 4
    case LeaveLock => 5
    case EvLeave => 6
    case Peek(second, count) => if second || count > 0 then 7 else 16
    case PushNotify(_, _, _) => 8
    case Push(_, _, _) => 9
    case EvWrite => 8
    case EvReset => 9
    case EvWork => 10
    case EvRead => 11
    case Exchange => 17
    case WaitPop => 4
    case CheckReset => 7
    case CheckWork => 8
    case WaitLock => 9
    case _ => 0
  }

  /** The thread is closer to the way out, or out. */
  predicate Nearer(s: State, t: nat, s': State) {
    && t < |s.threads| == |s'.threads| && (InRun(s'.threads[t]) == 1 || s'.threads[t].pc.Out?)
    && (|| |s'.cq| < |s.cq|
        || (|s'.cq| == |s.cq| && WayOut(s'.threads[t], s'.needsReset) < WayOut(s.threads[t], s.needsReset)))
  }

  /** It leaves the loop stopped, or out of work, and the other threads as they were, but for waking them up. */
  predicate Leaves(s: State, t: nat, s': State) {
    && Nearer(s, t, s') && (s.needsReset ==> s'.needsReset) && (s.work == 0 ==> s'.work == 0)
    && forall u :: 0 <= u < |s.threads| && u != t ==>
         s'.threads[u] == s.threads[u] || s'.threads[u] == Woken(s.threads[u])
  }

  /** Nothing keeps thread `t` from getting out of a loop that may not run. */
  predicate CanLeave(s: State, t: nat) {
    && t < |s.threads| && !CanRun(s) && Flow.LocalOk(s.threads[t]) && InRun(s.threads[t]) == 1
    && (s.queue != [] || s.threads[t].local.Some? || s.threads[t].pc.Finish? ==> s.work > 0)
    && var pc := s.threads[t].pc;
       && s.lock == (if InCritical(pc) then Some(t) else None) && (pc.EvRead? ==> s.fd > 0)
       && (pc.PushNotify? || pc.LeaveNotify? ==> NobodyBlocked(s.threads))
       && !pc.Blocked? && !pc.CvWait? && !pc.CheckQueue? && !pc.CheckEvent? && (pc.CheckReset? ==> s.work != 0)
  }

  lemma TopLeaves(s: State, t: nat)
    requires CanLeave(s, t) && (s.threads[t].pc.TopWork? || s.threads[t].pc.TopReset? || s.threads[t].pc.Stash?)
    ensures var r := StepLoop(s, t); r.Some? && Leaves(s, t, r.value)
  {}

  lemma LoopLeaves(s: State, t: nat)
    requires CanLeave(s, t) && (s.threads[t].pc.Body? || s.threads[t].pc.Invoking? || s.threads[t].pc.Finish?)
    ensures var r := StepLoop(s, t); r.Some? && Leaves(s, t, r.value)
  {}

  lemma WaitLeaves(s: State, t: nat)
    requires CanLeave(s, t) && (s.threads[t].pc.WaitLock? || s.threads[t].pc.WaitPop?)
    ensures var r := StepWait(s, t); r.Some? && Leaves(s, t, r.value)
  {}

  lemma CheckLeaves(s: State, t: nat)
    requires CanLeave(s, t) && (s.threads[t].pc.CheckWork? || s.threads[t].pc.CheckReset?)
    ensures var r := StepWait(s, t); r.Some? && Leaves(s, t, r.value)
  {}

  lemma PeekLeaves(maxCount: nat, s: State, t: nat)
    requires CanLeave(s, t) && (s.threads[t].pc.Peek? || s.threads[t].pc.Exchange?)
    ensures var r := StepTransfer(maxCount, s, t, 0); r.Some? && Leaves(s, t, r.value)
  {}

  lemma NotifyLeaves(maxCount: nat, s: State, t: nat)
    requires CanLeave(s, t) && (s.threads[t].pc.PushNotify? || s.threads[t].pc.LeaveNotify?)
    ensures var r := StepTransfer(maxCount, s, t, 0); r.Some? && Leaves(s, t, r.value)
  {}

  lemma PushLeaves(maxCount: nat, s: State, t: nat)
    requires CanLeave(s, t) && (s.threads[t].pc.Push? || s.threads[t].pc.EvLeave? || s.threads[t].pc.LeaveLock?)
    ensures var r := StepTransfer(maxCount, s, t, 0); r.Some? && Leaves(s, t, r.value)
  {}

  lemma EventLeaves(maxCount: nat, s: State, t: nat)
    requires CanLeave(s, t)
    requires var pc := s.threads[t].pc; pc.EvRead? || pc.EvWork? || pc.EvReset? || pc.EvWrite?
    ensures var r := StepTransfer(maxCount, s, t, 0); r.Some? && Leaves(s, t, r.value)
  {}

  lemma CallLeaves(s: State, t: nat)
    requires CanLeave(s, t)
    requires var pc := s.threads[t].pc; pc.WakeLock? || pc.WakeNotify? || pc.WakeFd? || pc.SubmitRing?
    ensures var r := StepWake(s, t); r.Some? && Leaves(s, t, r.value)
  {}

  lemma StepOut(maxCount: nat, s: State, t: nat) returns (s': State)
    requires CanLeave(s, t)
    ensures AdvanceThread(maxCount, s, t, 0) == Some(s') && Leaves(s, t, s')
  {
    var pc := s.threads[t].pc;
    if pc.TopWork? || pc.TopReset? || pc.Stash? {
      TopLeaves(s, t);
    } else if InLoop(pc) {
      LoopLeaves(s, t);
    } else if pc.Peek? || pc.Exchange? {
      PeekLeaves(maxCount, s, t);
    } else if pc.PushNotify? || pc.LeaveNotify? {
      NotifyLeaves(maxCount, s, t);
    } else if pc.Push? || pc.EvLeave? || pc.LeaveLock? {
      PushLeaves(maxCount, s, t);
    } else if InTransfer(pc) {
      EventLeaves(maxCount, s, t);
    } else if pc.WaitLock? || pc.WaitPop? {
      WaitLeaves(s, t);
    } else if InWait(pc) {
      CheckLeaves(s, t);
    } else {
      CallLeaves(s, t);
    }
    s' := AdvanceThread(maxCount, s, t, 0).value;
  }

  lemma StaysUndisturbed(s: State, t: nat, s': State)
    requires Undisturbed(s, t) && Leaves(s, t, s')
    ensures Undisturbed(s', t)
  {}

  // ---------------------------------------------------------------- nothing keeps it in

  predicate Wakes(pc: Pc) { pc.WakeLock? || pc.WakeNotify? || pc.WakeFd? }

  /** With nobody in `wake_all` there is no notice and no signal on its way. */
  lemma NoSignals(s: State, t: nat)
    requires Undisturbed(s, t) && t < |s.threads| && !Wakes(s.threads[t].pc)
    ensures var g := Wake.SignalsOf(s); !Wake.Notices(g) && g.writing == 0
  {
    SumZero(Wake.AtWakeLock, s.threads);
    SumZero(Wake.AtWakeNotify, s.threads);
    SumZero(Wake.AtWakeFd, s.threads);
  }

  lemma LockIsMine(s: State, t: nat)
    requires Undisturbed(s, t) && t < |s.threads| && Wake.LockInv(s)
    ensures s.lock == if InCritical(s.threads[t].pc) then Some(t) else None
  {
    if s.lock.Some? { assert InCritical(s.threads[s.lock.value].pc); }
  }

  lemma NothingKeepsIt(s: State, t: nat)
    requires Undisturbed(s, t) && t < |s.threads| && InRun(s.threads[t]) == 1 && !CanRun(s)
    requires Flow.LocalInv(s) && Flow.WorkInv(s) && Wake.WakeInv(s)
    ensures CanLeave(s, t)
  {
    Employ(s, t);
    LockIsMine(s, t);
    assert Wake.ThreadOk(Wake.SignalsOf(s), s.threads[t].pc);
    if !Wakes(s.threads[t].pc) {
      NoSignals(s, t);
      NobodySleepsNow(s, t);
      if s.threads[t].pc.EvRead? { Wake.ReaderAlone(s, t); }
    }
  }

  lemma NobodySleepsNow(s: State, t: nat)
    requires Wake.WakeInv(s) && !CanRun(s) && !Wake.Notices(Wake.SignalsOf(s))
    ensures NobodyBlocked(s.threads)
  {
    forall u | 0 <= u < |s.threads| ensures s.threads[u].pc != Blocked {
      assert Wake.ThreadOk(Wake.SignalsOf(s), s.threads[u].pc);
    }
  }

  /** Only steps of thread `t`. */
  predicate OnlySteps(t: nat, before: seq<(nat, Action)>, after: seq<(nat, Action)>) {
    before <= after && forall i :: |before| <= i < |after| ==> after[i] == (t, Advance(0))
  }

  /** The run loop lets threads go. From every state of every run in which the loop is stopped or out of work, and
      no other thread is in the middle of `wake_all` or holds the mutex, a thread inside `run` gets out by its own
      steps alone. */
  lemma {:induction false} StoppedThreadsLeave(p: Path, s: State, t: nat) returns (q: Path, s': State)
    requires Leads(p, s) && t < |s.threads| && InRun(s.threads[t]) == 1 && !CanRun(s) && Undisturbed(s, t)
    ensures q == p.(steps := q.steps) && OnlySteps(t, p.steps, q.steps) && Leads(q, s')
    ensures t < |s'.threads| && s'.threads[t].pc.Out?
    decreases |s.cq|, WayOut(s.threads[t], s.needsReset)
  {
    Flow.RunsConserveHandlers(p.maxCount, p.n, p.steps);
    Wake.RunsKeepWake(p.maxCount, p.n, p.steps);
    NothingKeepsIt(s, t);
    var m := StepOut(p.maxCount, s, t);
    q := Advances(p, s, t, m);
    if m.threads[t].pc.Out? {
      s' := m;
    } else {
      StaysUndisturbed(s, t, m);
      q, s' := StoppedThreadsLeave(q, m, t);
      assert q.steps[|p.steps|] == (t, Advance(0));
    }
  }
}
