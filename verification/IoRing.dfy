/** The io_uring run loop: any number of threads inside `run`, others calling `submit`, `stop`, `reset`
    and the work counter. Every load, store, atomic update, lock acquisition, condition-variable wait
    and notification, and event-fd read or write is a step of its own. System calls succeed, or report
    an empty completion ring. */
module IoRing {
  import opened Common

  type Handler = nat

  /** Where a call made from user code returns to. */
  datatype Back = Outside | InHandler | AfterInvoke

  datatype Pc =
    | Out
    | TopWork | TopReset | Body | Invoking | Finish | Stash
    | Exchange
    | Peek(second: bool, count: nat)
    | Push(second: bool, count: nat, next: Handler)
    | PushNotify(second: bool, count: nat, next: Handler)
    | EvRead | EvWork | EvReset | EvWrite | EvLeave | LeaveLock | LeaveNotify
    | WaitLock | CheckWork | CheckReset | CheckQueue | CheckEvent | CvWait | Blocked | WaitPop
    | WakeLock(back: Back) | WakeNotify(back: Back) | WakeFd(back: Back)
    | SubmitRing(back: Back, op: Handler)

  /** `local` is the `handler` variable of `run`. */
  datatype Thread = Thread(pc: Pc, local: Option<Handler>)

  /** `kernel` are operations submitted and not completed, `cq` the completion ring, `queue` is
      `completions_`. `explicitWork`, `done` and `invoked` are history: work started by the user, handlers
      fully finished, and handler invocations in order. */
  datatype State = State(work: int, needsReset: bool, eventWait: bool, lock: Option<nat>, fd: nat,
                         kernel: set<Handler>, cq: seq<Handler>, queue: seq<Handler>, next: Handler,
                         explicitWork: nat, done: set<Handler>, invoked: seq<Handler>, threads: seq<Thread>)

  datatype Action =
    | EnterRun | Submit | WorkStarted | WorkFinished | Stop | Reset
    | Advance(wake: nat)
    | SpuriousWake
    | KernelCompletes(op: Handler)

  predicate CanRun(s: State) { s.work != 0 && !s.needsReset }

  function Return(back: Back): Pc {
    match back
    case Outside => Out
    case InHandler => Invoking
    case AfterInvoke => TopWork
  }

  function Go(s: State, t: nat, pc: Pc): State
    requires t < |s.threads|
  {
    s.(threads := s.threads[t := s.threads[t].(pc := pc)])
  }

  function Set(s: State, t: nat, pc: Pc, local: Option<Handler>): State
    requires t < |s.threads|
  {
    s.(threads := s.threads[t := Thread(pc, local)])
  }

  // ---------------------------------------------------------------- condition variable

  function Woken(th: Thread): Thread { if th.pc == Blocked then th.(pc := WaitLock) else th }

  function WakeEvery(threads: seq<Thread>): (r: seq<Thread>)
    ensures |r| == |threads|
  {
    seq(|threads|, i requires 0 <= i < |threads| => Woken(threads[i]))
  }

  predicate NobodyBlocked(threads: seq<Thread>) {
    forall i :: 0 <= i < |threads| ==> threads[i].pc != Blocked
  }

  /** `notify_one`: some blocked thread `u` if there is one. */
  function NotifyOne(s: State, u: nat): Option<State> {
    if u < |s.threads| && s.threads[u].pc == Blocked then Some(Go(s, u, WaitLock))
    else if NobodyBlocked(s.threads) then Some(s)
    else None
  }

  /** Thread `t` notifies one waiter and moves on to `pc`. */
  function NotifyThen(s: State, t: nat, u: nat, pc: Pc, local: Option<Handler>): Option<State>
    requires t < |s.threads|
  {
    NotifyOne(Set(s, t, pc, local), u)
  }

  // ---------------------------------------------------------------- run

  function LeaveLoop(s: State, t: nat): State
    requires t < |s.threads|
  {
    Go(s, t, if s.threads[t].local.Some? then Stash else Out)
  }

  function Decrement(s: State, t: nat, back: Back): State
    requires t < |s.threads|
  {
    Go(s.(work := s.work - 1), t, if s.work == 1 then WakeLock(back) else Return(back))
  }

  function StepLoop(s: State, t: nat): Option<State>
    requires t < |s.threads|
  {
    var th := s.threads[t];
    match th.pc
    case TopWork => Some(if s.work != 0 then Go(s, t, TopReset) else LeaveLoop(s, t))
    case TopReset => Some(if !s.needsReset then Go(s, t, Body) else LeaveLoop(s, t))
    case Body =>
      if th.local.Some? then Some(Go(s.(invoked := s.invoked + [th.local.value]), t, Invoking))
      else if s.lock.Some? then None
      else if s.queue == [] then Some(Go(s, t, Exchange))
      else Some(Set(s.(queue := s.queue[1..]), t, TopWork, Some(s.queue[0])))
    case Invoking =>
      if th.local.Some? then Some(Set(s.(done := s.done + {th.local.value}), t, Finish, None)) else None
    case Finish => Some(Decrement(s, t, AfterInvoke))
    case Stash =>
      if s.lock.None? && th.local.Some? then Some(Set(s.(queue := [th.local.value] + s.queue), t, Out, None)) else None
    case _ => None
  }

  // ---------------------------------------------------------------- the one thread that polls the ring

  function StepTransfer(maxCount: nat, s: State, t: nat, u: nat): Option<State>
    requires t < |s.threads|
  {
    var th := s.threads[t];
    match th.pc
    case Exchange =>
      Some(if s.eventWait then Go(s, t, WaitLock) else Go(s.(eventWait := true), t, Peek(false, 0)))
    case Peek(second, count) =>
      if count < maxCount && s.cq != [] then
        var h := s.cq[0];
        var s1 := s.(cq := s.cq[1..]);
        Some(if th.local.Some? then Go(s1, t, Push(second, count, h)) else Set(s1, t, Peek(second, count + 1), Some(h)))
      else Some(Go(s, t, if !second && count == 0 then EvRead else EvLeave))
    case Push(second, count, h) =>
      if s.lock.None? && th.local.Some? then
        Some(Set(s.(queue := s.queue + [th.local.value]), t, PushNotify(second, count, h), None))
      else None
    case PushNotify(second, count, h) => NotifyThen(s, t, u, Peek(second, count + 1), Some(h))
    case EvRead => if s.fd > 0 then Some(Go(s.(fd := s.fd - 1), t, EvWork)) else None
    case EvWork => Some(Go(s, t, if s.work == 0 then EvWrite else EvReset))
    case EvReset => Some(if s.needsReset then Go(s, t, EvWrite) else Set(s, t, Peek(true, 0), None))
    case EvWrite => Some(Set(s.(fd := s.fd + 1), t, Peek(true, 0), None))
    case EvLeave => Some(Go(s.(eventWait := false), t, if th.local.None? then LeaveLock else TopWork))
    case LeaveLock => if s.lock.None? then Some(Go(s, t, LeaveNotify)) else None
    case LeaveNotify => NotifyThen(s, t, u, TopWork, th.local)
    case _ => None
  }

  // ---------------------------------------------------------------- the threads that wait for it

  function StepWait(s: State, t: nat): Option<State>
    requires t < |s.threads|
  {
    var th := s.threads[t];
    match th.pc
    case WaitLock => if s.lock.None? then Some(Go(s.(lock := Some(t)), t, CheckWork)) else None
    case CheckWork => Some(Go(s, t, if s.work == 0 then WaitPop else CheckReset))
    case CheckReset => Some(Go(s, t, if s.needsReset then WaitPop else CheckQueue))
    case CheckQueue => Some(Go(s, t, if s.queue != [] then WaitPop else CheckEvent))
    case CheckEvent => Some(Go(s, t, if !s.eventWait then WaitPop else CvWait))
    case CvWait => Some(Go(s.(lock := None), t, Blocked))
    case WaitPop =>
      if s.queue == [] then Some(Set(s.(lock := None), t, TopWork, None))
      else Some(Set(s.(lock := None, queue := s.queue[1..]), t, TopWork, Some(s.queue[0])))
    case _ => None
  }

  // ---------------------------------------------------------------- wake_all, submit and the callers

  function StepWake(s: State, t: nat): Option<State>
    requires t < |s.threads|
  {
    match s.threads[t].pc
    case WakeLock(back) => if s.lock.None? then Some(Go(s, t, WakeNotify(back))) else None
    case WakeNotify(back) =>
      var s1 := Go(s, t, WakeFd(back));
      Some(s1.(threads := WakeEvery(s1.threads)))
    case WakeFd(back) => Some(Go(s.(fd := s.fd + 1), t, Return(back)))
    case SubmitRing(back, h) => Some(Go(s.(kernel := s.kernel + {h}), t, Return(back)))
    case _ => None
  }

  function Call(s: State, t: nat, a: Action, back: Back): Option<State>
    requires t < |s.threads|
  {
    match a
    case Submit => Some(Go(s.(work := s.work + 1, next := s.next + 1), t, SubmitRing(back, s.next)))
    case WorkStarted => Some(s.(work := s.work + 1, explicitWork := s.explicitWork + 1))
    case WorkFinished =>
      if s.explicitWork > 0 then Some(Decrement(s.(explicitWork := s.explicitWork - 1), t, back)) else None
    case Stop => Some(Go(s.(needsReset := true), t, WakeLock(back)))
    case Reset => Some(s.(needsReset := false))
    case _ => None
  }

  function AdvanceThread(maxCount: nat, s: State, t: nat, u: nat): Option<State>
    requires t < |s.threads|
  {
    var pc := s.threads[t].pc;
    if InLoop(pc) then StepLoop(s, t)
    else if InTransfer(pc) then StepTransfer(maxCount, s, t, u)
    else if InWait(pc) then StepWait(s, t)
    else StepWake(s, t)
  }

  predicate InLoop(pc: Pc) { pc.TopWork? || pc.TopReset? || pc.Body? || pc.Invoking? || pc.Finish? || pc.Stash? }

  predicate InTransfer(pc: Pc) { pc.Exchange? || InEventRegion(pc) || pc.LeaveLock? || pc.LeaveNotify? }

  /** Between winning the exchange of `event_wait_` and giving it back. */
  predicate InEventRegion(pc: Pc) {
    pc.Peek? || pc.Push? || pc.PushNotify? || pc.EvRead? || pc.EvWork? || pc.EvReset? || pc.EvWrite? || pc.EvLeave?
  }

  predicate InWait(pc: Pc) { pc.WaitLock? || pc.Blocked? || InCritical(pc) }

  /** Holding `queue_mutex_` across steps. */
  predicate InCritical(pc: Pc) {
    pc.CheckWork? || pc.CheckReset? || pc.CheckQueue? || pc.CheckEvent? || pc.CvWait? || pc.WaitPop?
  }

  function Step(maxCount: nat, s: State, t: nat, a: Action): Option<State> {
    if a.KernelCompletes? then
      if a.op in s.kernel then Some(s.(kernel := s.kernel - {a.op}, cq := s.cq + [a.op], fd := s.fd + 1)) else None
    else if t >= |s.threads| then None
    else if a.Advance? then AdvanceThread(maxCount, s, t, a.wake)
    else if a.SpuriousWake? then
      if s.threads[t].pc == Blocked then Some(Go(s, t, WaitLock)) else None
    else if s.threads[t].pc == Out then
      if a.EnterRun? then Some(Set(s, t, TopWork, None)) else Call(s, t, a, Outside)
    else if s.threads[t].pc == Invoking then Call(s, t, a, InHandler)
    else None
  }

  function Init(n: nat): State {
    State(0, false, false, None, 0, {}, [], [], 0, 0, {}, [], seq(n, i => Thread(Out, None)))
  }

  function Run(maxCount: nat, n: nat, steps: seq<(nat, Action)>): Option<State> {
    if |steps| == 0 then Some(Init(n))
    else
      var before := Run(maxCount, n, steps[..|steps| - 1]);
      var (t, a) := steps[|steps| - 1];
      if before.None? then None else Step(maxCount, before.value, t, a)
  }
}
