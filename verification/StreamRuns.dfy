/** The stream on top of fragments: producers commit bytes while consumers take ranges of them. Every
    region under the queue's lock, every wait and every position update is a step of its own; the queue
    is the byte string its fragment stands for. */
module StreamRuns {
  import opened Common
  import opened Tally
  import opened StreamBuffer

  datatype Pc = WaitCommit | WaitTurn | Pop | SetPos(got: seq<Byte>) | Done(got: seq<Byte>) | Failed

  /** A call of `size`, which loads the consume position and then the commit position. */
  datatype Sizing = Unread | Read(seen: nat) | Sized(size: nat) | CheckFailed

  /** A call of `consume_some`: it loads the consume position, waits until more than that is committed, and swaps
      the queue for an empty one. `AtEnd` is its answer that the stream is closed. */
  datatype Taking = Start | Await(seen: nat) | Swap(seen: nat) | Took(got: seq<Byte>) | AtEnd

  /** `commit`, with the bytes pushed and not yet added to the commit position; `consume(start, end)`;
      `consume_some`; and `size`, with the stream's maximum. */
  datatype Thread =
    | Producer(pending: Option<nat>)
    | Consumer(start: nat, end: nat, pc: Pc)
    | Greedy(at: Taking)
    | Sizer(maxSize: nat, load: Sizing)

  /** `log` is everything ever pushed, `output` everything ever popped, and `pops` who popped, in order. */
  datatype State = State(queue: seq<Byte>, commitPos: nat, consumePos: nat, endOfStream: bool, closed: bool,
                         log: seq<Byte>, output: seq<Byte>, pops: seq<nat>, threads: seq<Thread>)

  datatype Action = Push(bytes: seq<Byte>) | Advance | Fail | Close

  function Go(s: State, t: nat, th: Thread): State
    requires t < |s.threads|
  {
    s.(threads := s.threads[t := th])
  }

  /** `pop(n)` by thread `t` under the lock, then the check for the end of the stream. */
  function Take(s: State, t: nat, n: nat): (r: (State, seq<Byte>))
    ensures |r.1| == Min(n, |s.queue|) && s.queue == r.1 + r.0.queue && r.0.threads == s.threads
  {
    var k := Min(n, |s.queue|);
    var got, rest := s.queue[..k], s.queue[k..];
    (s.(queue := rest, output := s.output + got, pops := s.pops + [t],
        closed := s.closed || (s.endOfStream && rest == [])), got)
  }

  function StepConsumer(s: State, t: nat, start: nat, end: nat, pc: Pc): Option<State>
    requires t < |s.threads|
  {
    match pc
    case WaitCommit => if s.commitPos >= end then Some(Go(s, t, Consumer(start, end, WaitTurn))) else None
    case WaitTurn => if s.consumePos == start then Some(Go(s, t, Consumer(start, end, Pop))) else None
    case Pop =>
      if end < start then None
      else
        var (s1, got) := Take(s, t, end - start);
        Some(Go(s1, t, Consumer(start, end, SetPos(got))))
    case SetPos(got) => Some(Go(s.(consumePos := end), t, Consumer(start, end, Done(got))))
    case _ => None
  }

  function StepGreedy(s: State, t: nat, at: Taking): Option<State>
    requires t < |s.threads|
  {
    match at
    case Start => Some(Go(s, t, Greedy(Await(s.consumePos))))
    case Await(seen) => if s.commitPos > seen then Some(Go(s, t, Greedy(Swap(seen)))) else None
    case Swap(seen) =>
      var (s1, all) := Take(s, t, |s.queue|);
      Some(Go(s1.(consumePos := s.consumePos + |all|), t,
              Greedy(if all == [] && s1.closed then AtEnd else Took(all))))
    case _ => None
  }

  function StepSizer(s: State, t: nat, maxSize: nat, load: Sizing): Option<State>
    requires t < |s.threads|
  {
    if load.Unread? then Some(Go(s, t, Sizer(maxSize, Read(s.consumePos))))
    else if load.Read? then
      Some(Go(s, t, Sizer(maxSize, if s.commitPos < load.seen then CheckFailed
                                   else Sized(Min(maxSize, s.commitPos - load.seen)))))
    else None
  }

  function StepProducer(s: State, t: nat, a: Action, pending: Option<nat>): Option<State>
    requires t < |s.threads|
  {
    if a.Push? && pending.None? then
      Some(Go(s.(queue := s.queue + a.bytes, log := s.log + a.bytes), t, Producer(Some(|a.bytes|))))
    else if a.Advance? && pending.Some? then
      Some(Go(s.(commitPos := s.commitPos + pending.value), t, Producer(None)))
    else None
  }

  function Step(s: State, t: nat, a: Action): Option<State> {
    if a.Close? then Some(s.(endOfStream := true, closed := s.closed || s.queue == []))
    else if t >= |s.threads| then None
    else
      match s.threads[t]
      case Producer(pending) => StepProducer(s, t, a, pending)
      case Consumer(start, end, pc) =>
        if a.Advance? then StepConsumer(s, t, start, end, pc)
        else if a.Fail? && s.closed && (pc.WaitCommit? || pc.WaitTurn?) then
          Some(Go(s, t, Consumer(start, end, Failed)))
        else None
      case Greedy(at) =>
        if a.Advance? then StepGreedy(s, t, at)
        else if a.Fail? && s.closed && at.Await? && s.commitPos <= at.seen then Some(Go(s, t, Greedy(AtEnd)))
        else None
      case Sizer(maxSize, load) => if a.Advance? then StepSizer(s, t, maxSize, load) else None
  }

  predicate Fresh(th: Thread) {
    match th
    case Producer(pending) => pending.None?
    case Consumer(_, _, pc) => pc.WaitCommit?
    case Greedy(at) => at.Start?
    case Sizer(_, load) => load.Unread?
  }

  predicate AllFresh(threads: seq<Thread>) { forall t :: 0 <= t < |threads| ==> Fresh(threads[t]) }

  function Init(threads: seq<Thread>): State { State([], 0, 0, false, false, [], [], [], threads) }

  function Run(threads: seq<Thread>, steps: seq<(nat, Action)>): Option<State> {
    if |steps| == 0 then Some(Init(threads))
    else
      var before := Run(threads, steps[..|steps| - 1]);
      var (t, a) := steps[|steps| - 1];
      if before.None? then None else Step(before.value, t, a)
  }

  // ---------------------------------------------------------------- for every mix of threads

  function Pending(th: Thread): nat { if th.Producer? && th.pending.Some? then th.pending.value else 0 }

  /** Nothing is lost, repeated or reordered; what is pushed and not yet counted is with a producer. */
  predicate FlowInv(s: State) {
    s.log == s.output + s.queue && s.commitPos + Sum(Pending, s.threads) == |s.log|
  }

  lemma TakeFlow(s: State, t: nat, n: nat)
    requires s.log == s.output + s.queue
    ensures Take(s, t, n).0.log == s.log == Take(s, t, n).0.output + Take(s, t, n).0.queue
    ensures Take(s, t, n).1 == s.log[|s.output|..|s.output| + Min(n, |s.queue|)]
  {
    var k := Min(n, |s.queue|);
    assert s.queue == s.queue[..k] + s.queue[k..];
    assert s.output + s.queue[..k] + s.queue[k..] == s.output + s.queue;
  }

  predicate Grows(s: State, s': State) { FlowInv(s') && s.log <= s'.log && s.output <= s'.output }

  lemma ProducerFlow(s: State, t: nat, a: Action, s': State)
    requires FlowInv(s) && t < |s.threads| && s.threads[t].Producer? && Step(s, t, a) == Some(s') && !a.Close?
    ensures Grows(s, s')
  {
    SumUpdate(Pending, s.threads, t, s'.threads[t]);
    if a.Push? { assert s.output + (s.queue + a.bytes) == s.output + s.queue + a.bytes; }
  }

  lemma ConsumerFlow(s: State, t: nat, a: Action, s': State)
    requires FlowInv(s) && t < |s.threads| && s.threads[t].Consumer? && Step(s, t, a) == Some(s') && !a.Close?
    ensures Grows(s, s')
  {
    SumUpdate(Pending, s.threads, t, s'.threads[t]);
    var th := s.threads[t];
    if th.pc.Pop? { TakeFlow(s, t, th.end - th.start); }
  }

  lemma GreedyFlow(s: State, t: nat, a: Action, s': State)
    requires FlowInv(s) && t < |s.threads| && s.threads[t].Greedy? && Step(s, t, a) == Some(s') && !a.Close?
    ensures Grows(s, s')
  {
    SumUpdate(Pending, s.threads, t, s'.threads[t]);
    TakeFlow(s, t, |s.queue|);
  }

  lemma StepFlow(s: State, t: nat, a: Action, s': State)
    requires FlowInv(s) && Step(s, t, a) == Some(s')
    ensures Grows(s, s')
  {
    if !a.Close? {
      if s.threads[t].Producer? {
        ProducerFlow(s, t, a, s');
      } else if s.threads[t].Consumer? {
        ConsumerFlow(s, t, a, s');
      } else if s.threads[t].Greedy? {
        GreedyFlow(s, t, a, s');
      } else {
        SumUpdate(Pending, s.threads, t, s'.threads[t]);
      }
    }
  }

  /** A step changes one thread at most, and the commit position and the log only grow. */
  lemma StepMoves(s: State, u: nat, a: Action, s': State)
    requires Step(s, u, a) == Some(s')
    ensures |s'.threads| == |s.threads| && s.commitPos <= s'.commitPos && s.log <= s'.log
    ensures forall t :: 0 <= t < |s.threads| && t != u ==> s'.threads[t] == s.threads[t]
  {
    if !a.Close? && s.threads[u].Producer? {
      ProducerMoves(s, u, a, s');
    } else if !a.Close? {
      ConsumerMoves(s, u, a, s');
    }
  }

  lemma ProducerMoves(s: State, u: nat, a: Action, s': State)
    requires u < |s.threads| && s.threads[u].Producer? && Step(s, u, a) == Some(s') && !a.Close?
    ensures s.commitPos <= s'.commitPos && s.log <= s'.log
    ensures |s'.threads| == |s.threads| && s'.threads == s.threads[u := s'.threads[u]]
  {}

  lemma ConsumerMoves(s: State, u: nat, a: Action, s': State)
    requires u < |s.threads| && !s.threads[u].Producer? && Step(s, u, a) == Some(s') && !a.Close?
    ensures s.commitPos == s'.commitPos && s.log == s'.log
    ensures |s'.threads| == |s.threads| && s'.threads == s.threads[u := s'.threads[u]]
  {}

  lemma {:induction false} RunsKeepFlow(threads: seq<Thread>, steps: seq<(nat, Action)>)
    requires AllFresh(threads) && Run(threads, steps).Some?
    ensures FlowInv(Run(threads, steps).value)
  {
    if |steps| == 0 {
      SumZero(Pending, threads);
    } else {
      var before := steps[..|steps| - 1];
      RunsKeepFlow(threads, before);
      StepFlow(Run(threads, before).value, steps[|steps| - 1].0, steps[|steps| - 1].1, Run(threads, steps).value);
    }
  }

  // ---------------------------------------------------------------- consumers that tile the stream

  /** Disjoint ranges, and no empty one that starts where one that is not empty does. */
  predicate Apart(a: Thread, b: Thread) {
    a.Consumer? && b.Consumer? ==> (a.end <= b.start || b.end <= a.start) && (a.start == b.start ==> a.end == b.end)
  }

  predicate Proper(th: Thread) { !th.Greedy? && (th.Consumer? ==> th.start <= th.end) }

  /** No `consume_some`, and the consumers' ranges apart. */
  predicate Tiles(threads: seq<Thread>) {
    && (forall t :: 0 <= t < |threads| ==> Proper(threads[t]))
    && (forall t, u :: 0 <= t < u < |threads| ==> Apart(threads[t], threads[u]))
  }

  /** Between popping and publishing the new position. */
  predicate Busy(th: Thread) { th.Consumer? && th.pc.SetPos? }

  /** The assertion at each program point of `consume` and `size`. */
  predicate ThreadOk(s: State, th: Thread) {
    && SizerOk(s, th)
    && (th.Consumer? ==>
      && (th.pc.WaitTurn? || th.pc.Pop? ==> th.end <= s.commitPos)
      && (th.pc.Pop? || th.pc.SetPos? ==> s.consumePos == th.start)
      && (th.pc.Pop? ==> |s.output| == th.start)
      && (th.pc.SetPos? ==> |s.output| == th.end)
      && (th.pc.SetPos? || th.pc.Done? ==>
            th.start <= th.end <= s.commitPos <= |s.log| && th.pc.got == s.log[th.start..th.end])
      && (th.pc.Done? ==> th.end <= s.consumePos))
  }

  /** The position that `size` has read is covered by what is committed, so its check does not fail. */
  predicate SizerOk(s: State, th: Thread) {
    th.Sizer? ==> !th.load.CheckFailed? && (th.load.Read? ==> th.load.seen <= s.commitPos)
  }

  predicate NobodyBusy(s: State) { forall t :: 0 <= t < |s.threads| ==> !Busy(s.threads[t]) }

  predicate TileInv(s: State) {
    && FlowInv(s) && Tiles(s.threads)
    && (forall t :: 0 <= t < |s.threads| ==> ThreadOk(s, s.threads[t]))
    && (NobodyBusy(s) ==> |s.output| == s.consumePos)
    && s.consumePos <= |s.output| && s.consumePos <= s.commitPos
  }

  lemma SharedStart(threads: seq<Thread>, t: nat, u: nat)
    requires Tiles(threads) && t < |threads| && u < |threads| && t != u && threads[t].Consumer? && threads[u].Consumer?
    requires threads[t].start == threads[u].start
    ensures threads[t].start == threads[t].end == threads[u].end
  {
    assert Proper(threads[t]) && Proper(threads[u]);
    assert if t < u then Apart(threads[t], threads[u]) else Apart(threads[u], threads[t]);
  }

  predicate SameRange(a: Thread, b: Thread) {
    || (a.Producer? && b.Producer?) || (a.Sizer? && b.Sizer?)
    || (a.Consumer? && b.Consumer? && a.start == b.start && a.end == b.end)
  }

  lemma TilesStay(threads: seq<Thread>, t: nat, th: Thread)
    requires Tiles(threads) && t < |threads| && SameRange(threads[t], th)
    ensures Tiles(threads[t := th])
  {
    var after := threads[t := th];
    assert Proper(threads[t]);
    forall i, j | 0 <= i < j < |after| ensures Apart(after[i], after[j]) {
      assert Apart(threads[i], threads[j]);
    }
  }

  /** With a consumer at `pop` or after it, no other consumer is there, unless both ranges are empty. */
  lemma OnlyActive(s: State, t: nat, u: nat)
    requires TileInv(s) && t < |s.threads| && u < |s.threads| && t != u
    requires s.threads[t].Consumer? && s.threads[u].Consumer? && s.consumePos == s.threads[t].start
    requires s.threads[u].pc.Pop? || s.threads[u].pc.SetPos?
    ensures s.threads[t].start == s.threads[t].end == s.threads[u].start == s.threads[u].end == |s.output|
  {
    assert ThreadOk(s, s.threads[u]);
    SharedStart(s.threads, t, u);
  }

  lemma ProducerTiles(s: State, t: nat, a: Action, s': State)
    requires TileInv(s) && t < |s.threads| && s.threads[t].Producer? && Step(s, t, a) == Some(s') && !a.Close?
    ensures TileInv(s')
  {
    StepFlow(s, t, a, s');
    TilesStay(s.threads, t, s'.threads[t]);
    forall u | 0 <= u < |s'.threads| ensures ThreadOk(s', s'.threads[u]) {
      assert ThreadOk(s, s.threads[u]);
    }
    assert NobodyBusy(s') ==> NobodyBusy(s) by {
      assert forall u :: 0 <= u < |s.threads| && u != t ==> s'.threads[u] == s.threads[u];
    }
  }

  lemma SizerTiles(s: State, t: nat, s': State)
    requires TileInv(s) && t < |s.threads| && s.threads[t].Sizer? && Step(s, t, Advance) == Some(s')
    ensures TileInv(s')
  {
    StepFlow(s, t, Advance, s');
    TilesStay(s.threads, t, s'.threads[t]);
    forall u | 0 <= u < |s'.threads| ensures ThreadOk(s', s'.threads[u]) {
      assert ThreadOk(s, s.threads[u]);
    }
    assert NobodyBusy(s') ==> NobodyBusy(s) by {
      assert forall u :: 0 <= u < |s.threads| && u != t ==> s'.threads[u] == s.threads[u];
    }
  }

  /** Waiting for the data, for one's turn, or giving up. */
  lemma WaitTiles(s: State, t: nat, a: Action, s': State)
    requires TileInv(s) && t < |s.threads| && s.threads[t].Consumer? && Step(s, t, a) == Some(s') && !a.Close?
    requires s.threads[t].pc.WaitCommit? || s.threads[t].pc.WaitTurn?
    ensures TileInv(s')
  {
    StepFlow(s, t, a, s');
    TilesStay(s.threads, t, s'.threads[t]);
    assert ThreadOk(s, s.threads[t]);
    if s'.threads[t].pc.Pop? && !NobodyBusy(s) {
      var u :| 0 <= u < |s.threads| && Busy(s.threads[u]);
      OnlyActive(s, t, u);
    }
    forall u | 0 <= u < |s'.threads| ensures ThreadOk(s', s'.threads[u]) {
      assert ThreadOk(s, s.threads[u]);
    }
    assert NobodyBusy(s') ==> NobodyBusy(s) by {
      assert forall u :: 0 <= u < |s.threads| && u != t ==> s'.threads[u] == s.threads[u];
    }
  }

  lemma PopTiles(s: State, t: nat, s': State)
    requires TileInv(s) && t < |s.threads| && s.threads[t].Consumer? && s.threads[t].pc.Pop?
             && Step(s, t, Advance) == Some(s')
    ensures TileInv(s')
  {
    StepFlow(s, t, Advance, s');
    TilesStay(s.threads, t, s'.threads[t]);
    var th := s.threads[t];
    assert ThreadOk(s, th) && Proper(th);
    TakeFlow(s, t, th.end - th.start);
    forall u | 0 <= u < |s'.threads| ensures ThreadOk(s', s'.threads[u]) {
      assert ThreadOk(s, s.threads[u]);
      if u != t && s.threads[u].Consumer? && (s.threads[u].pc.Pop? || s.threads[u].pc.SetPos?) { OnlyActive(s, t, u); }
    }
    assert Busy(s'.threads[t]);
  }

  lemma PublishTiles(s: State, t: nat, s': State)
    requires TileInv(s) && t < |s.threads| && s.threads[t].Consumer? && s.threads[t].pc.SetPos?
             && Step(s, t, Advance) == Some(s')
    ensures TileInv(s')
  {
    StepFlow(s, t, Advance, s');
    TilesStay(s.threads, t, s'.threads[t]);
    var th := s.threads[t];
    assert ThreadOk(s, th) && Proper(th);
    forall u | 0 <= u < |s'.threads| ensures ThreadOk(s', s'.threads[u]) {
      assert ThreadOk(s, s.threads[u]);
      if u != t && s.threads[u].Consumer? && (s.threads[u].pc.Pop? || s.threads[u].pc.SetPos?) { OnlyActive(s, t, u); }
    }
  }

  lemma StepTiles(s: State, t: nat, a: Action, s': State)
    requires TileInv(s) && Step(s, t, a) == Some(s')
    ensures TileInv(s') && s.consumePos <= s'.consumePos
  {
    if a.Close? {
      forall u | 0 <= u < |s'.threads| ensures ThreadOk(s', s'.threads[u]) { assert ThreadOk(s, s.threads[u]); }
      assert NobodyBusy(s') ==> NobodyBusy(s);
    } else {
      assert Proper(s.threads[t]) && ThreadOk(s, s.threads[t]);
      if s.threads[t].Producer? {
        ProducerTiles(s, t, a, s');
      } else if s.threads[t].Sizer? {
        SizerTiles(s, t, s');
      } else if s.threads[t].pc.Pop? {
        PopTiles(s, t, s');
      } else if s.threads[t].pc.SetPos? {
        PublishTiles(s, t, s');
      } else {
        WaitTiles(s, t, a, s');
      }
    }
  }

  lemma {:induction false} RunsKeepTiles(threads: seq<Thread>, steps: seq<(nat, Action)>)
    requires AllFresh(threads) && Tiles(threads) && Run(threads, steps).Some?
    ensures TileInv(Run(threads, steps).value)
  {
    if |steps| == 0 {
      SumZero(Pending, threads);
      forall t | 0 <= t < |threads| ensures ThreadOk(Init(threads), threads[t]) { assert Fresh(threads[t]); }
    } else {
      var before := steps[..|steps| - 1];
      RunsKeepTiles(threads, before);
      StepTiles(Run(threads, before).value, steps[|steps| - 1].0, steps[|steps| - 1].1, Run(threads, steps).value);
    }
  }

  // ---------------------------------------------------------------- theorems

  /** Whatever the mix of producers and consumers, the bytes popped so far and the bytes in the queue are
      the bytes pushed, in order, each once. */
  lemma NothingLost(threads: seq<Thread>, steps: seq<(nat, Action)>)
    requires AllFresh(threads) && Run(threads, steps).Some?
    ensures var s := Run(threads, steps).value; s.output + s.queue == s.log && s.commitPos <= |s.log|
  {
    RunsKeepFlow(threads, steps);
  }

  /** With consumers that tile the stream, `consume(start, end)` returns exactly the committed bytes of
      its range. */
  lemma ConsumeIsExact(threads: seq<Thread>, steps: seq<(nat, Action)>, t: nat)
    requires AllFresh(threads) && Tiles(threads) && Run(threads, steps).Some?
    requires var s := Run(threads, steps).value; t < |s.threads| && s.threads[t].Consumer? && s.threads[t].pc.Done?
    ensures var s := Run(threads, steps).value; var th := s.threads[t];
            && th.start <= th.end <= s.commitPos <= |s.log| && th.pc.got == s.log[th.start..th.end]
            && th.end <= s.consumePos
  {
    RunsKeepTiles(threads, steps);
    assert ThreadOk(Run(threads, steps).value, Run(threads, steps).value.threads[t]);
  }

  /** Consumers listed in the order of their ranges, without gaps. */
  predicate Chain(s: State, order: seq<nat>) {
    && (forall i :: 0 <= i < |order| ==> order[i] < |s.threads| && Finished(s.threads[order[i]]))
    && (forall i, j :: 0 <= i && j == i + 1 < |order| ==> s.threads[order[i]].end == s.threads[order[j]].start)
    && (order != [] ==> s.threads[order[0]].start == 0)
  }

  predicate Finished(th: Thread) { th.Consumer? && th.pc.Done? }

  function Together(s: State, order: seq<nat>): seq<Byte>
    requires forall i :: 0 <= i < |order| ==> order[i] < |s.threads| && Finished(s.threads[order[i]])
  {
    if order == [] then []
    else
      var last := order[|order| - 1];
      assert Finished(s.threads[last]);
      Together(s, order[..|order| - 1]) + s.threads[last].pc.got
  }

  /** What consecutive consumers return adds up to the beginning of the stream. */
  lemma {:induction false} ResultsAddUp(s: State, order: seq<nat>)
    requires Chain(s, order) && forall t :: 0 <= t < |s.threads| ==> ThreadOk(s, s.threads[t])
    ensures var end := if order == [] then 0 else s.threads[order[|order| - 1]].end;
            end <= |s.log| && Together(s, order) == s.log[..end]
  {
    if order != [] {
      var k := |order| - 1;
      var th := s.threads[order[k]];
      assert ThreadOk(s, th);
      ResultsAddUp(s, order[..k]);
      if k > 0 {
        var before := k - 1;
        assert k == before + 1 && s.threads[order[before]].end == th.start;
      }
      assert s.log[..th.start] + s.log[th.start..th.end] == s.log[..th.end];
    }
  }

  lemma ConsumersSeeTheStream(threads: seq<Thread>, steps: seq<(nat, Action)>, order: seq<nat>)
    requires AllFresh(threads) && Tiles(threads) && Run(threads, steps).Some? && order != []
    requires Chain(Run(threads, steps).value, order)
    ensures var s := Run(threads, steps).value; var end := s.threads[order[|order| - 1]].end;
            end <= |s.log| && Together(s, order) == s.log[..end]
  {
    RunsKeepTiles(threads, steps);
    ResultsAddUp(Run(threads, steps).value, order);
  }

  // ---------------------------------------------------------------- limits of the protocol

  datatype Path = Path(threads: seq<Thread>, steps: seq<(nat, Action)>)

  lemma Follow(p: Path, s: State, t: nat, a: Action, s': State) returns (q: Path)
    requires Run(p.threads, p.steps) == Some(s) && Step(s, t, a) == Some(s')
    ensures q.threads == p.threads && q.steps == p.steps + [(t, a)] && Run(q.threads, q.steps) == Some(s')
  {
    var more := p.steps + [(t, a)];
    assert more[..|more| - 1] == p.steps && more[|more| - 1] == (t, a);
    q := p.(steps := more);
  }

  function WithByte(s: State): State {
    s.(queue := s.queue + [7], log := s.log + [7], commitPos := s.commitPos + 1)
  }

  lemma CommitSteps(s: State, s1: State)
    requires |s.threads| > 0 && s.threads[0] == Producer(None)
    requires s1 == Go(s.(queue := s.queue + [7], log := s.log + [7]), 0, Producer(Some(1)))
    ensures Step(s, 0, Push([7])) == Some(s1) && Step(s1, 0, Advance) == Some(WithByte(s))
  {
    assert s1.threads[0 := Producer(None)] == s.threads;
  }

  lemma CommitsOne(p: Path, s: State) returns (q: Path)
    requires Run(p.threads, p.steps) == Some(s) && |s.threads| > 0 && s.threads[0] == Producer(None)
    ensures q.threads == p.threads && Run(q.threads, q.steps) == Some(WithByte(s))
  {
    var s1 := Go(s.(queue := s.queue + [7], log := s.log + [7]), 0, Producer(Some(1)));
    CommitSteps(s, s1);
    q := Follow(p, s, 0, Push([7]), s1);
    q := Follow(q, s1, 0, Advance, WithByte(s));
  }

  /** A consumer waits for its range and its turn, then pops. */
  lemma PopsRange(p: Path, s: State, t: nat, start: nat, end: nat) returns (q: Path)
    requires Run(p.threads, p.steps) == Some(s) && t < |s.threads| && s.threads[t] == Consumer(start, end, WaitCommit)
    requires start <= end <= s.commitPos && s.consumePos == start
    ensures q.threads == p.threads
    ensures var (s1, got) := Take(s, t, end - start);
            Run(q.threads, q.steps) == Some(Go(s1, t, Consumer(start, end, SetPos(got))))
  {
    var s1 := Go(s, t, Consumer(start, end, WaitTurn));
    var s2 := Go(s1, t, Consumer(start, end, Pop));
    var (s3, got) := Take(s2, t, end - start);
    var s4 := Go(s3, t, Consumer(start, end, SetPos(got)));
    q := Follow(p, s, t, Advance, s1);
    q := Follow(q, s1, t, Advance, s2);
    q := Follow(q, s2, t, Advance, s4);
    assert s4.threads == Go(Take(s, t, end - start).0, t, Consumer(start, end, SetPos(got))).threads;
  }

  lemma Publishes(p: Path, s: State, t: nat, start: nat, end: nat, got: seq<Byte>) returns (q: Path)
    requires Run(p.threads, p.steps) == Some(s) && t < |s.threads| && s.threads[t] == Consumer(start, end, SetPos(got))
    ensures q.threads == p.threads
    ensures Run(q.threads, q.steps) == Some(Go(s.(consumePos := end), t, Consumer(start, end, Done(got))))
  {
    q := Follow(p, s, t, Advance, Go(s.(consumePos := end), t, Consumer(start, end, Done(got))));
  }

  /** Without that condition the consume position moves backwards. From any state that lets both an empty range
      and another one with the same start begin, there is a run after which the bytes of the other are gone and
      the position says they are still there. */
  lemma SharedStartRegresses(p: Path, s: State, t: nat, u: nat, end: nat) returns (q: Path, s': State)
    requires AllFresh(p.threads) && Run(p.threads, p.steps) == Some(s) && t < |s.threads| && u < |s.threads| && t != u
    requires var start := s.consumePos;
             && s.threads[t] == Consumer(start, start, WaitCommit) && s.threads[u] == Consumer(start, end, WaitCommit)
             && |s.output| == start < end <= s.commitPos
    ensures q.threads == p.threads && Run(q.threads, q.steps) == Some(s')
    ensures |s'.output| == end && s'.consumePos == s.consumePos < end
    ensures |s'.queue| + end == |s.queue| + s.consumePos
    ensures NobodyBusy(s) ==> NobodyBusy(s')
  {
    var start := s.consumePos;
    RunsKeepFlow(p.threads, p.steps);
    q := PopsRange(p, s, t, start, start);
    var (m1, none) := Take(s, t, 0);
    var s1 := Go(m1, t, Consumer(start, start, SetPos(none)));
    q := PopsRange(q, s1, u, start, end);
    var (m2, got) := Take(s1, u, end - start);
    var s2 := Go(m2, u, Consumer(start, end, SetPos(got)));
    q := Publishes(q, s2, u, start, end, got);
    var s3 := Go(s2.(consumePos := end), u, Consumer(start, end, Done(got)));
    q := Publishes(q, s3, t, start, start, none);
    s' := Go(s3.(consumePos := start), t, Consumer(start, start, Done(none)));
  }

  /** Such a run, from the start. */
  lemma EmptyRangeRegresses() returns (q: Path, s: State)
    ensures q.threads == [Producer(None), Consumer(0, 0, WaitCommit), Consumer(0, 1, WaitCommit)]
    ensures Run(q.threads, q.steps) == Some(s) && s.queue == [] && |s.output| == 1 && s.consumePos == 0 && NobodyBusy(s)
  {
    q := Path([Producer(None), Consumer(0, 0, WaitCommit), Consumer(0, 1, WaitCommit)], []);
    var s0 := Init(q.threads);
    q := CommitsOne(q, s0);
    var s1 := WithByte(s0);
    q, s := SharedStartRegresses(q, s1, 1, 2, 1);
  }

  /** While consumers tile the stream the check in `size` never fails, whatever happens between its loads. */
  lemma SizeIsSafe(threads: seq<Thread>, steps: seq<(nat, Action)>, t: nat)
    requires AllFresh(threads) && Tiles(threads) && Run(threads, steps).Some? && t < |Run(threads, steps).value.threads|
    ensures var s := Run(threads, steps).value; s.consumePos <= s.commitPos && SizerOk(s, s.threads[t])
  {
    RunsKeepTiles(threads, steps);
    assert ThreadOk(Run(threads, steps).value, Run(threads, steps).value.threads[t]);
  }

  // ---------------------------------------------------------------- size beside consume_some

  /** With `consume_some` as the only way to consume, what `size` has read is no more than has been popped. */
  predicate GreedyOk(s: State, th: Thread) {
    !th.Consumer? && (th.Sizer? && th.load.Read? ==> th.load.seen <= |s.output|)
  }

  predicate GreedyInv(s: State) {
    && FlowInv(s) && s.consumePos == |s.output|
    && forall t :: 0 <= t < |s.threads| ==> GreedyOk(s, s.threads[t])
  }

  predicate NoRanges(threads: seq<Thread>) { forall t :: 0 <= t < |threads| ==> !threads[t].Consumer? }

  lemma StepPops(s: State, t: nat, a: Action, s': State)
    requires s.consumePos == |s.output| && t < |s.threads| && GreedyOk(s, s.threads[t])
    requires Step(s, t, a) == Some(s') && !a.Close?
    ensures s'.consumePos == |s'.output| && s'.threads == s.threads[t := s'.threads[t]] && GreedyOk(s', s'.threads[t])
  {}

  lemma StepKeepsGreedy(s: State, t: nat, a: Action, s': State)
    requires GreedyInv(s) && Step(s, t, a) == Some(s')
    ensures GreedyInv(s')
  {
    StepFlow(s, t, a, s');
    if !a.Close? { StepPops(s, t, a, s'); }
    forall u | 0 <= u < |s'.threads| ensures GreedyOk(s', s'.threads[u]) {
      assert GreedyOk(s, s.threads[u]);
    }
  }

  lemma {:induction false} RunsKeepGreedy(threads: seq<Thread>, steps: seq<(nat, Action)>)
    requires AllFresh(threads) && NoRanges(threads) && Run(threads, steps).Some?
    ensures GreedyInv(Run(threads, steps).value)
  {
    if |steps| == 0 {
      SumZero(Pending, threads);
      forall t | 0 <= t < |threads| ensures GreedyOk(Init(threads), threads[t]) { assert Fresh(threads[t]); }
    } else {
      var before := steps[..|steps| - 1];
      RunsKeepGreedy(threads, before);
      StepKeepsGreedy(Run(threads, before).value, steps[|steps| - 1].0, steps[|steps| - 1].1,
                      Run(threads, steps).value);
    }
  }

  /** No producer is between its push and its update of the commit position with bytes in hand. */
  predicate NoneInFlight(s: State) { forall t :: 0 <= t < |s.threads| ==> Pending(s.threads[t]) == 0 }

  /** A `size` that has made its first load and whose check cannot fail any more. */
  predicate SafeSizer(s: State, t: nat) {
    t < |s.threads| && s.threads[t].Sizer? && !s.threads[t].load.Unread? && SizerOk(s, s.threads[t])
  }

  lemma StepStaysSafe(s: State, u: nat, a: Action, s': State, t: nat)
    requires SafeSizer(s, t) && Step(s, u, a) == Some(s')
    ensures SafeSizer(s', t)
  {
    StepMoves(s, u, a, s');
  }

  lemma {:induction false} StaysSafe(threads: seq<Thread>, steps: seq<(nat, Action)>, k: nat, t: nat)
    requires k <= |steps| && Run(threads, steps).Some? && Run(threads, steps[..k]).Some?
    requires SafeSizer(Run(threads, steps[..k]).value, t)
    ensures SafeSizer(Run(threads, steps).value, t)
    decreases |steps|
  {
    if k == |steps| {
      assert steps[..k] == steps;
    } else {
      var before := steps[..|steps| - 1];
      assert before[..k] == steps[..k];
      StaysSafe(threads, before, k, t);
      StepStaysSafe(Run(threads, before).value, steps[|steps| - 1].0, steps[|steps| - 1].1,
                    Run(threads, steps).value, t);
    }
  }

  /** Beside `consume_some` the check in `size` does not fail if, at some moment between its two loads, no
      commit is under way. */
  lemma SizeIsSafeIfQuiet(threads: seq<Thread>, steps: seq<(nat, Action)>, k: nat, t: nat)
    requires AllFresh(threads) && NoRanges(threads) && k <= |steps| && Run(threads, steps).Some?
    requires Run(threads, steps[..k]).Some? && t < |Run(threads, steps[..k]).value.threads|
    requires var s := Run(threads, steps[..k]).value;
             s.threads[t].Sizer? && s.threads[t].load.Read? && NoneInFlight(s)
    ensures var s := Run(threads, steps).value; t < |s.threads| && SizerOk(s, s.threads[t])
  {
    var s := Run(threads, steps[..k]).value;
    RunsKeepGreedy(threads, steps[..k]);
    assert GreedyOk(s, s.threads[t]);
    SumZero(Pending, s.threads);
    StaysSafe(threads, steps, k, t);
  }

  /** The condition is exact: with the queue empty, as `consume_some` leaves it, a `size` that loads both
      positions at once fails its check if and only if a commit is under way. */
  lemma SizeAfterSwap(threads: seq<Thread>, steps: seq<(nat, Action)>, t: nat)
    requires AllFresh(threads) && NoRanges(threads) && Run(threads, steps).Some?
    requires var s := Run(threads, steps).value;
             s.queue == [] && t < |s.threads| && s.threads[t].Sizer? && s.threads[t].load.Unread?
    ensures var r := Run(threads, steps + [(t, Advance), (t, Advance)]);
            && r.Some? && t < |r.value.threads| && r.value.threads[t].Sizer?
            && (r.value.threads[t].load.CheckFailed? <==> !NoneInFlight(Run(threads, steps).value))
  {
    var s := Run(threads, steps).value;
    RunsKeepGreedy(threads, steps);
    SumZero(Pending, s.threads);
    var limit := s.threads[t].maxSize;
    var s1 := Go(s, t, Sizer(limit, Read(s.consumePos)));
    var s2 := StepSizer(s1, t, limit, Read(s.consumePos)).value;
    var p := Follow(Path(threads, steps), s, t, Advance, s1);
    p := Follow(p, s1, t, Advance, s2);
    assert p.steps == steps + [(t, Advance), (t, Advance)];
  }

  /** The state after thread `t`, alone, has made all of a `consume_some` that finds bytes. */
  function Taken(s: State, t: nat): State
    requires t < |s.threads|
  {
    var (m, all) := Take(s, t, |s.queue|);
    Go(m.(consumePos := s.consumePos + |all|), t, Greedy(Took(all)))
  }

  lemma TakeSteps(s: State, t: nat, s1: State, s2: State)
    requires t < |s.threads| && s.threads[t] == Greedy(Start) && s.consumePos < s.commitPos && s.queue != []
    requires s1 == Go(s, t, Greedy(Await(s.consumePos))) && s2 == Go(s, t, Greedy(Swap(s.consumePos)))
    ensures Step(s, t, Advance) == Some(s1) && Step(s1, t, Advance) == Some(s2)
    ensures Step(s2, t, Advance) == Some(Taken(s, t))
  {
    assert s1.threads[t := Greedy(Swap(s.consumePos))] == s2.threads;
    assert Taken(s, t).threads == s2.threads[t := Taken(s, t).threads[t]];
  }

  lemma TakesAll(p: Path, s: State, t: nat) returns (q: Path)
    requires Run(p.threads, p.steps) == Some(s) && t < |s.threads| && s.threads[t] == Greedy(Start)
    requires s.consumePos < s.commitPos && s.queue != []
    ensures q.threads == p.threads && Run(q.threads, q.steps) == Some(Taken(s, t))
  {
    var s1 := Go(s, t, Greedy(Await(s.consumePos)));
    var s2 := Go(s, t, Greedy(Swap(s.consumePos)));
    TakeSteps(s, t, s1, s2);
    q := Follow(p, s, t, Advance, s1);
    q := Follow(q, s1, t, Advance, s2);
    q := Follow(q, s2, t, Advance, Taken(s, t));
  }

  /** Such a run: `consume_some` takes bytes before their commit is counted, and `size` finds more consumed than
      committed. */
  lemma SizeCheckCanFail() returns (q: Path, s: State)
    ensures AllFresh(q.threads) && NoRanges(q.threads) && Run(q.threads, q.steps) == Some(s)
    ensures 3 < |s.threads| && s.threads[3].Sizer? && s.threads[3].load.CheckFailed?
  {
    q := Path([Producer(None), Producer(None), Greedy(Start), Sizer(4096, Unread)], []);
    var s0 := Init(q.threads);
    q := CommitsOne(q, s0);
    var s1 := WithByte(s0);
    var s2 := Go(s1.(queue := s1.queue + [8], log := s1.log + [8]), 1, Producer(Some(1)));
    q := Follow(q, s1, 1, Push([8]), s2);
    q := TakesAll(q, s2, 2);
    var s4 := Taken(s2, 2);
    assert s4.queue == [] && Pending(s4.threads[1]) == 1;
    SizeAfterSwap(q.threads, q.steps, 3);
    q := q.(steps := q.steps + [(3, Advance), (3, Advance)]);
    s := Run(q.threads, q.steps).value;
  }
}
