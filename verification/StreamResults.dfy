/** What the callers of the stream get: the results of all consumers, what `size` returns, and when a consumer
    is told that the stream is closed. */
module StreamResults {
  import opened Common
  import opened Tally
  import opened StreamBuffer
  import opened StreamRuns

  type Steps = seq<(nat, Action)>

  // ---------------------------------------------------------------- the results add up

  /** The thread has popped, and so has its result. */
  predicate Popped(th: Thread) {
    match th
    case Consumer(_, _, pc) => pc.SetPos? || pc.Done?
    case Greedy(at) => at.Took? || at.AtEnd?
    case _ => false
  }

  /** What the call has got, or will return. */
  function Got(th: Thread): seq<Byte> {
    match th
    case Consumer(_, _, pc) => if pc.SetPos? || pc.Done? then pc.got else []
    case Greedy(at) => if at.Took? then at.got else []
    case _ => []
  }

  /** The results of the threads listed, one after the other. */
  function Results(threads: seq<Thread>, order: seq<nat>): seq<Byte> {
    if order == [] then []
    else
      var last := order[|order| - 1];
      Results(threads, order[..|order| - 1]) + if last < |threads| then Got(threads[last]) else []
  }

  lemma {:induction false} ResultsAgree(threads: seq<Thread>, threads': seq<Thread>, order: seq<nat>)
    requires |threads'| == |threads|
    requires forall i :: 0 <= i < |order| && order[i] < |threads| ==> Got(threads'[order[i]]) == Got(threads[order[i]])
    ensures Results(threads', order) == Results(threads, order)
  {
    if order != [] { ResultsAgree(threads, threads', order[..|order| - 1]); }
  }

  predicate Once(order: seq<nat>) { forall i, j :: 0 <= i < j < |order| ==> order[i] != order[j] }

  /** Whoever has popped with something to show for it is listed, once; nobody else is. */
  predicate Listed(s: State) {
    && Once(s.pops)
    && (forall t: nat :: t in s.pops ==> t < |s.threads| && Popped(s.threads[t]))
    && (forall t :: 0 <= t < |s.threads| && Popped(s.threads[t]) && t !in s.pops ==> Got(s.threads[t]) == [])
  }

  predicate ResultInv(s: State) { Listed(s) && s.output == Results(s.threads, s.pops) }

  /** A step that pops nothing leaves every result as it was. */
  predicate NoPop(s: State, t: nat, s': State) {
    && t < |s.threads| == |s'.threads| && s'.threads == s.threads[t := s'.threads[t]]
    && s'.pops == s.pops && s'.output == s.output && Got(s'.threads[t]) == Got(s.threads[t])
    && (Popped(s.threads[t]) ==> Popped(s'.threads[t]))
  }

  lemma NoPopKeeps(s: State, t: nat, s': State)
    requires ResultInv(s) && NoPop(s, t, s')
    ensures ResultInv(s')
  {
    ResultsAgree(s.threads, s'.threads, s.pops);
  }

  /** A step in which thread `t` pops what it will return. */
  predicate PopsOwn(s: State, t: nat, s': State) {
    && t < |s.threads| == |s'.threads| && s'.threads == s.threads[t := s'.threads[t]] && !Popped(s.threads[t])
    && Popped(s'.threads[t]) && s'.pops == s.pops + [t] && s'.output == s.output + Got(s'.threads[t])
  }

  lemma PopKeeps(s: State, t: nat, s': State)
    requires ResultInv(s) && PopsOwn(s, t, s')
    ensures ResultInv(s')
  {
    assert t !in s.pops;
    ResultsAgree(s.threads, s'.threads, s.pops);
    assert s'.pops[..|s.pops|] == s.pops && s'.pops[|s.pops|] == t;
  }

  lemma ConsumerPops(s: State, t: nat, a: Action, s': State)
    requires t < |s.threads| && s.threads[t].Consumer? && Step(s, t, a) == Some(s') && !a.Close?
    ensures if s.threads[t].pc.Pop? then PopsOwn(s, t, s') else NoPop(s, t, s')
  {}

  lemma GreedyPops(s: State, t: nat, a: Action, s': State)
    requires t < |s.threads| && s.threads[t].Greedy? && Step(s, t, a) == Some(s') && !a.Close?
    ensures if s.threads[t].at.Swap? then PopsOwn(s, t, s') else NoPop(s, t, s')
  {
    if s.threads[t].at.Swap? {
      assert Take(s, t, |s.queue|).1 == s.queue[..|s.queue|] == Got(s'.threads[t]);
    }
  }

  lemma StepResults(s: State, t: nat, a: Action, s': State)
    requires ResultInv(s) && Step(s, t, a) == Some(s')
    ensures ResultInv(s')
  {
    if !a.Close? {
      if s.threads[t].Consumer? {
        ConsumerPops(s, t, a, s');
        if s.threads[t].pc.Pop? { PopKeeps(s, t, s'); } else { NoPopKeeps(s, t, s'); }
      } else if s.threads[t].Greedy? {
        GreedyPops(s, t, a, s');
        if s.threads[t].at.Swap? { PopKeeps(s, t, s'); } else { NoPopKeeps(s, t, s'); }
      } else {
        NoPopKeeps(s, t, s');
      }
    }
  }

  /** With any mix of callers, what `consume` and `consume_some` return, in the order in which they popped, is all
      that ever left the queue: no byte is popped and not returned. */
  lemma {:induction false} ResultsAreOutput(threads: seq<Thread>, steps: Steps)
    requires AllFresh(threads) && Run(threads, steps).Some?
    ensures ResultInv(Run(threads, steps).value)
  {
    if |steps| == 0 {
      forall t | 0 <= t < |threads| ensures !Popped(threads[t]) { assert Fresh(threads[t]); }
    } else {
      var before := steps[..|steps| - 1];
      ResultsAreOutput(threads, before);
      StepResults(Run(threads, before).value, steps[|steps| - 1].0, steps[|steps| - 1].1, Run(threads, steps).value);
    }
  }

  /** So the results and what is still queued are what was pushed. */
  lemma ResultsAreTheStream(threads: seq<Thread>, steps: Steps)
    requires AllFresh(threads) && Run(threads, steps).Some?
    ensures var s := Run(threads, steps).value; Results(s.threads, s.pops) + s.queue == s.log
  {
    ResultsAreOutput(threads, steps);
    NothingLost(threads, steps);
  }

  // ---------------------------------------------------------------- consume_some

  /** With `consume_some` as the only way to consume, its swap returns exactly the log from the consume position
      to the new one, which is all there is; the answer that the stream is closed comes exactly when there is
      nothing to return and it is. If nobody else has consumed since the call loaded the position, there is
      something. */
  lemma SwapReturnsRest(threads: seq<Thread>, steps: Steps, t: nat) returns (s': State)
    requires AllFresh(threads) && NoRanges(threads) && Run(threads, steps).Some?
    requires var s := Run(threads, steps).value; t < |s.threads| && s.threads[t].Greedy? && s.threads[t].at.Swap?
    ensures var s := Run(threads, steps).value;
            && Step(s, t, Advance) == Some(s') && s'.queue == [] && s'.log == s.log
            && s.consumePos <= s'.consumePos == |s.log| && s'.threads == s.threads[t := s'.threads[t]]
            && (s'.threads[t] == Greedy(AtEnd) <==> s'.consumePos == s.consumePos && s'.closed)
            && (s'.threads[t] == Greedy(AtEnd) || s'.threads[t] == Greedy(Took(s.log[s.consumePos..s'.consumePos])))
            && (s.consumePos == s.threads[t].at.seen ==>
                  s'.threads[t].at.Took? && s'.threads[t].at.got != [] && s'.consumePos > s.consumePos)
  {
    var s := Run(threads, steps).value;
    RunsKeepGreedy(threads, steps);
    RunsKeepSwaps(threads, steps);
    assert SwapOk(s, s.threads[t]);
    TakeFlow(s, t, |s.queue|);
    s' := Step(s, t, Advance).value;
    assert s.queue[..|s.queue|] == s.queue == s.log[s.consumePos..|s.log|];
  }

  /** A call that has done waiting found more committed than it had seen consumed. */
  predicate SwapOk(s: State, th: Thread) { th.Greedy? && th.at.Swap? ==> th.at.seen < s.commitPos }

  predicate SwapsOk(s: State) { forall t :: 0 <= t < |s.threads| ==> SwapOk(s, s.threads[t]) }

  lemma StepSwaps(s: State, u: nat, a: Action, s': State)
    requires SwapsOk(s) && Step(s, u, a) == Some(s')
    ensures SwapsOk(s')
  {
    StepMoves(s, u, a, s');
    forall t | 0 <= t < |s'.threads| ensures SwapOk(s', s'.threads[t]) {
      assert SwapOk(s, s.threads[t]);
    }
  }

  lemma {:induction false} RunsKeepSwaps(threads: seq<Thread>, steps: Steps)
    requires AllFresh(threads) && Run(threads, steps).Some?
    ensures SwapsOk(Run(threads, steps).value)
  {
    if |steps| == 0 {
      forall t | 0 <= t < |threads| ensures SwapOk(Init(threads), threads[t]) { assert Fresh(threads[t]); }
    } else {
      var before := steps[..|steps| - 1];
      RunsKeepSwaps(threads, before);
      StepSwaps(Run(threads, before).value, steps[|steps| - 1].0, steps[|steps| - 1].1, Run(threads, steps).value);
    }
  }

  /** The step in which a call of `consume_some` gets its result is its swap. */
  lemma SwapHere(threads: seq<Thread>, before: Steps, s: State, t: nat, u: nat, a: Action, s': State)
    requires AllFresh(threads) && NoRanges(threads) && Run(threads, before) == Some(s) && Step(s, u, a) == Some(s')
    requires t < |s.threads| == |s'.threads| && s.threads[t] != s'.threads[t] && u == t
    requires s'.threads[t].Greedy? && s'.threads[t].at.Took?
    ensures a.Advance? && s.consumePos <= s'.consumePos <= |s'.log|
    ensures s'.threads[t].at.got == s'.log[s.consumePos..s'.consumePos]
  {
    var m := SwapReturnsRest(threads, before, t);
  }

  /** The result of a finished `consume_some` is the log between the consume positions before and after the step
      in which it swapped. */
  lemma {:induction false} FinishedSwap(threads: seq<Thread>, steps: Steps, t: nat) returns (k: nat)
    requires AllFresh(threads) && NoRanges(threads) && Run(threads, steps).Some?
    requires var s := Run(threads, steps).value; t < |s.threads| && s.threads[t].Greedy? && s.threads[t].at.Took?
    ensures k < |steps| && steps[k] == (t, Advance)
    ensures Run(threads, steps[..k]).Some? && Run(threads, steps[..k + 1]).Some?
    ensures var s := Run(threads, steps).value;
            var a, b := Run(threads, steps[..k]).value, Run(threads, steps[..k + 1]).value;
            a.consumePos <= b.consumePos <= |s.log| && s.threads[t].at.got == s.log[a.consumePos..b.consumePos]
  {
    if |steps| == 0 {
      assert false;
    } else {
      var last := |steps| - 1;
      var before := steps[..last];
      var s0, s := Run(threads, before).value, Run(threads, steps).value;
      var (u, a) := steps[last];
      StepMoves(s0, u, a, s);
      assert steps[..last + 1] == steps;
      if s0.threads[t] == s.threads[t] {
        k := FinishedSwap(threads, before, t);
        assert before[..k] == steps[..k] && before[..k + 1] == steps[..k + 1];
      } else {
        SwapHere(threads, before, s0, t, u, a, s);
        k := last;
      }
    }
  }

  /** Thread `t` has done waiting, and thread `u` takes all there is before it swaps. */
  lemma Overtaken(p: Path, s: State, t: nat, u: nat) returns (q: Path, s': State)
    requires Run(p.threads, p.steps) == Some(s) && t < |s.threads| && u < |s.threads| && t != u
    requires s.threads[t].Greedy? && s.threads[t].at.Swap? && s.threads[u] == Greedy(Start)
    requires s.consumePos < s.commitPos && s.queue != [] && !s.closed && !s.endOfStream
    ensures q.threads == p.threads && Run(q.threads, q.steps) == Some(s') && t < |s'.threads| == |s.threads|
    ensures s'.threads[u] == Greedy(Took(s.queue)) && s'.threads[t] == Greedy(Took([]))
  {
    q := TakesAll(p, s, u);
    var m := Taken(s, u);
    assert s.queue[..|s.queue|] == s.queue && m.queue == [] && m.threads[t] == s.threads[t];
    s' := Step(m, t, Advance).value;
    q := Follow(q, m, t, Advance, s');
  }

  /** So it can be empty: two calls wait for the same byte. */
  lemma SwapCanBeEmpty() returns (q: Path, s: State)
    ensures AllFresh(q.threads) && NoRanges(q.threads) && Run(q.threads, q.steps) == Some(s)
    ensures |s.threads| == 3 && s.threads[1] == Greedy(Took([7])) && s.threads[2] == Greedy(Took([]))
  {
    q := Path([Producer(None), Greedy(Start), Greedy(Start)], []);
    var s0 := Init(q.threads);
    q := CommitsOne(q, s0);
    var s1 := WithByte(s0);
    assert s1.queue == [7];
    var s2 := Go(s1, 2, Greedy(Await(0)));
    var s3 := Go(s2, 2, Greedy(Swap(0)));
    q := Follow(q, s1, 2, Advance, s2);
    q := Follow(q, s2, 2, Advance, s3);
    q, s := Overtaken(q, s3, 2, 1);
  }

  // ---------------------------------------------------------------- size

  /** What `size` returns: the bytes committed at its second load less those consumed at its first, up to the
      maximum. That is no less than what was committed and not consumed at either load. */
  lemma SizeIsBetween(threads: seq<Thread>, steps: Steps, k: nat, t: nat)
    requires AllFresh(threads) && Tiles(threads) && k <= |steps| && Run(threads, steps).Some?
    requires Run(threads, steps[..k]).Some? && t < |Run(threads, steps[..k]).value.threads|
    requires var a := Run(threads, steps[..k]).value; a.threads[t].Sizer? && a.threads[t].load == Read(a.consumePos)
    requires var b := Run(threads, steps).value;
             t < |b.threads| && b.threads[t] == Run(threads, steps[..k]).value.threads[t]
    ensures var a, b := Run(threads, steps[..k]).value, Run(threads, steps).value;
            var limit, r := b.threads[t].maxSize, Step(b, t, Advance);
            && a.consumePos <= b.consumePos <= b.commitPos && a.commitPos <= b.commitPos && r.Some?
            && r.value.threads[t] == Sizer(limit, Sized(Min(limit, b.commitPos - a.consumePos)))
  {
    RunsKeepTiles(threads, steps);
    PositionsGrow(threads, steps, k);
  }

  lemma {:induction false} PositionsGrow(threads: seq<Thread>, steps: Steps, k: nat)
    requires AllFresh(threads) && Tiles(threads) && k <= |steps| && Run(threads, steps).Some?
    ensures Run(threads, steps[..k]).Some?
    ensures var a, b := Run(threads, steps[..k]).value, Run(threads, steps).value;
            a.consumePos <= b.consumePos && a.commitPos <= b.commitPos
    decreases |steps|
  {
    if k == |steps| {
      assert steps[..k] == steps;
    } else {
      var before := steps[..|steps| - 1];
      assert before[..k] == steps[..k];
      PositionsGrow(threads, before, k);
      RunsKeepTiles(threads, before);
      var (t, a) := steps[|steps| - 1];
      StepTiles(Run(threads, before).value, t, a, Run(threads, steps).value);
      StepMoves(Run(threads, before).value, t, a, Run(threads, steps).value);
    }
  }

  // ---------------------------------------------------------------- the end of the stream

  /** The stream is closed only after its end was declared, and is closed once its end is declared and its bytes
      are popped. */
  predicate EndInv(s: State) { (s.closed ==> s.endOfStream) && (s.endOfStream && s.queue == [] ==> s.closed) }

  lemma StepEnd(s: State, t: nat, a: Action, s': State)
    requires EndInv(s) && Step(s, t, a) == Some(s')
    ensures EndInv(s') && (s.endOfStream ==> s'.endOfStream)
    ensures (s.closed ==> s.queue == []) && (a.Push? ==> !s.endOfStream) ==> (s'.closed ==> s'.queue == [])
  {}

  /** No bytes are pushed after the end was declared. */
  predicate NoLatePush(threads: seq<Thread>, steps: Steps)
    requires Run(threads, steps).Some?
  {
    |steps| > 0 ==>
      var before := steps[..|steps| - 1];
      && NoLatePush(threads, before)
      && (steps[|steps| - 1].1.Push? ==> !Run(threads, before).value.endOfStream)
  }

  /** If no bytes are pushed after the end was declared, the stream is closed exactly when its end is declared and
      everything pushed is popped. So a consumer that is turned away has missed nothing. */
  lemma {:induction false} ClosedMeansDrained(threads: seq<Thread>, steps: Steps)
    requires Run(threads, steps).Some? && NoLatePush(threads, steps)
    ensures var s := Run(threads, steps).value; EndInv(s) && (s.closed <==> s.endOfStream && s.queue == [])
  {
    if |steps| > 0 {
      var before := steps[..|steps| - 1];
      ClosedMeansDrained(threads, before);
      StepEnd(Run(threads, before).value, steps[|steps| - 1].0, steps[|steps| - 1].1, Run(threads, steps).value);
    }
  }

  /** A consumer that is turned away, or is told of the end, meets a closed stream; one that waits for more to be
      committed than it has seen consumed is told so only if there is no more. */
  lemma TurnedAwayWhenClosed(s: State, t: nat, a: Action, s': State)
    requires Step(s, t, a) == Some(s') && t < |s.threads| == |s'.threads| && s'.threads[t] != s.threads[t]
    requires (s'.threads[t].Consumer? && s'.threads[t].pc.Failed?) || s'.threads[t] == Greedy(AtEnd)
    ensures s'.closed && (s'.threads[t].Consumer? ==> s.closed && s'.queue == s.queue)
    ensures s.threads[t].Greedy? && s.threads[t].at.Await? ==> s.closed && s.commitPos <= s.threads[t].at.seen
  {}

  /** The condition is needed: bytes pushed after the end was declared can be in the queue while their consumer is
      turned away. */
  lemma LatePushIsMissed() returns (q: Path, s: State)
    ensures q.threads == [Producer(None), Consumer(0, 1, WaitCommit)] && Run(q.threads, q.steps) == Some(s)
    ensures s.threads == [Producer(Some(1)), Consumer(0, 1, Failed)] && s.queue == [7] == s.log
  {
    q := Path([Producer(None), Consumer(0, 1, WaitCommit)], []);
    var s0 := Init(q.threads);
    var s1 := s0.(endOfStream := true, closed := true);
    q := Follow(q, s0, 0, Close, s1);
    var s2 := Go(s1.(queue := s1.queue + [7], log := s1.log + [7]), 0, Producer(Some(1)));
    q := Follow(q, s1, 0, Push([7]), s2);
    s := Go(s2, 1, Consumer(0, 1, Failed));
    q := Follow(q, s2, 1, Fail, s);
  }
}
