/** `insert` on a shared bit set from any number of threads: each `fetch_or` is one atomic step. */
module BitSetRaces {
  import opened Common
  import opened BitTree
  import opened Tally

  /** A thread between calls, or about to set bit `index` of level `depth` on behalf of `item`. */
  datatype Pc = Idle | At(item: nat, depth: nat, index: nat, changed: bool)

  datatype Result = Result(item: nat, changed: bool)

  /** `results` lists the inserts that have returned. */
  datatype State = State(data: seq<Word>, threads: seq<Pc>, results: seq<Result>)

  datatype Action = Begin(item: nat) | Advance

  function Finish(s: State, t: nat, item: nat, changed: bool): State
    requires t < |s.threads|
  {
    s.(threads := s.threads[t := Idle], results := s.results + [Result(item, changed)])
  }

  ghost function FetchOr(sh: Shape, s: State, t: nat): State
    requires Fits(sh, s.data) && t < |s.threads| && s.threads[t].At?
    requires s.threads[t].depth < Height(sh) && s.threads[t].index < BitsAt(sh, s.threads[t].depth)
  {
    var At(item, depth, index, changed) := s.threads[t];
    assert ValidLevel(sh, depth);
    var after := SetBit(sh, s.data, depth, index);
    var changed' := changed || WordAt(sh, after, depth, index / 64) != WordAt(sh, s.data, depth, index / 64);
    if !changed' || !Full(WordAt(sh, after, depth, index / 64)) || depth + 1 == Height(sh) then
      Finish(s.(data := after), t, item, changed')
    else
      s.(data := after, threads := s.threads[t := At(item, depth + 1, index / 64, changed')])
  }

  ghost function Step(sh: Shape, s: State, t: nat, a: Action): Option<State>
    requires Fits(sh, s.data)
  {
    if t >= |s.threads| then None
    else match s.threads[t]
      case Idle =>
        if a.Begin? && a.item < sh.n then Some(s.(threads := s.threads[t := At(a.item, 0, a.item, false)])) else None
      case At(_, depth, index, _) =>
        if a == Advance && depth < Height(sh) && index < BitsAt(sh, depth) then Some(FetchOr(sh, s, t)) else None
  }

  // ---------------------------------------------------------------- the invariant

  ghost function Due(threads: seq<Pc>): set<(nat, nat)> {
    set t | 0 <= t < |threads| && threads[t].At? :: (threads[t].depth, threads[t].index)
  }

  ghost predicate PcOk(sh: Shape, data: seq<Word>, pc: Pc)
    requires Fits(sh, data)
  {
    pc.At? ==>
      && pc.item < sh.n && pc.depth < Height(sh) && pc.index < BitsAt(sh, pc.depth)
      && (pc.depth == 0 ==> pc.index == pc.item && !pc.changed)
      && (pc.depth > 0 ==> pc.changed && Full(WordAt(sh, data, pc.depth - 1, pc.index)) && Landed(sh, data, pc.item))
  }

  ghost predicate Landed(sh: Shape, data: seq<Word>, item: nat)
    requires Fits(sh, data)
  {
    item < sh.n && Bit(sh, data, 0, item)
  }

  /** Inserts of i, running or returned, that found it missing. */
  function WonByPc(i: nat): Pc -> nat { (pc: Pc) => if pc.At? && pc.item == i && pc.changed then 1 else 0 }

  function WonByResult(i: nat): Result -> nat { (r: Result) => if r.item == i && r.changed then 1 else 0 }

  function Wins(s: State, i: nat): nat { Sum(WonByPc(i), s.threads) + Sum(WonByResult(i), s.results) }

  ghost predicate OneWinner(sh: Shape, s: State, i: nat)
    requires Fits(sh, s.data) && i < sh.n
  {
    Wins(s, i) == if Bit(sh, s.data, 0, i) then 1 else 0
  }

  ghost predicate RaceInv(sh: Shape, s: State) {
    && TreeInv(sh, s.data, Due(s.threads))
    && (forall t :: 0 <= t < |s.threads| ==> PcOk(sh, s.data, s.threads[t]))
    && (forall i: nat :: i < sh.n ==> OneWinner(sh, s, i))
    && (forall k :: 0 <= k < |s.results| ==> Landed(sh, s.data, s.results[k].item))
  }

  lemma BeginKeepsRace(sh: Shape, s: State, t: nat, item: nat)
    requires RaceInv(sh, s) && t < |s.threads| && s.threads[t] == Idle && item < sh.n
    ensures RaceInv(sh, s.(threads := s.threads[t := At(item, 0, item, false)]))
  {
    var s' := s.(threads := s.threads[t := At(item, 0, item, false)]);
    forall d, j | 1 <= d < Height(sh) && (d, j) in Due(s.threads) ensures (d, j) in Due(s'.threads) {
      var u :| 0 <= u < |s.threads| && s.threads[u].At? && (s.threads[u].depth, s.threads[u].index) == (d, j);
      assert s'.threads[u] == s.threads[u];
    }
    MoreDue(sh, s.data, Due(s.threads), Due(s'.threads));
    assert ValidLevel(sh, 0);
    forall i: nat | i < sh.n ensures OneWinner(sh, s', i) {
      assert OneWinner(sh, s, i);
      SumUpdate(WonByPc(i), s.threads, t, s'.threads[t]);
    }
  }

  /** Bits are never cleared, so a full word stays full. */
  lemma StillFull(sh: Shape, data: seq<Word>, d: nat, i: nat, pc: Pc)
    requires Fits(sh, data) && d < Height(sh) && i < BitsAt(sh, d) && PcOk(sh, data, pc)
    ensures PcOk(sh, SetBit(sh, data, d, i), pc)
  {
    if pc.At? && pc.depth > 0 {
      SetBitWords(sh, data, d, i, pc.depth - 1, pc.index);
      SetBitBits(sh, data, d, i, 0, pc.item);
    }
  }

  lemma ResultsStayLanded(sh: Shape, s: State, t: nat, s': State)
    requires RaceInv(sh, s) && t < |s.threads| && Step(sh, s, t, Advance) == Some(s') && Fits(sh, s'.data)
    ensures forall k :: 0 <= k < |s'.results| ==> Landed(sh, s'.data, s'.results[k].item)
  {
    var At(item, d, i, changed) := s.threads[t];
    assert PcOk(sh, s.data, s.threads[t]);
    forall k | 0 <= k < |s'.results| ensures Landed(sh, s'.data, s'.results[k].item) {
      if k < |s.results| {
        assert Landed(sh, s.data, s.results[k].item);
      }
      SetBitBits(sh, s.data, d, i, 0, s'.results[k].item);
    }
  }

  lemma WordChangesIffBitClear(sh: Shape, data: seq<Word>, d: nat, i: nat)
    requires Fits(sh, data) && d < Height(sh) && i < BitsAt(sh, d) && i / 64 < sh.sizes[d]
    ensures WordAt(sh, SetBit(sh, data, d, i), d, i / 64) != WordAt(sh, data, d, i / 64) <==> !Bit(sh, data, d, i)
    ensures Bit(sh, data, d, i) ==> SetBit(sh, data, d, i) == data
  {
    SetBitWords(sh, data, d, i, d, i / 64);
    InBounds(sh, d, i / 64);
  }

  /** The duties after the step are met by the threads as they now stand. */
  lemma DutiesMoveOn(sh: Shape, s: State, t: nat, s': State)
    requires RaceInv(sh, s) && t < |s.threads| && Step(sh, s, t, Advance) == Some(s')
    ensures TreeInv(sh, s'.data, Due(s'.threads))
  {
    var At(item, d, i, changed) := s.threads[t];
    assert ValidLevel(sh, d);
    assert PcOk(sh, s.data, s.threads[t]);
    WordChangesIffBitClear(sh, s.data, d, i);
    var due := Due(s.threads);
    var after := SetBit(sh, s.data, d, i);
    SetBitKeepsTree(sh, s.data, d, i, due);
    var reached := if Bit(sh, s.data, d, i) && d == 0 then due else DueAfter(sh, s.data, d, i, due);
    assert TreeInv(sh, after, reached);
    forall e, j | 1 <= e < Height(sh) && (e, j) in reached && !Bit0(sh, after, e, j) ensures (e, j) in Due(s'.threads) {
      if (e, j) in due {
        if (e, j) == (d, i) {
          SetBitBits(sh, s.data, d, i, d, i);
        } else {
          var u :| 0 <= u < |s.threads| && s.threads[u].At? && (s.threads[u].depth, s.threads[u].index) == (e, j);
          assert s'.threads[u] == s.threads[u];
        }
      } else {
        assert s'.threads[t].At? && (s'.threads[t].depth, s'.threads[t].index) == (e, j);
      }
    }
    MoreDue(sh, after, reached, Due(s'.threads));
  }

  lemma WinnersStayUnique(sh: Shape, s: State, t: nat, s': State, i: nat)
    requires RaceInv(sh, s) && t < |s.threads| && Step(sh, s, t, Advance) == Some(s') && i < sh.n
    requires Fits(sh, s'.data)
    ensures OneWinner(sh, s', i)
  {
    var At(item, d, index, changed) := s.threads[t];
    assert ValidLevel(sh, d) && ValidLevel(sh, 0);
    assert PcOk(sh, s.data, s.threads[t]);
    WordChangesIffBitClear(sh, s.data, d, index);
    SetBitBits(sh, s.data, d, index, 0, i);
    assert OneWinner(sh, s, i);
    SumUpdate(WonByPc(i), s.threads, t, s'.threads[t]);
    if |s'.results| > |s.results| {
      assert s'.results[..|s'.results| - 1] == s.results;
    }
  }

  lemma StepKeepsRace(sh: Shape, s: State, t: nat, a: Action, s': State)
    requires RaceInv(sh, s) && Step(sh, s, t, a) == Some(s')
    ensures RaceInv(sh, s')
  {
    if s.threads[t].Idle? {
      BeginKeepsRace(sh, s, t, a.item);
    } else {
      DutiesMoveOn(sh, s, t, s');
      forall i: nat | i < sh.n ensures OneWinner(sh, s', i) {
        WinnersStayUnique(sh, s, t, s', i);
      }
      AdvanceKeepsPcs(sh, s, t, s');
      ResultsStayLanded(sh, s, t, s');
    }
  }

  lemma AdvanceKeepsPcs(sh: Shape, s: State, t: nat, s': State)
    requires RaceInv(sh, s) && t < |s.threads| && Step(sh, s, t, Advance) == Some(s') && Fits(sh, s'.data)
    ensures forall u :: 0 <= u < |s'.threads| ==> PcOk(sh, s'.data, s'.threads[u])
  {
    var At(item, d, i, changed) := s.threads[t];
    assert PcOk(sh, s.data, s.threads[t]);
    assert ValidLevel(sh, d);
    SetBitBits(sh, s.data, d, i, 0, item);
    forall u | 0 <= u < |s'.threads| ensures PcOk(sh, s'.data, s'.threads[u]) {
      if u != t {
        assert PcOk(sh, s.data, s.threads[u]);
        StillFull(sh, s.data, d, i, s.threads[u]);
      }
    }
  }

  // ---------------------------------------------------------------- runs

  ghost predicate Reaches(sh: Shape, s: State, steps: seq<(nat, Action)>, s': State)
    requires Fits(sh, s.data)
  {
    if |steps| == 0 then s' == s
    else exists m: State ::
      && Fits(sh, m.data) && Reaches(sh, s, steps[..|steps| - 1], m)
      && Step(sh, m, steps[|steps| - 1].0, steps[|steps| - 1].1) == Some(s')
  }

  lemma {:induction false} RunsKeepRace(sh: Shape, s: State, steps: seq<(nat, Action)>, s': State)
    requires RaceInv(sh, s) && Reaches(sh, s, steps, s')
    ensures RaceInv(sh, s')
  {
    if |steps| > 0 {
      var m: State :| Fits(sh, m.data) && Reaches(sh, s, steps[..|steps| - 1], m)
               && Step(sh, m, steps[|steps| - 1].0, steps[|steps| - 1].1) == Some(s');
      RunsKeepRace(sh, s, steps[..|steps| - 1], m);
      StepKeepsRace(sh, m, steps[|steps| - 1].0, steps[|steps| - 1].1, s');
    }
  }

  ghost predicate Initial(sh: Shape, s: State) {
    && TreeInv(sh, s.data, {}) && Contents(sh, s.data) == {} && s.results == []
    && forall t :: 0 <= t < |s.threads| ==> s.threads[t] == Idle
  }

  lemma InitialIsSafe(sh: Shape, s: State)
    requires Initial(sh, s)
    ensures RaceInv(sh, s)
  {
    assert Due(s.threads) == {};
    assert ValidLevel(sh, 0);
    forall i: nat | i < sh.n ensures OneWinner(sh, s, i) {
      SumZero(WonByPc(i), s.threads);
      assert i !in Contents(sh, s.data);
    }
  }

  /** Every interleaving: a set summary bit means a full word below, and so does `is_full`. */
  lemma SummariesNeverLie(sh: Shape, s: State, steps: seq<(nat, Action)>, s': State)
    requires Initial(sh, s) && Reaches(sh, s, steps, s')
    ensures Fits(sh, s'.data) && SummaryTrue(sh, s'.data)
    ensures TopFull(sh, s'.data) ==> HasAll(sh, s'.data)
  {
    InitialIsSafe(sh, s);
    RunsKeepRace(sh, s, steps, s');
    TopFullMeansAll(sh, s'.data, Due(s'.threads));
  }

  /** When no insert is in flight, a summary bit is set exactly over the full words, and `is_full` is exact. */
  lemma QuiescentSummaries(sh: Shape, s: State, steps: seq<(nat, Action)>, s': State)
    requires Initial(sh, s) && Reaches(sh, s, steps, s')
    requires forall t :: 0 <= t < |s'.threads| ==> s'.threads[t] == Idle
    ensures TreeInv(sh, s'.data, {})
    ensures TopFull(sh, s'.data) <==> HasAll(sh, s'.data)
  {
    InitialIsSafe(sh, s);
    RunsKeepRace(sh, s, steps, s');
    assert Due(s'.threads) == {};
    TopFullMeansAll(sh, s'.data, {});
  }

  /** Of all inserts of one integer that have returned, however they raced, exactly one was told it was new. */
  lemma ExactlyOneWinner(sh: Shape, s: State, steps: seq<(nat, Action)>, s': State, i: nat)
    requires Initial(sh, s) && Reaches(sh, s, steps, s') && i < sh.n
    requires forall t :: 0 <= t < |s'.threads| ==> s'.threads[t] == Idle
    ensures Fits(sh, s'.data)
    ensures Sum(WonByResult(i), s'.results) == if i in Contents(sh, s'.data) then 1 else 0
    ensures (exists k :: 0 <= k < |s'.results| && s'.results[k].item == i) ==> i in Contents(sh, s'.data)
  {
    InitialIsSafe(sh, s);
    RunsKeepRace(sh, s, steps, s');
    assert ValidLevel(sh, 0);
    assert OneWinner(sh, s', i);
    SumZero(WonByPc(i), s'.threads);
  }

  // ---------------------------------------------------------------- one insert by itself

  /** What the insert of `item` by thread `t` has done so far, from `s` to `s'`. */
  ghost predicate InsertSoFar(sh: Shape, s: State, s': State, t: nat, item: nat) {
    && Fits(sh, s.data) && Fits(sh, s'.data) && item < sh.n && t < |s.threads| == |s'.threads|
    && s'.threads == s.threads[t := s'.threads[t]]
    && match s'.threads[t] {
         case At(i, depth, index, changed) =>
           && i == item && s'.results == s.results
           && (depth == 0 ==> index == item && !changed && s'.data == s.data)
           && (depth > 0 ==>
                 changed && item !in Contents(sh, s.data) && Contents(sh, s'.data) == Contents(sh, s.data) + {item})
         case Idle =>
           && s'.results == s.results + [Result(item, item !in Contents(sh, s.data))]
           && Contents(sh, s'.data) == Contents(sh, s.data) + {item}
       }
  }

  lemma InsertStep(sh: Shape, s: State, m: State, t: nat, item: nat)
    requires RaceInv(sh, m) && InsertSoFar(sh, s, m, t, item) && m.threads[t].At?
    ensures Step(sh, m, t, Advance).Some? && InsertSoFar(sh, s, Step(sh, m, t, Advance).value, t, item)
    ensures var pc' := Step(sh, m, t, Advance).value.threads[t];
            pc'.At? ==> m.threads[t].depth < pc'.depth < Height(sh)
  {
    var At(i, d, index, changed) := m.threads[t];
    assert PcOk(sh, m.data, m.threads[t]);
    assert ValidLevel(sh, d);
    SetBitContents(sh, m.data, d, index);
    WordChangesIffBitClear(sh, m.data, d, index);
  }

  lemma ReachOneMore(sh: Shape, o: State, steps: seq<(nat, Action)>, s: State, t: nat, a: Action, s': State)
    requires Fits(sh, o.data) && Fits(sh, s.data) && Reaches(sh, o, steps, s) && Step(sh, s, t, a) == Some(s')
    ensures Reaches(sh, o, steps + [(t, a)], s')
  {
    var more := steps + [(t, a)];
    assert more[..|more| - 1] == steps && more[|more| - 1] == (t, a);
  }

  lemma {:induction false} InsertEnds(
      sh: Shape, o: State, steps: seq<(nat, Action)>, s: State, m: State, t: nat, item: nat)
    returns (more: seq<(nat, Action)>, s': State)
    requires Fits(sh, o.data) && Reaches(sh, o, steps, m) && RaceInv(sh, m) && InsertSoFar(sh, s, m, t, item)
    ensures Reaches(sh, o, more, s') && InsertSoFar(sh, s, s', t, item) && s'.threads[t].Idle?
    decreases if m.threads[t].At? then Height(sh) - m.threads[t].depth else -1
  {
    if m.threads[t].Idle? {
      more, s' := steps, m;
    } else {
      assert PcOk(sh, m.data, m.threads[t]);
      InsertStep(sh, s, m, t, item);
      var next := Step(sh, m, t, Advance).value;
      StepKeepsRace(sh, m, t, Advance, next);
      ReachOneMore(sh, o, steps, m, t, Advance, next);
      more, s' := InsertEnds(sh, o, steps + [(t, Advance)], s, next, t, item);
    }
  }

  /** An insert that is not interrupted, at any point of any run: the set gains exactly the item asked for, and the
      answer tells whether it was new. */
  lemma InsertAlone(sh: Shape, o: State, steps: seq<(nat, Action)>, s: State, t: nat, item: nat)
    returns (more: seq<(nat, Action)>, s': State)
    requires Initial(sh, o) && Reaches(sh, o, steps, s) && Fits(sh, s.data)
    requires t < |s.threads| && s.threads[t].Idle? && item < sh.n
    ensures Reaches(sh, o, more, s') && Fits(sh, s'.data) && s'.threads == s.threads
    ensures Contents(sh, s'.data) == Contents(sh, s.data) + {item}
    ensures s'.results == s.results + [Result(item, item !in Contents(sh, s.data))]
  {
    InitialIsSafe(sh, o);
    RunsKeepRace(sh, o, steps, s);
    var m := s.(threads := s.threads[t := At(item, 0, item, false)]);
    assert Step(sh, s, t, Begin(item)) == Some(m);
    StepKeepsRace(sh, s, t, Begin(item), m);
    ReachOneMore(sh, o, steps, s, t, Begin(item), m);
    more, s' := InsertEnds(sh, o, steps + [(t, Begin(item))], s, m, t, item);
    assert s'.threads == s.threads;
  }
}
