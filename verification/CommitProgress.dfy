/** Jobs in the commit pipeline get through: nothing but a failure ever holds one up, and without failures all of
    them become durable. */
module CommitProgress {
  import opened Common
  import opened SlotMath
  import opened Tally
  import opened CommitPipeline

  type Steps = seq<(nat, Action)>

  // ---------------------------------------------------------------- what finished jobs leave behind

  predicate Over(job: Job) { job.pc.Done? || job.pc.Failed? }

  /** A job that is over or past publishing no longer says `Pending`, one that is done has dropped its pages, and
      one past setting the slot has set it. */
  predicate EndOk(job: Job, c: Config) {
    && (Over(job) || PastPublish(job.pc) ==> !job.progress.Pending?)
    && (job.pc.Done? ==> job.dropped && job.recycled && job.wasDurable)
    && (c.ordered && (job.pc.Recycle? || job.pc.Drop? || job.pc.Done?) ==> job.slotSet)
  }

  predicate EndsOk(cfg: seq<Config>, s: State) {
    |s.jobs| == |cfg| && forall j :: 0 <= j < |cfg| ==> EndOk(s.jobs[j], cfg[j])
  }

  lemma OwnEndOk(cfg: seq<Config>, s: State, j: nat, a: Action, s': State)
    requires DurableInv(cfg, s) && Step(cfg, s, j, a) == Some(s') && j < |cfg| && EndOk(s.jobs[j], cfg[j])
    ensures j < |s'.jobs| && EndOk(s'.jobs[j], cfg[j])
  {
    assert JobOk(s, s.jobs[j], cfg[j]);
    StepOutcome(cfg, s, j, a, s');
  }

  lemma {:induction false} RunsKeepEnds(cfg: seq<Config>, slot: int, steps: Steps)
    requires Run(cfg, slot, steps).Some?
    ensures EndsOk(cfg, Run(cfg, slot, steps).value)
  {
    if |steps| > 0 {
      var before := steps[..|steps| - 1];
      var s, s' := Run(cfg, slot, before).value, Run(cfg, slot, steps).value;
      var (j, a) := steps[|steps| - 1];
      RunsKeepEnds(cfg, slot, before);
      RunsKeepDurable(cfg, slot, before);
      StepMoves(cfg, s, j, a, s');
      OwnEndOk(cfg, s, j, a, s');
      forall i | 0 <= i < |cfg| ensures EndOk(s'.jobs[i], cfg[i]) { assert EndOk(s.jobs[i], cfg[i]); }
    }
  }

  /** Whoever waits for a job that is over can go on, or fails with it. */
  lemma NobodyWaitsForTheDead(cfg: seq<Config>, slot: int, steps: Steps, j: nat)
    requires BasesEarlier(cfg) && Run(cfg, slot, steps).Some? && j < |cfg|
    requires var s := Run(cfg, slot, steps).value;
             && |s.jobs| == |cfg| && !s.panicked && s.jobs[j].pc.AwaitBase?
             && (cfg[j].base.Some? ==> Over(s.jobs[cfg[j].base.value]))
    ensures Step(cfg, Run(cfg, slot, steps).value, j, Advance).Some?
  {
    RunsKeepEnds(cfg, slot, steps);
    var s := Run(cfg, slot, steps).value;
    if cfg[j].base.Some? { assert EndOk(s.jobs[cfg[j].base.value], cfg[cfg[j].base.value]); }
  }

  // ---------------------------------------------------------------- only failures hold jobs up

  predicate AllUnordered(cfg: seq<Config>) { forall j :: 0 <= j < |cfg| ==> !cfg[j].ordered }

  /** No job can take a step of its own. */
  ghost predicate Stuck(cfg: seq<Config>, s: State) {
    forall j: nat :: j < |cfg| ==> Step(cfg, s, j, Advance).None?
  }

  predicate AllOver(s: State) { forall j :: 0 <= j < |s.jobs| ==> Over(s.jobs[j]) }

  lemma {:induction false} FirstNotOver(s: State, k: nat) returns (j: nat)
    requires k <= |s.jobs| && !(forall i :: 0 <= i < k ==> Over(s.jobs[i]))
    ensures j < k && !Over(s.jobs[j]) && forall i :: 0 <= i < j ==> Over(s.jobs[i])
  {
    if forall i :: 0 <= i < k - 1 ==> Over(s.jobs[i]) {
      j := k - 1;
    } else {
      j := FirstNotOver(s, k - 1);
    }
  }

  /** The first job that is not over, if it cannot move, waits for the slot of an earlier one. */
  lemma FirstWaitsForSlot(cfg: seq<Config>, s: State, j: nat)
    requires BasesEarlier(cfg) && EndsOk(cfg, s) && !s.panicked && j < |cfg| && !Over(s.jobs[j])
    requires (forall i :: 0 <= i < j ==> Over(s.jobs[i])) && Step(cfg, s, j, Advance).None?
    ensures s.jobs[j].pc.AwaitSlot? && cfg[j].ordered && SlotLess(s.durableSlot, cfg[j].prevSlot)
  {
    if cfg[j].base.Some? { assert EndOk(s.jobs[cfg[j].base.value], cfg[cfg[j].base.value]); }
  }

  /** With chained slots, or none, and failures and cancellations anywhere: if some job is not over and none can
      move, a job before it has failed without setting the slot. */
  lemma OnlyFailuresBlock(cfg: seq<Config>, first: int, steps: Steps) returns (i: nat)
    requires BasesEarlier(cfg) && (Chained(cfg, first) || AllUnordered(cfg)) && Run(cfg, first, steps).Some?
    requires var s := Run(cfg, first, steps).value; !s.panicked && Stuck(cfg, s) && !AllOver(s)
    ensures i < |Run(cfg, first, steps).value.jobs|
    ensures Run(cfg, first, steps).value.jobs[i].pc.Failed? && !Run(cfg, first, steps).value.jobs[i].slotSet
  {
    var s := Run(cfg, first, steps).value;
    RunsKeepEnds(cfg, first, steps);
    var j := FirstNotOver(s, |s.jobs|);
    FirstWaitsForSlot(cfg, s, j);
    var k := RunsKeepSlots(cfg, first, steps);
    i := BlockedByFailure(cfg, first, s, k, j);
  }

  lemma BlockedByFailure(cfg: seq<Config>, first: int, s: State, k: nat, j: nat) returns (i: nat)
    requires Chained(cfg, first) && SlotsUpTo(cfg, first, s, k) && EndsOk(cfg, s) && j < |cfg|
    requires SlotLess(s.durableSlot, cfg[j].prevSlot) && forall i :: 0 <= i < j ==> Over(s.jobs[i])
    requires s.jobs[j].pc.AwaitSlot?
    ensures i < j && s.jobs[i].pc.Failed? && !s.jobs[i].slotSet
  {
    assert LinkOk(cfg, first, j) && SlotJobOk(s.jobs[j], j, k);
    SlotsIncrease(cfg, first, k, j);
    SlotLessIsLess(s.durableSlot, cfg[j].prevSlot);
    i := k;
    assert LinkOk(cfg, first, i) && SlotJobOk(s.jobs[i], i, k) && EndOk(s.jobs[i], cfg[i]);
  }

  // ---------------------------------------------------------------- without failures

  /** A run in which no job fails, is cancelled or is destroyed. */
  predicate Clean(steps: Steps) { forall i :: 0 <= i < |steps| ==> steps[i].1.Advance? }

  predicate Unharmed(s: State) {
    forall j :: 0 <= j < |s.jobs| ==> !s.jobs[j].pc.Failed? && !s.jobs[j].progress.Cancelled?
  }

  /** How many steps a job has before it. */
  function Left(pc: Pc): nat {
    match pc
    case Write => 9
    case AwaitBase => 8
    case AwaitSlot => 7
    case Update => 6
    case Sync => 5
    case Publish => 4
    case SetSlot => 3
    case Recycle => 2
    case Drop => 1
    case _ => 0
  }

  function LeftOf(job: Job): nat { Left(job.pc) }

  lemma NextIsCloser(job: Job, ordered: bool)
    requires !job.pc.Done? && !job.pc.Failed?
    ensures var next := NextStage(job, ordered);
            && Left(next.pc) < Left(job.pc) && !next.pc.Failed?
            && (next.progress.Cancelled? ==> job.progress.Cancelled?)
  {}

  /** A job whose base is not cancelled takes its next step, and only that. */
  lemma OwnStep(cfg: seq<Config>, s: State, j: nat, s': State)
    requires Step(cfg, s, j, Advance) == Some(s') && !BaseProgress(s, cfg[j]).Cancelled?
    ensures j < |s.jobs| == |s'.jobs| && !s'.jobs[j].pc.Failed?
    ensures s'.jobs[j].progress.Cancelled? ==> s.jobs[j].progress.Cancelled?
    ensures !s'.panicked ==> Left(s'.jobs[j].pc) < Left(s.jobs[j].pc)
    ensures !cfg[j].ordered ==> s'.panicked == s.panicked && s'.durableSlot == s.durableSlot
  {
    StepOutcome(cfg, s, j, Advance, s');
    if !s.jobs[j].pc.Done? && !s.jobs[j].pc.Failed? { NextIsCloser(s.jobs[j], cfg[j].ordered); }
  }

  lemma StepUnharmed(cfg: seq<Config>, s: State, j: nat, s': State)
    requires Unharmed(s) && Step(cfg, s, j, Advance) == Some(s')
    ensures Unharmed(s')
  {
    StepMoves(cfg, s, j, Advance, s');
    OwnStep(cfg, s, j, s');
  }

  /** Then no job fails or is cancelled. */
  lemma {:induction false} CleanRunsHarmNobody(cfg: seq<Config>, slot: int, steps: Steps)
    requires Run(cfg, slot, steps).Some? && Clean(steps)
    ensures Unharmed(Run(cfg, slot, steps).value)
  {
    if |steps| > 0 {
      var before := steps[..|steps| - 1];
      CleanRunsHarmNobody(cfg, slot, before);
      assert steps[|steps| - 1].1.Advance?;
      StepUnharmed(cfg, Run(cfg, slot, before).value, steps[|steps| - 1].0, Run(cfg, slot, steps).value);
    }
  }

  lemma StepTakesOne(cfg: seq<Config>, s: State, j: nat, s': State)
    requires Unharmed(s) && Step(cfg, s, j, Advance) == Some(s') && !s'.panicked
    ensures Sum(LeftOf, s'.jobs) < Sum(LeftOf, s.jobs)
  {
    StepMoves(cfg, s, j, Advance, s');
    OwnStep(cfg, s, j, s');
    SumUpdate(LeftOf, s.jobs, j, s'.jobs[j]);
  }

  predicate Completed(job: Job) {
    job.pc.Done? && job.progress.Durable? && job.wasDurable && job.recycled && job.dropped
  }

  /** No check fails, with chained slots or none. */
  lemma {:induction false} NoPanic(cfg: seq<Config>, first: int, steps: Steps)
    requires (Chained(cfg, first) || AllUnordered(cfg)) && Run(cfg, first, steps).Some? && Clean(steps)
    ensures !Run(cfg, first, steps).value.panicked
    ensures AllUnordered(cfg) ==> Run(cfg, first, steps).value.durableSlot == first
  {
    if Chained(cfg, first) {
      var k := RunsKeepSlots(cfg, first, steps);
    }
    if AllUnordered(cfg) && |steps| > 0 {
      var before := steps[..|steps| - 1];
      var (j, a) := steps[|steps| - 1];
      NoPanic(cfg, first, before);
      CleanRunsHarmNobody(cfg, first, before);
      assert steps[|steps| - 1].1.Advance? && !cfg[j].ordered;
      OwnStep(cfg, Run(cfg, first, before).value, j, Run(cfg, first, steps).value);
    }
  }

  /** Where the caller's slot is when all jobs are done. */
  function LastSlot(cfg: seq<Config>, first: int): int {
    if cfg == [] || !cfg[|cfg| - 1].ordered then first else cfg[|cfg| - 1].slot
  }

  lemma AllCompleted(cfg: seq<Config>, s: State)
    requires EndsOk(cfg, s) && Unharmed(s) && AllOver(s)
    ensures forall j :: 0 <= j < |cfg| ==> Completed(s.jobs[j]) && (cfg[j].ordered ==> s.jobs[j].slotSet)
  {
    forall j | 0 <= j < |cfg| ensures Completed(s.jobs[j]) && (cfg[j].ordered ==> s.jobs[j].slotSet) {
      assert EndOk(s.jobs[j], cfg[j]) && Over(s.jobs[j]);
    }
  }

  lemma AllDoneAtEnd(cfg: seq<Config>, first: int, steps: Steps)
    requires (Chained(cfg, first) || AllUnordered(cfg)) && Run(cfg, first, steps).Some? && Clean(steps)
    requires AllOver(Run(cfg, first, steps).value)
    ensures Finished(cfg, first, Run(cfg, first, steps).value)
  {
    var s := Run(cfg, first, steps).value;
    assert EndsOk(cfg, s) by { RunsKeepEnds(cfg, first, steps); }
    assert Unharmed(s) by { CleanRunsHarmNobody(cfg, first, steps); }
    AllCompleted(cfg, s);
    if AllUnordered(cfg) {
      assert s.durableSlot == first by { NoPanic(cfg, first, steps); }
    } else {
      var k := RunsKeepSlots(cfg, first, steps);
      SlotAtEnd(cfg, first, s, k);
    }
  }

  lemma SlotAtEnd(cfg: seq<Config>, first: int, s: State, k: nat)
    requires Chained(cfg, first) && SlotsUpTo(cfg, first, s, k)
    requires forall j :: 0 <= j < |cfg| && cfg[j].ordered ==> s.jobs[j].slotSet
    ensures s.durableSlot == LastSlot(cfg, first)
  {
    if cfg != [] {
      var last := |cfg| - 1;
      assert LinkOk(cfg, first, last) && SlotJobOk(s.jobs[last], last, k);
    }
  }

  /** Every job is done, durable and has dropped its pages, and the caller's slot is the last one. */
  predicate Finished(cfg: seq<Config>, first: int, s: State) {
    && |s.jobs| == |cfg| && (forall j :: 0 <= j < |cfg| ==> Completed(s.jobs[j]))
    && s.durableSlot == LastSlot(cfg, first)
  }

  /** Whatever jobs have done so far without a failure, they can all get through: every job ends done, durable and
      with its pages dropped, and the caller's slot is the last one. */
  lemma {:induction false} AllJobsCommit(cfg: seq<Config>, first: int, steps: Steps) returns (more: Steps)
    requires BasesEarlier(cfg) && (Chained(cfg, first) || AllUnordered(cfg))
    requires Run(cfg, first, steps).Some? && Clean(steps)
    ensures steps <= more && Clean(more) && Run(cfg, first, more).Some?
    ensures Finished(cfg, first, Run(cfg, first, more).value)
    decreases Sum(LeftOf, Run(cfg, first, steps).value.jobs)
  {
    var s := Run(cfg, first, steps).value;
    NoPanic(cfg, first, steps);
    if AllOver(s) {
      AllDoneAtEnd(cfg, first, steps);
      more := steps;
    } else {
      var j, next := SomeJobMoves(cfg, first, steps);
      NoPanic(cfg, first, next);
      CleanRunsHarmNobody(cfg, first, steps);
      StepTakesOne(cfg, s, j, Run(cfg, first, next).value);
      more := AllJobsCommit(cfg, first, next);
    }
  }

  /** Without failures some job can move until all are over. */
  lemma SomeJobMoves(cfg: seq<Config>, first: int, steps: Steps) returns (j: nat, next: Steps)
    requires BasesEarlier(cfg) && (Chained(cfg, first) || AllUnordered(cfg))
    requires Run(cfg, first, steps).Some? && Clean(steps) && !AllOver(Run(cfg, first, steps).value)
    ensures next == steps + [(j, Advance)] && Clean(next) && Run(cfg, first, next).Some?
    ensures Step(cfg, Run(cfg, first, steps).value, j, Advance) == Run(cfg, first, next)
  {
    var s := Run(cfg, first, steps).value;
    NoPanic(cfg, first, steps);
    if Stuck(cfg, s) {
      var i := OnlyFailuresBlock(cfg, first, steps);
      CleanRunsHarmNobody(cfg, first, steps);
      assert false;
    }
    j :| j < |cfg| && Step(cfg, s, j, Advance).Some?;
    next := steps + [(j, Advance)];
    assert next[..|next| - 1] == steps && next[|next| - 1] == (j, Advance);
  }

  // ---------------------------------------------------------------- failures after the fact

  predicate NeverCancelled(steps: Steps) { forall i :: 0 <= i < |steps| ==> !steps[i].1.Cancel? }

  predicate SaysDurable(job: Job) { job.wasDurable ==> job.progress.Durable? }

  lemma OwnSays(cfg: seq<Config>, s: State, j: nat, a: Action, s': State)
    requires Step(cfg, s, j, a) == Some(s') && !a.Cancel? && SaysDurable(s.jobs[j])
    ensures j < |s'.jobs| && SaysDurable(s'.jobs[j])
  {
    StepOutcome(cfg, s, j, a, s');
  }

  /** A job that has become durable stays so, whatever fails afterwards, unless it is cancelled: jobs based on it
      can go on. */
  lemma {:induction false} DurableStays(cfg: seq<Config>, slot: int, steps: Steps)
    requires Run(cfg, slot, steps).Some? && NeverCancelled(steps)
    ensures var s := Run(cfg, slot, steps).value; forall j :: 0 <= j < |s.jobs| ==> SaysDurable(s.jobs[j])
  {
    if |steps| > 0 {
      var before := steps[..|steps| - 1];
      DurableStays(cfg, slot, before);
      var s, s' := Run(cfg, slot, before).value, Run(cfg, slot, steps).value;
      var (j, a) := steps[|steps| - 1];
      assert !steps[|steps| - 1].1.Cancel?;
      StepMoves(cfg, s, j, a, s');
      OwnSays(cfg, s, j, a, s');
    }
  }

  /** Cancelling a job that is not durable yet keeps its dependants from going on: whoever waits for it fails next. */
  lemma CancelFailsWaiters(cfg: seq<Config>, s: State, i: nat, j: nat, s': State) returns (s'': State)
    requires Step(cfg, s, i, Cancel) == Some(s') && |s.jobs| == |cfg| && j < |cfg| && i != j
    requires cfg[j].base == Some(i) && s.jobs[j].pc.AwaitBase? && !s.jobs[j].progress.Durable?
    ensures Step(cfg, s', j, Advance) == Some(s'') && |s''.jobs| == |cfg|
    ensures s''.jobs[j].pc.Failed? && s''.jobs[j].progress.Cancelled? && s''.jobs[i].progress.Cancelled?
  {
    s'' := Put(s', j, Stop(s'.jobs[j]));
  }
}
