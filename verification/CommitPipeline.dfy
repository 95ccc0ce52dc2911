/** Committing page cache jobs in a pipeline: each job writes its pages, waits for its base job and for the
    previous slot of its caller, updates reference counts, and then lets its successors go on. Jobs run
    concurrently, and any step may fail. */
module CommitPipeline {
  import opened Common
  import opened SlotMath

  datatype Progress = Pending | Durable | Cancelled

  datatype Pc = Write | AwaitBase | AwaitSlot | Update | Sync | Publish | SetSlot | Recycle | Drop | Done | Failed

  /** What a job is given: its base job if any, and with `ordered` the caller's slots. */
  datatype Config = Config(base: Option<nat>, ordered: bool, prevSlot: int, slot: int)

  /** One job: where its commit is, what its tracker says, what it has done so far. `wasDurable` remembers
      that the tracker once said so. */
  datatype Job = Job(pc: Pc, progress: Progress, written: bool, updated: bool, synced: bool, slotSet: bool,
                     recycled: bool, dropped: bool, wasDurable: bool)

  /** `panicked` is set when a check fails. */
  datatype State = State(jobs: seq<Job>, durableSlot: int, panicked: bool)

  datatype Action = Advance | Fail | Cancel | Destroy

  function Put(s: State, j: nat, job: Job): State
    requires j < |s.jobs|
  {
    s.(jobs := s.jobs[j := job])
  }

  /** What a wait for the base job sees: no base or a durable one lets the job go on, a cancelled one fails it. */
  function BaseProgress(s: State, c: Config): Progress {
    if c.base.None? then Durable
    else if c.base.value < |s.jobs| then s.jobs[c.base.value].progress
    else Pending
  }

  function Stop(job: Job): Job { job.(pc := Failed, progress := if job.progress.Durable? then Durable else Cancelled) }

  function Step(cfg: seq<Config>, s: State, j: nat, a: Action): Option<State> {
    if s.panicked || j >= |s.jobs| || j >= |cfg| then None
    else
      var job, c := s.jobs[j], cfg[j];
      match a
      case Advance => Go(s, j, job, c)
      case Fail =>
        if job.pc.Done? || job.pc.Failed? || job.pc.Publish? || job.pc.SetSlot? then None
        else Some(Put(s, j, Stop(job)))
      case Cancel => Some(Put(s, j, job.(progress := Cancelled)))
      case Destroy =>
        if job.pc.Write? || job.pc.Done? || job.pc.Failed? then
          Some(Put(s, j, job.(pc := if job.pc.Write? then Failed else job.pc,
                              progress := if job.progress.Pending? then Cancelled else job.progress)))
        else None
  }

  function NextPc(pc: Pc): Pc {
    match pc
    case Write => AwaitBase
    case AwaitBase => AwaitSlot
    case AwaitSlot => Update
    case Update => Sync
    case Sync => Publish
    case Publish => SetSlot
    case SetSlot => Recycle
    case Recycle => Drop
    case Drop => Done
    case _ => pc
  }

  /** What a job has done once it is through with the stage it is in. */
  function NextStage(job: Job, ordered: bool): Job {
    var pc := job.pc;
    Job(NextPc(pc), if pc.Publish? then Durable else job.progress,
        job.written || pc.Write?, job.updated || pc.Update?, job.synced || pc.Sync?,
        job.slotSet || (pc.SetSlot? && ordered), job.recycled || pc.Recycle?, job.dropped || pc.Drop?,
        job.wasDurable || pc.Publish?)
  }

  /** The next step of `commit_impl`. */
  function Go(s: State, j: nat, job: Job, c: Config): Option<State>
    requires j < |s.jobs|
  {
    var next := NextStage(job, c.ordered);
    match job.pc
    case AwaitBase =>
      (match BaseProgress(s, c)
       case Pending => None
       case Cancelled => Some(Put(s, j, Stop(job)))
       case Durable => Some(Put(s, j, next)))
    case AwaitSlot =>
      if !c.ordered then Some(Put(s, j, next))
      else if !SlotLess(c.prevSlot, c.slot) then Some(s.(panicked := true))
      else if SlotLess(s.durableSlot, c.prevSlot) then None
      else Some(Put(s, j, next))
    case SetSlot =>
      if !c.ordered then Some(Put(s, j, next))
      else Some(Put(s.(durableSlot := c.slot, panicked := s.durableSlot != c.prevSlot), j, next))
    case Done => None
    case Failed => None
    case _ => Some(Put(s, j, next))
  }

  function Init(n: nat, slot: int): State {
    State(seq(n, i => Job(Write, Pending, false, false, false, false, false, false, false)), slot, false)
  }

  function Run(cfg: seq<Config>, slot: int, steps: seq<(nat, Action)>): Option<State> {
    if |steps| == 0 then Some(Init(|cfg|, slot))
    else
      var before := Run(cfg, slot, steps[..|steps| - 1]);
      var (j, a) := steps[|steps| - 1];
      if before.None? then None else Step(cfg, before.value, j, a)
  }

  // ---------------------------------------------------------------- durability

  /** Jobs are based on earlier ones. */
  predicate BasesEarlier(cfg: seq<Config>) {
    forall j :: 0 <= j < |cfg| ==> cfg[j].base.Some? ==> cfg[j].base.value < j
  }

  predicate BaseWasDurable(s: State, c: Config) {
    c.base.Some? ==> c.base.value < |s.jobs| && s.jobs[c.base.value].wasDurable
  }

  predicate PastBase(pc: Pc) { !pc.Write? && !pc.AwaitBase? && !pc.Failed? }

  predicate PastSync(pc: Pc) { pc.Publish? || PastPublish(pc) }

  predicate PastPublish(pc: Pc) { pc.SetSlot? || pc.Recycle? || pc.Drop? || pc.Done? }

  /** What a job at its stage has done and may rely on, given whether its base was durable. */
  predicate StageOk(job: Job, base: bool) {
    && (PastBase(job.pc) || job.pc.AwaitBase? ==> job.written)
    && (PastBase(job.pc) || job.wasDurable ==> base)
    && (job.pc.Sync? || PastSync(job.pc) ==> job.updated) && (PastSync(job.pc) ==> job.synced)
    && (job.progress.Durable? || PastPublish(job.pc) || job.slotSet || job.dropped ==> job.wasDurable)
    && (job.wasDurable ==> job.written && job.updated && job.synced)
    && (job.pc.Drop? || job.pc.Done? || job.dropped ==> job.recycled) && (job.recycled ==> job.wasDurable)
  }

  predicate JobOk(s: State, job: Job, c: Config) { StageOk(job, BaseWasDurable(s, c)) }

  predicate DurableInv(cfg: seq<Config>, s: State) {
    |s.jobs| == |cfg| && forall j :: 0 <= j < |cfg| ==> JobOk(s, s.jobs[j], cfg[j])
  }

  /** Once durable in the past, always. */
  predicate Remembers(s: State, s': State) {
    |s'.jobs| == |s.jobs| && forall i :: 0 <= i < |s.jobs| && s.jobs[i].wasDurable ==> s'.jobs[i].wasDurable
  }

  /** What a step makes of its own job: the next stage, unless it fails, is cancelled or destroyed, or a check
      fails, which changes no job. */
  predicate Outcome(s: State, job: Job, c: Config, a: Action, job': Job, panics: bool) {
    match a
    case Advance =>
      || (job' == job && panics && job.pc.AwaitSlot?)
      || (job' == Stop(job) && job.pc.AwaitBase? && BaseProgress(s, c).Cancelled?)
      || (job' == NextStage(job, c.ordered) && !job.pc.Done? && !job.pc.Failed?
          && (job.pc.AwaitBase? ==> BaseProgress(s, c).Durable?))
    case Fail => job' == Stop(job) && !job.pc.Done? && !job.pc.Failed? && !job.pc.Publish? && !job.pc.SetSlot?
    case Cancel => job' == job.(progress := Cancelled)
    case Destroy =>
      && (job.pc.Write? || job.pc.Done? || job.pc.Failed?)
      && job' == job.(pc := if job.pc.Write? then Failed else job.pc,
                      progress := if job.progress.Pending? then Cancelled else job.progress)
  }

  lemma StepOutcome(cfg: seq<Config>, s: State, j: nat, a: Action, s': State)
    requires Step(cfg, s, j, a) == Some(s')
    ensures j < |s.jobs| == |s'.jobs| && s'.jobs == s.jobs[j := s'.jobs[j]]
    ensures Outcome(s, s.jobs[j], cfg[j], a, s'.jobs[j], s'.panicked)
    ensures s'.panicked ==> a.Advance? && (s.jobs[j].pc.SetSlot? || s.jobs[j].pc.AwaitSlot?)
    ensures !cfg[j].ordered ==> !s'.panicked
    ensures !cfg[j].ordered || !s.jobs[j].pc.SetSlot? || !a.Advance? ==> s'.durableSlot == s.durableSlot
  {}

  lemma StepMoves(cfg: seq<Config>, s: State, j: nat, a: Action, s': State)
    requires Step(cfg, s, j, a) == Some(s')
    ensures j < |s.jobs| == |s'.jobs| && s'.jobs == s.jobs[j := s'.jobs[j]] && Remembers(s, s')
  {
    StepOutcome(cfg, s, j, a, s');
  }

  lemma NextStageOk(job: Job, ordered: bool, base: bool)
    requires StageOk(job, base) && !job.pc.Done? && !job.pc.Failed? && (job.pc.AwaitBase? ==> base)
    ensures StageOk(NextStage(job, ordered), base)
  {}

  lemma OwnJobOk(cfg: seq<Config>, s: State, j: nat, a: Action, s': State)
    requires Step(cfg, s, j, a) == Some(s') && |s.jobs| == |cfg| && JobOk(s, s.jobs[j], cfg[j]) && Remembers(s, s')
    requires cfg[j].base.Some? && cfg[j].base.value < |cfg| && s.jobs[cfg[j].base.value].progress.Durable? ==>
               s.jobs[cfg[j].base.value].wasDurable
    ensures JobOk(s', s'.jobs[j], cfg[j])
  {
    var job, c := s.jobs[j], cfg[j];
    StepOutcome(cfg, s, j, a, s');
    assert BaseWasDurable(s, c) ==> BaseWasDurable(s', c);
    if a.Advance? && s'.jobs[j] == NextStage(job, c.ordered) && !job.pc.Done? && !job.pc.Failed? {
      NextStageOk(job, c.ordered, BaseWasDurable(s, c));
    }
  }

  lemma StepKeepsDurable(cfg: seq<Config>, s: State, j: nat, a: Action, s': State)
    requires DurableInv(cfg, s) && Step(cfg, s, j, a) == Some(s')
    ensures DurableInv(cfg, s') && Remembers(s, s')
  {
    StepMoves(cfg, s, j, a, s');
    assert JobOk(s, s.jobs[j], cfg[j]);
    if cfg[j].base.Some? && cfg[j].base.value < |cfg| {
      assert JobOk(s, s.jobs[cfg[j].base.value], cfg[cfg[j].base.value]);
    }
    OwnJobOk(cfg, s, j, a, s');
    forall i | 0 <= i < |cfg| ensures JobOk(s', s'.jobs[i], cfg[i]) {
      assert JobOk(s, s.jobs[i], cfg[i]);
    }
  }

  lemma {:induction false} RunsKeepDurable(cfg: seq<Config>, slot: int, steps: seq<(nat, Action)>)
    requires Run(cfg, slot, steps).Some?
    ensures DurableInv(cfg, Run(cfg, slot, steps).value)
  {
    if |steps| > 0 {
      var before := steps[..|steps| - 1];
      RunsKeepDurable(cfg, slot, before);
      StepKeepsDurable(cfg, Run(cfg, slot, before).value, steps[|steps| - 1].0, steps[|steps| - 1].1,
                       Run(cfg, slot, steps).value);
    }
  }

  /** The job and all jobs it is based on, directly or not, have been durable. */
  predicate ChainWasDurable(cfg: seq<Config>, s: State, j: nat)
    requires BasesEarlier(cfg) && |s.jobs| == |cfg| && j < |cfg|
    decreases j
  {
    s.jobs[j].wasDurable && (cfg[j].base.Some? ==> ChainWasDurable(cfg, s, cfg[j].base.value))
  }

  lemma {:induction false} DurableChain(cfg: seq<Config>, s: State, j: nat)
    requires BasesEarlier(cfg) && DurableInv(cfg, s) && j < |cfg| && s.jobs[j].wasDurable
    ensures ChainWasDurable(cfg, s, j)
    decreases j
  {
    assert JobOk(s, s.jobs[j], cfg[j]);
    if cfg[j].base.Some? { DurableChain(cfg, s, cfg[j].base.value); }
  }

  /** In every run, with failures and cancellations anywhere, a job that is or was durable has its pages
      written and its reference counts updated and synced, and so has every job it is based on; a job recycles
      dead pages only when it was durable before, and drops pages only after that. */
  lemma DurableIsSafe(cfg: seq<Config>, slot: int, steps: seq<(nat, Action)>, j: nat)
    requires BasesEarlier(cfg) && Run(cfg, slot, steps).Some? && j < |cfg|
    ensures var s := Run(cfg, slot, steps).value;
            && |s.jobs| == |cfg|
            && (s.jobs[j].progress.Durable? || s.jobs[j].recycled ==> s.jobs[j].wasDurable)
            && (s.jobs[j].dropped ==> s.jobs[j].recycled)
            && (s.jobs[j].wasDurable ==>
                  s.jobs[j].written && s.jobs[j].updated && s.jobs[j].synced && ChainWasDurable(cfg, s, j))
  {
    RunsKeepDurable(cfg, slot, steps);
    var s := Run(cfg, slot, steps).value;
    assert JobOk(s, s.jobs[j], cfg[j]);
    if s.jobs[j].wasDurable { DurableChain(cfg, s, j); }
  }

  // ---------------------------------------------------------------- the caller's slots

  /** The slot job `j` must find: the one of the job before it, or where the caller started. */
  function SlotBefore(cfg: seq<Config>, first: int, j: nat): int
    requires j <= |cfg|
  {
    if j == 0 then first else cfg[j - 1].slot
  }

  /** All jobs are ordered, each by the slot of the one before, and the slots increase. */
  predicate Chained(cfg: seq<Config>, first: int) {
    forall j :: 0 <= j < |cfg| ==> LinkOk(cfg, first, j)
  }

  predicate LinkOk(cfg: seq<Config>, first: int, j: nat)
    requires j < |cfg|
  {
    && cfg[j].ordered && cfg[j].prevSlot == SlotBefore(cfg, first, j) && cfg[j].prevSlot < cfg[j].slot
    && first <= cfg[j].prevSlot && cfg[j].slot < first + TWO_63
  }

  lemma {:induction false} SlotsIncrease(cfg: seq<Config>, first: int, i: nat, j: nat)
    requires Chained(cfg, first) && i <= j <= |cfg|
    ensures SlotBefore(cfg, first, i) <= SlotBefore(cfg, first, j) < first + TWO_63
    ensures i < j ==> SlotBefore(cfg, first, i) < SlotBefore(cfg, first, j)
    ensures first <= SlotBefore(cfg, first, i)
    decreases j
  {
    if j > 0 { assert LinkOk(cfg, first, j - 1); }
    if i > 0 { assert LinkOk(cfg, first, i - 1); }
    if i < j { SlotsIncrease(cfg, first, i, j - 1); }
  }

  predicate PastSlotWait(pc: Pc) { pc.Update? || pc.Sync? || pc.Publish? || pc.SetSlot? }

  predicate AfterSlot(pc: Pc) { pc.Recycle? || pc.Drop? || pc.Done? || pc.Failed? }

  /** With the first `k` jobs through: job `j` has set the slot exactly if it is one of them, is past waiting
      for it only if it is the next, and was durable only if it is one of these. */
  predicate SlotJobOk(job: Job, j: int, k: nat) {
    && (job.slotSet <==> j < k) && (job.slotSet ==> AfterSlot(job.pc)) && (PastSlotWait(job.pc) ==> j == k)
    && (job.wasDurable ==> j <= k)
  }

  /** Exactly the first `k` jobs have set the slot, in order. */
  predicate SlotsUpTo(cfg: seq<Config>, first: int, s: State, k: nat) {
    && k <= |cfg| == |s.jobs| && s.durableSlot == SlotBefore(cfg, first, k) && !s.panicked
    && forall j :: 0 <= j < |cfg| ==> SlotJobOk(s.jobs[j], j, k)
  }

  /** A job goes past its wait only when it is next. */
  lemma OnlyNextPasses(cfg: seq<Config>, first: int, s: State, k: nat, j: nat, s': State)
    requires Chained(cfg, first) && SlotsUpTo(cfg, first, s, k) && j < |cfg| && s.jobs[j].pc.AwaitSlot?
    requires Go(s, j, s.jobs[j], cfg[j]) == Some(s')
    ensures j == k && s' == Put(s, j, s.jobs[j].(pc := Update))
  {
    assert LinkOk(cfg, first, j) && SlotJobOk(s.jobs[j], j, k);
    SlotLessIsLess(cfg[j].prevSlot, cfg[j].slot);
    SlotsIncrease(cfg, first, k, j);
    SlotLessIsLess(s.durableSlot, cfg[j].prevSlot);
  }

  lemma NextSlotJobOk(job: Job, ordered: bool, j: nat, k: nat)
    requires SlotJobOk(job, j, k) && !job.pc.SetSlot? && !job.pc.AwaitSlot? && !job.pc.Done? && !job.pc.Failed?
    ensures SlotJobOk(NextStage(job, ordered), j, k)
  {}

  lemma SlotJobStep(cfg: seq<Config>, s: State, k: nat, j: nat, a: Action, s': State)
    requires Step(cfg, s, j, a) == Some(s') && SlotJobOk(s.jobs[j], j, k)
    requires a.Advance? ==> !s.jobs[j].pc.SetSlot? && !s.jobs[j].pc.AwaitSlot?
    ensures j < |s.jobs| == |s'.jobs| && s'.jobs == s.jobs[j := s'.jobs[j]] && SlotJobOk(s'.jobs[j], j, k)
    ensures s'.durableSlot == s.durableSlot && s'.panicked == s.panicked
  {
    StepOutcome(cfg, s, j, a, s');
    if a.Advance? && !s.jobs[j].pc.Done? && !s.jobs[j].pc.Failed? {
      NextSlotJobOk(s.jobs[j], cfg[j].ordered, j, k);
    }
  }

  /** The job that sets the slot finds the one it was told to expect. */
  lemma SetSlotStep(cfg: seq<Config>, first: int, s: State, k: nat, j: nat, s': State)
    requires Chained(cfg, first) && SlotsUpTo(cfg, first, s, k) && Step(cfg, s, j, Advance) == Some(s')
    requires s.jobs[j].pc.SetSlot?
    ensures j == k && SlotsUpTo(cfg, first, s', k + 1)
  {
    assert LinkOk(cfg, first, j) && SlotJobOk(s.jobs[j], j, k);
    forall i | 0 <= i < |cfg| ensures SlotJobOk(s'.jobs[i], i, k + 1) { assert SlotJobOk(s.jobs[i], i, k); }
  }

  lemma SlotStep(cfg: seq<Config>, first: int, s: State, k: nat, j: nat, a: Action, s': State) returns (k': nat)
    requires Chained(cfg, first) && SlotsUpTo(cfg, first, s, k) && Step(cfg, s, j, a) == Some(s')
    ensures k <= k' && SlotsUpTo(cfg, first, s', k')
  {
    assert SlotJobOk(s.jobs[j], j, k);
    if a.Advance? && s.jobs[j].pc.SetSlot? {
      SetSlotStep(cfg, first, s, k, j, s');
      return k + 1;
    }
    if a.Advance? && s.jobs[j].pc.AwaitSlot? {
      OnlyNextPasses(cfg, first, s, k, j, s');
    } else {
      SlotJobStep(cfg, s, k, j, a, s');
    }
    forall i | 0 <= i < |cfg| ensures SlotJobOk(s'.jobs[i], i, k) { assert SlotJobOk(s.jobs[i], i, k); }
    k' := k;
  }

  lemma {:induction false} RunsKeepSlots(cfg: seq<Config>, first: int, steps: seq<(nat, Action)>) returns (k: nat)
    requires Chained(cfg, first) && Run(cfg, first, steps).Some?
    ensures SlotsUpTo(cfg, first, Run(cfg, first, steps).value, k)
  {
    if |steps| == 0 {
      k := 0;
    } else {
      var before := steps[..|steps| - 1];
      var k0 := RunsKeepSlots(cfg, first, before);
      k := SlotStep(cfg, first, Run(cfg, first, before).value, k0, steps[|steps| - 1].0, steps[|steps| - 1].1,
                    Run(cfg, first, steps).value);
    }
  }

  /** With chained slots, in every run: no check fails; the slot is that of the last job to have set it, all
      jobs before that one have set it and were durable, and no job after it has. */
  lemma SlotsAdvanceInOrder(cfg: seq<Config>, first: int, steps: seq<(nat, Action)>) returns (k: nat)
    requires Chained(cfg, first) && Run(cfg, first, steps).Some?
    ensures var s := Run(cfg, first, steps).value;
            && k <= |cfg| == |s.jobs| && !s.panicked && s.durableSlot == SlotBefore(cfg, first, k)
            && forall j :: 0 <= j < |cfg| ==> (s.jobs[j].slotSet <==> j < k) && (j < k ==> s.jobs[j].wasDurable)
  {
    k := RunsKeepSlots(cfg, first, steps);
    RunsKeepDurable(cfg, first, steps);
    var s := Run(cfg, first, steps).value;
    forall j | 0 <= j < |cfg| ensures (s.jobs[j].slotSet <==> j < k) && (j < k ==> s.jobs[j].wasDurable) {
      assert SlotJobOk(s.jobs[j], j, k) && JobOk(s, s.jobs[j], cfg[j]);
    }
  }

  /** So a later job of the same caller is durable only after every earlier one. */
  lemma DurableInOrder(cfg: seq<Config>, first: int, steps: seq<(nat, Action)>, i: nat, j: nat)
    requires Chained(cfg, first) && Run(cfg, first, steps).Some? && i < j < |cfg|
    requires var s := Run(cfg, first, steps).value; |s.jobs| == |cfg| && s.jobs[j].wasDurable
    ensures Run(cfg, first, steps).value.jobs[i].wasDurable
  {
    var k := RunsKeepSlots(cfg, first, steps);
    RunsKeepDurable(cfg, first, steps);
    var s := Run(cfg, first, steps).value;
    assert SlotJobOk(s.jobs[j], j, k) && SlotJobOk(s.jobs[i], i, k) && JobOk(s, s.jobs[i], cfg[i]);
  }
}
