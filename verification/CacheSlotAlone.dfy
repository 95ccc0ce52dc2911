/** What each operation of the cache slot does when its thread takes all the steps of it without a break, from
    any state that a run can reach. */
module CacheSlotAlone {
  import opened Common
  import opened StateWord
  import opened Tally
  import opened CacheSlot
  import opened CacheSlotProof

  type Steps = seq<(nat, Action)>

  /** A state of the slot that a run within the limit on pins ends in. */
  ghost predicate Reached(n: nat, steps: Steps, s: State) {
    n < POW30 && Run(Init(n), steps) == Some(s) && AlwaysWithinLimit(Init(n), steps)
  }

  /** At most how many steps are left of the acquire, extend or release that a thread is in. */
  function Left(pc: Pc): nat {
    match pc
    case AcquireClear(_, _, _) => 6
    case AcquireRef(_, _) => 5
    case AcquireTest(_, _) => 4
    case ReleaseAdd => 3
    case ReleaseClear(_) => 2
    case ReleaseRef => 1
    case ExtendClear => 1
    case _ => 0
  }

  lemma AdvanceLeft(s: State, t: nat)
    requires t < |s.threads| && Left(s.threads[t].pc) > 0
    ensures var r := AdvanceThread(s, t);
            && r.Some? && r.value.threads == s.threads[t := r.value.threads[t]]
            && Left(r.value.threads[t].pc) < Left(s.threads[t].pc)
            && PinsOf(r.value.threads[t]) <= PinsOf(s.threads[t])
  {}

  /** Thread `t` runs on until its operation is over. */
  function Finish(s: State, t: nat): (r: State)
    requires t < |s.threads|
    ensures |r.threads| == |s.threads| && Left(r.threads[t].pc) == 0
    decreases Left(s.threads[t].pc)
  {
    if Left(s.threads[t].pc) == 0 then s
    else
      AdvanceLeft(s, t);
      Finish(AdvanceThread(s, t).value, t)
  }

  lemma AloneStep(s: State, t: nat, s': State)
    requires SlotInv(s) && t < |s.threads| && Left(s.threads[t].pc) > 0 && AdvanceThread(s, t) == Some(s')
    ensures SlotInv(s') && Step(s, t, Advance) == Some(s')
  {
    AdvanceLeft(s, t);
    SumUpdate(PinsOf, s.threads, t, s'.threads[t]);
    StepKeepsSlot(s, t, Advance, s');
  }

  lemma Then(n: nat, steps: Steps, s: State, t: nat, a: Action, s': State) returns (more: Steps)
    requires Reached(n, steps, s) && Step(s, t, a) == Some(s') && WithinLimit(s')
    ensures Reached(n, more, s')
  {
    more := steps + [(t, a)];
    assert more[..|more| - 1] == steps && more[|more| - 1] == (t, a);
  }

  /** Running on is a run. */
  lemma {:induction false} FinishIsReached(n: nat, steps: Steps, s: State, t: nat) returns (more: Steps)
    requires Reached(n, steps, s) && t < |s.threads|
    ensures Reached(n, more, Finish(s, t))
    decreases Left(s.threads[t].pc)
  {
    RunsAreSafe(n, steps);
    if Left(s.threads[t].pc) == 0 {
      more := steps;
    } else {
      AdvanceLeft(s, t);
      var s' := AdvanceThread(s, t).value;
      AloneStep(s, t, s');
      more := Then(n, steps, s, t, Advance, s');
      more := FinishIsReached(n, more, s', t);
    }
  }

  // ---------------------------------------------------------------- acquire_pin

  /** Only thread `t` differs, and neither the content nor its validity nor its owner does. */
  predicate SameSlot(s: State, s': State, t: nat) {
    && t < |s.threads| == |s'.threads| && s'.threads == s.threads[t := s'.threads[t]]
    && s'.content == s.content && IsValid(s'.word) == IsValid(s.word) && s'.free == s.free
    && s'.threads[t].weak == s.threads[t].weak
  }

  /** The slot is valid and holds the key. */
  predicate Matches(s: State, key: Key) { IsValid(s.word) && s.content.key == Some(key) }

  /** What `acquire_pin` has done so far, from `s` to `s'`. */
  ghost predicate AcquireSoFar(s: State, s': State, t: nat, key: Key) {
    && SameSlot(s, s', t)
    && var pc, pins, first := s'.threads[t].pc, s.threads[t].pins, AsNat(Outstanding(s) == 0);
       var seen := if IsValid(s.word) then Some(s.content) else None;
       match pc {
         case AcquireClear(k, saw, newly) =>
           && k == key && saw == seen && newly == (first == 1)
           && s'.threads[t].pins == pins && s'.refs == s.refs && Outstanding(s') == Outstanding(s) + 1
         case AcquireRef(k, saw) =>
           && k == key && saw == seen && first == 1
           && s'.threads[t].pins == pins && s'.refs == s.refs && Outstanding(s') == Outstanding(s) + 1
         case AcquireTest(k, saw) =>
           && k == key && saw == seen
           && s'.threads[t].pins == pins && s'.refs == s.refs + first && Outstanding(s') == Outstanding(s) + 1
         case ReleaseAdd =>
           && !Matches(s, key)
           && s'.threads[t].pins == pins && s'.refs == s.refs + first && Outstanding(s') == Outstanding(s) + 1
         case ReleaseClear(newly) =>
           && !Matches(s, key) && newly == (first == 1)
           && s'.threads[t].pins == pins && s'.refs == s.refs + first && Outstanding(s') == Outstanding(s)
         case ReleaseRef =>
           && !Matches(s, key) && first == 1
           && s'.threads[t].pins == pins && s'.refs == s.refs + 1 && Outstanding(s') == Outstanding(s)
         case Idle =>
           if Matches(s, key) then
             && s'.threads[t].pins == pins + [Handle(key, s.content)]
             && s'.refs == s.refs + first && Outstanding(s') == Outstanding(s) + 1
           else s'.threads[t].pins == pins && s'.refs == s.refs && Outstanding(s') == Outstanding(s)
         case _ => false
       }
  }

  lemma AcquireBegins(s: State, t: nat, key: Key, s': State)
    requires SlotInv(s) && SlotInv(s') && t < |s.threads| && s.threads[t].pc == Idle && s' == StartAcquire(s, t, key)
    ensures AcquireSoFar(s, s', t, key)
  {
    SumUpdate(PinsOf, s.threads, t, s'.threads[t]);
    CarryIsFree(s);
    ValidityUnchanged(s.word);
    PinnedWithinLimit(s);
  }

  /** Running on never changes whether the slot is valid. */
  lemma ValidStays(s: State, t: nat, s': State)
    requires SlotInv(s) && t < |s.threads| && Left(s.threads[t].pc) > 0 && AdvanceThread(s, t) == Some(s')
    ensures IsValid(s'.word) == IsValid(s.word)
  {
    CarryIsFree(s);
    ValidityUnchanged(s.word);
    ClearEffects(s.word);
    assert Decode(ClearAcquireOverflow(s.word)).valid == Decode(s.word).valid;
    assert Decode(ClearReleaseOverflow(s.word)).valid == Decode(s.word).valid;
  }

  lemma SameAgain(s: State, m: State, t: nat, s': State)
    requires SameSlot(s, m, t) && Left(m.threads[t].pc) > 0 && AdvanceThread(m, t) == Some(s')
    requires IsValid(s'.word) == IsValid(m.word) && s'.threads == m.threads[t := s'.threads[t]]
    ensures SameSlot(s, s', t)
  {}

  lemma AcquireGoesOn(s: State, m: State, t: nat, key: Key, s': State)
    requires SlotInv(m) && SlotInv(s') && AcquireSoFar(s, m, t, key)
    requires Left(m.threads[t].pc) > 0 && AdvanceThread(m, t) == Some(s')
    ensures AcquireSoFar(s, s', t, key)
  {
    assert SameSlot(s, s', t) by {
      ValidStays(m, t, s');
      AdvanceLeft(m, t);
      SameAgain(s, m, t, s');
    }
    SumUpdate(PinsOf, m.threads, t, s'.threads[t]);
    var pc := m.threads[t].pc;
    if pc.ReleaseAdd? || pc.ReleaseClear? || pc.ReleaseRef? {
      GivesBack(s, m, t, key, s');
    } else {
      Takes(s, m, t, key, s');
    }
  }

  /** The first half of an acquire. */
  lemma Takes(s: State, m: State, t: nat, key: Key, s': State)
    requires AcquireSoFar(s, m, t, key) && AdvanceThread(m, t) == Some(s')
    requires SameSlot(s, s', t) && Outstanding(s') + PinsOf(m.threads[t]) == Outstanding(m) + PinsOf(s'.threads[t])
    requires var pc := m.threads[t].pc; pc.AcquireClear? || pc.AcquireRef? || pc.AcquireTest?
    ensures AcquireSoFar(s, s', t, key)
  {}

  /** The second half of an acquire that fails. */
  lemma GivesBack(s: State, m: State, t: nat, key: Key, s': State)
    requires SlotInv(m) && SlotInv(s') && AcquireSoFar(s, m, t, key) && AdvanceThread(m, t) == Some(s')
    requires SameSlot(s, s', t) && Outstanding(s') + PinsOf(m.threads[t]) == Outstanding(m) + PinsOf(s'.threads[t])
    requires var pc := m.threads[t].pc; pc.ReleaseAdd? || pc.ReleaseClear? || pc.ReleaseRef?
    ensures AcquireSoFar(s, s', t, key)
  {
    if m.threads[t].pc.ReleaseAdd? { PinnedWithinLimit(s'); }
    if m.threads[t].pc.ReleaseRef? { RefsPositive(m, t); }
  }

  lemma {:induction false} AcquireEnds(s: State, m: State, t: nat, key: Key)
    requires SlotInv(m) && AcquireSoFar(s, m, t, key)
    ensures SlotInv(Finish(m, t)) && AcquireSoFar(s, Finish(m, t), t, key)
    decreases Left(m.threads[t].pc)
  {
    if Left(m.threads[t].pc) > 0 {
      AdvanceLeft(m, t);
      var s' := AdvanceThread(m, t).value;
      AloneStep(m, t, s');
      AcquireGoesOn(s, m, t, key, s');
      AcquireEnds(s, s', t, key);
    }
  }

  /** `acquire_pin` by itself. If the slot is valid and holds the key, the thread has exactly one more handle, for
      that key and the slot's content, and the count of references is one more if it is the first pin. Otherwise
      handles, outstanding pins and references are as before. */
  lemma AcquireAlone(n: nat, steps: Steps, s: State, t: nat, key: Key) returns (more: Steps, s': State)
    requires Reached(n, steps, s) && t < |s.threads| && s.threads[t].pc == Idle && Outstanding(s) + 1 < POW30
    ensures s' == Finish(StartAcquire(s, t, key), t) && Reached(n, more, s') && SameSlot(s, s', t)
    ensures s'.threads[t].pc == Idle
    ensures s'.threads[t].pins ==
            s.threads[t].pins + if Matches(s, key) then [Handle(key, s.content)] else []
    ensures Outstanding(s') == Outstanding(s) + AsNat(Matches(s, key))
    ensures s'.refs == s.refs + AsNat(Matches(s, key) && Outstanding(s) == 0)
  {
    RunsAreSafe(n, steps);
    var s1 := StartAcquire(s, t, key);
    SumUpdate(PinsOf, s.threads, t, s1.threads[t]);
    more := Then(n, steps, s, t, Acquire(key), s1);
    RunsAreSafe(n, more);
    AcquireBegins(s, t, key, s1);
    AcquireEnds(s, s1, t, key);
    more := FinishIsReached(n, more, s1, t);
    s' := Finish(s1, t);
  }

  // ---------------------------------------------------------------- extend_pin and release_pin

  /** What `extend_pin` has done so far. */
  ghost predicate ExtendSoFar(s: State, s': State, t: nat, pins: seq<Handle>) {
    && SameSlot(s, s', t) && s'.threads[t].pins == pins && Outstanding(s') == Outstanding(s) + 1 && s'.refs == s.refs
    && (s'.threads[t].pc.ExtendClear? || s'.threads[t].pc.Idle?)
  }

  lemma ExtendEnds(s: State, m: State, t: nat, pins: seq<Handle>)
    requires SlotInv(m) && ExtendSoFar(s, m, t, pins)
    ensures ExtendSoFar(s, Finish(m, t), t, pins)
  {
    if m.threads[t].pc.ExtendClear? {
      var s' := AdvanceThread(m, t).value;
      ValidStays(m, t, s');
      SumUpdate(PinsOf, m.threads, t, s'.threads[t]);
      assert Finish(m, t) == s';
    }
  }

  /** `extend_pin` by itself: one more handle like the one that is copied. */
  lemma ExtendAlone(n: nat, steps: Steps, s: State, t: nat, h: nat) returns (more: Steps, s': State)
    requires Reached(n, steps, s) && t < |s.threads| && s.threads[t].pc == Idle && h < |s.threads[t].pins|
    requires Outstanding(s) + 1 < POW30
    ensures s' == Finish(StartExtend(s, t, h), t) && Reached(n, more, s') && SameSlot(s, s', t)
    ensures s'.threads[t].pc == Idle && s'.threads[t].pins == s.threads[t].pins + [s.threads[t].pins[h]]
    ensures Outstanding(s') == Outstanding(s) + 1 && s'.refs == s.refs
  {
    RunsAreSafe(n, steps);
    var s1 := StartExtend(s, t, h);
    SumUpdate(PinsOf, s.threads, t, s1.threads[t]);
    more := Then(n, steps, s, t, Extend(h), s1);
    RunsAreSafe(n, more);
    CarryIsFree(s);
    ValidityUnchanged(s.word);
    ExtendEnds(s, s1, t, s.threads[t].pins + [s.threads[t].pins[h]]);
    more := FinishIsReached(n, more, s1, t);
    s' := Finish(s1, t);
  }

  /** What `release_pin` has done so far. */
  ghost predicate ReleaseSoFar(s: State, s': State, t: nat, pins: seq<Handle>) {
    && SameSlot(s, s', t) && s'.threads[t].pins == pins && Outstanding(s') + 1 == Outstanding(s)
    && match s'.threads[t].pc {
         case ReleaseClear(newly) => newly == (Outstanding(s) == 1) && s'.refs == s.refs
         case ReleaseRef => Outstanding(s) == 1 && s'.refs == s.refs
         case Idle => s'.refs + AsNat(Outstanding(s) == 1) == s.refs
         case _ => false
       }
  }

  lemma {:induction false} ReleaseEnds(s: State, m: State, t: nat, pins: seq<Handle>)
    requires SlotInv(m) && ReleaseSoFar(s, m, t, pins)
    ensures ReleaseSoFar(s, Finish(m, t), t, pins)
    decreases Left(m.threads[t].pc)
  {
    if Left(m.threads[t].pc) > 0 {
      AdvanceLeft(m, t);
      var s' := AdvanceThread(m, t).value;
      AloneStep(m, t, s');
      ValidStays(m, t, s');
      SumUpdate(PinsOf, m.threads, t, s'.threads[t]);
      if m.threads[t].pc.ReleaseRef? { RefsPositive(m, t); }
      ReleaseEnds(s, s', t, pins);
    }
  }

  /** `release_pin` by itself: the handle is gone, and with the last pin its reference. */
  lemma ReleaseAlone(n: nat, steps: Steps, s: State, t: nat, h: nat) returns (more: Steps, s': State)
    requires Reached(n, steps, s) && t < |s.threads| && s.threads[t].pc == Idle && h < |s.threads[t].pins|
    ensures s' == Finish(ReleaseOne(s, t, Without(s.threads[t].pins, h)), t)
    ensures Reached(n, more, s') && SameSlot(s, s', t)
    ensures s'.threads[t].pc == Idle && s'.threads[t].pins == Without(s.threads[t].pins, h)
    ensures Outstanding(s') + 1 == Outstanding(s) && s'.refs + AsNat(Outstanding(s) == 1) == s.refs
  {
    RunsAreSafe(n, steps);
    var pins := Without(s.threads[t].pins, h);
    var s1 := ReleaseOne(s, t, pins);
    SumUpdate(PinsOf, s.threads, t, s1.threads[t]);
    more := Then(n, steps, s, t, Release(h), s1);
    RunsAreSafe(n, more);
    CarryIsFree(s);
    ValidityUnchanged(s.word);
    PinnedWithinLimit(s1);
    ReleaseEnds(s, s1, t, pins);
    more := FinishIsReached(n, more, s1, t);
    s' := Finish(s1, t);
  }

  // ---------------------------------------------------------------- references, handles, the free pool

  /** `add_ref` and `remove_ref` by themselves: whoever holds a handle may add a reference, and whoever has one may
      remove it. */
  lemma RefsAlone(n: nat, steps: Steps, s: State, t: nat)
    requires Reached(n, steps, s) && t < |s.threads| && s.threads[t].pc == Idle
    ensures s.threads[t].pins != [] || s.threads[t].weak > 0 ==>
              Step(s, t, AddRef) == Some(With(s.(refs := s.refs + 1), t, s.threads[t].(weak := s.threads[t].weak + 1)))
    ensures s.threads[t].weak > 0 ==>
              && s.refs > 0
              && Step(s, t, RemoveRef) ==
                 Some(With(s.(refs := s.refs - 1), t, s.threads[t].(weak := s.threads[t].weak - 1)))
  {
    assert !s.panicked && (s.threads[t].weak > 0 ==> s.refs > 0) by {
      RunsAreSafe(n, steps);
      if s.threads[t].weak > 0 { RefsPositive(s, t); }
    }
  }

  /** A handle can be handed to any other thread: it has it, and the thread that had it has not. */
  lemma MoveAlone(n: nat, steps: Steps, s: State, t: nat, h: nat, u: nat) returns (more: Steps, s': State)
    requires Reached(n, steps, s) && t < |s.threads| && u < |s.threads| && t != u && s.threads[t].pc == Idle
    requires h < |s.threads[t].pins|
    ensures Reached(n, more, s') && Outstanding(s') == Outstanding(s) && s'.word == s.word && s'.content == s.content
    ensures s'.refs == s.refs
    ensures |s'.threads| == |s.threads| && s'.threads[t].pins == Without(s.threads[t].pins, h)
    ensures s'.threads[u].pins == s.threads[u].pins + [s.threads[t].pins[h]]
  {
    RunsAreSafe(n, steps);
    MoveTallies(s, t, h, u);
    s' := BeginOp(s, t, MovePin(h, u)).value;
    more := Then(n, steps, s, t, MovePin(h, u), s');
  }

  /** Whoever asks first gets a slot in the free pool, to write it. */
  lemma TakeAlone(n: nat, steps: Steps, s: State, t: nat) returns (more: Steps, s': State)
    requires Reached(n, steps, s) && t < |s.threads| && s.threads[t].pc == Idle && s.free
    ensures Reached(n, more, s') && s' == At(s.(free := false), t, Owner) && !IsValid(s'.word)
  {
    RunsAreSafe(n, steps);
    s' := At(s.(free := false), t, Owner);
    SumUpdate(PinsOf, s.threads, t, s'.threads[t]);
    more := Then(n, steps, s, t, TakeFree, s');
  }

  // ---------------------------------------------------------------- evict

  /** `s` with thread `t` at `pc`. */
  function At(s: State, t: nat, pc: Pc): State
    requires t < |s.threads|
  {
    With(s, t, s.threads[t].(pc := pc))
  }

  /** `s` with the slot evicted by thread `t`. */
  function Evicted(s: State, t: nat): State
    requires t < |s.threads|
  {
    At(s.(word := ClearValid(s.word), evictions := s.evictions + 1), t, Owner)
  }

  lemma EvictSteps(s: State, t: nat)
    requires t < |s.threads| && s.threads[t].pc == Idle && !s.panicked && !IsPinned(s.word) && IsValid(s.word)
    ensures Step(s, t, Evict) == Some(At(s, t, EvictTest(s.word)))
    ensures Step(At(s, t, EvictTest(s.word)), t, Advance) == Some(At(s, t, EvictCas(s.word)))
    ensures Step(At(s, t, EvictCas(s.word)), t, Advance) == Some(Evicted(s, t))
  {
    var s1, s2 := At(s, t, EvictTest(s.word)), At(s, t, EvictCas(s.word));
    assert s1.threads[t := s2.threads[t]] == s2.threads;
    assert s2.threads[t := Evicted(s, t).threads[t]] == Evicted(s, t).threads;
  }

  lemma EvictedIsInvalid(s: State, t: nat)
    requires t < |s.threads| && s.threads[t].pc == Idle
    ensures !IsValid(Evicted(s, t).word) && Outstanding(Evicted(s, t)) == Outstanding(s)
  {
    ValidEffects(s.word);
    assert !Decode(ClearValid(s.word)).valid;
    SumUpdate(PinsOf, s.threads, t, s.threads[t].(pc := Owner));
  }

  lemma AtKeepsPins(s: State, t: nat, pc: Pc)
    requires t < |s.threads| && s.threads[t].pc == Idle && Holds(pc) == 0
    ensures Outstanding(At(s, t, pc)) == Outstanding(s)
  {
    SumUpdate(PinsOf, s.threads, t, s.threads[t].(pc := pc));
  }

  /** `evict` by itself: a valid slot without pins becomes invalid and the thread's to write; any other slot is
      left as it is. */
  lemma EvictAlone(n: nat, steps: Steps, s: State, t: nat) returns (more: Steps, s': State)
    requires Reached(n, steps, s) && t < |s.threads| && s.threads[t].pc == Idle
    ensures Reached(n, more, s')
    ensures if IsValid(s.word) && Outstanding(s) == 0
            then s' == Evicted(s, t) && s'.threads[t].pc == Owner && !IsValid(s'.word) && s'.content == s.content
            else s' == s
  {
    RunsAreSafe(n, steps);
    PinnedWithinLimit(s);
    AtKeepsPins(s, t, EvictTest(s.word));
    var s1 := At(s, t, EvictTest(s.word));
    more := Then(n, steps, s, t, Evict, s1);
    if IsValid(s.word) && Outstanding(s) == 0 {
      EvictSteps(s, t);
      AtKeepsPins(s, t, EvictCas(s.word));
      EvictedIsInvalid(s, t);
      more := Then(n, more, s1, t, Advance, At(s, t, EvictCas(s.word)));
      more := Then(n, more, At(s, t, EvictCas(s.word)), t, Advance, Evicted(s, t));
      s' := Evicted(s, t);
    } else {
      assert s1.threads[t := s.threads[t]] == s.threads;
      more := Then(n, more, s1, t, Advance, s);
      s' := s;
    }
  }

  // ---------------------------------------------------------------- fill and clear

  /** `fill` or `clear` by itself, by the thread that may write the slot: the slot is valid with the new content,
      and the thread may write it no more. */
  lemma WriteAlone(n: nat, steps: Steps, s: State, t: nat, a: Action) returns (more: Steps, s': State)
    requires Reached(n, steps, s) && t < |s.threads| && s.threads[t].pc == Owner && (a.Fill? || a == Clear)
    ensures Reached(n, more, s') && IsValid(s'.word) && s'.threads == s.threads[t := s.threads[t].(pc := Idle)]
    ensures s'.content == if a.Fill? then Content(Some(a.key), Some(a.value)) else Content(None, None)
    ensures s'.refs == s.refs && Outstanding(s') == Outstanding(s)
  {
    RunsAreSafe(n, steps);
    OwnerMeansInvalid(s, t);
    var content := if a.Fill? then Content(Some(a.key), Some(a.value)) else Content(None, None);
    var s1 := WriteContent(s, t, content);
    SumUpdate(PinsOf, s.threads, t, s1.threads[t]);
    more := Then(n, steps, s, t, a, s1);
    s' := PublishContent(s1, t);
    PublishStep(s1, t, s');
    more := Then(n, more, s1, t, Advance, s');
  }

  lemma PublishStep(s: State, t: nat, s': State)
    requires t < |s.threads| && s.threads[t].pc == Publish && !s.panicked && s' == PublishContent(s, t)
    ensures Step(s, t, Advance) == Some(s') && IsValid(s'.word) && Outstanding(s') == Outstanding(s)
  {
    SumUpdate(PinsOf, s.threads, t, s'.threads[t]);
    ValidEffects(s.word);
    assert Decode(s'.word).valid;
  }

  /** The slot is cleared and nobody holds a handle. */
  predicate Cleared(s: State) {
    s.content == Content(None, None) && forall i :: 0 <= i < |s.threads| ==> s.threads[i].pins == []
  }

  lemma StepStaysCleared(s: State, t: nat, a: Action, s': State)
    requires Cleared(s) && Step(s, t, a) == Some(s') && !a.Fill?
    ensures Cleared(s')
  {
    if s.threads[t].pc == Idle {
      assert s'.threads == s.threads[t := s'.threads[t]] && s'.threads[t].pins == [];
    } else if a == Advance {
      AdvanceStaysCleared(s, t, s');
    }
  }

  lemma AdvanceStaysCleared(s: State, t: nat, s': State)
    requires Cleared(s) && t < |s.threads| && AdvanceThread(s, t) == Some(s')
    ensures Cleared(s')
  {
    assert s'.threads == s.threads[t := s'.threads[t]] && s'.threads[t].pins == [];
  }

  lemma {:induction false} RunStaysCleared(s: State, rest: Steps)
    requires Cleared(s) && Run(s, rest).Some? && forall i :: 0 <= i < |rest| ==> !rest[i].1.Fill?
    ensures Cleared(Run(s, rest).value)
  {
    if |rest| > 0 {
      var before := rest[..|rest| - 1];
      RunStaysCleared(s, before);
      StepStaysCleared(Run(s, before).value, rest[|rest| - 1].0, rest[|rest| - 1].1, Run(s, rest).value);
    }
  }

  /** After `clear` nobody gets a pin, whatever key is asked for, until the slot is filled again. */
  lemma NoPinsAfterClear(n: nat, steps: Steps, s: State, t: nat, rest: Steps)
    requires Reached(n, steps, s) && t < |s.threads| && s.threads[t].pc == Owner
    requires Run(WriteContent(s, t, Content(None, None)), rest).Some?
    requires forall i :: 0 <= i < |rest| ==> !rest[i].1.Fill?
    ensures Step(s, t, Clear) == Some(WriteContent(s, t, Content(None, None)))
    ensures Cleared(Run(WriteContent(s, t, Content(None, None)), rest).value)
  {
    RunsAreSafe(n, steps);
    OwnerMeansInvalid(s, t);
    var s1 := WriteContent(s, t, Content(None, None));
    forall i | 0 <= i < |s1.threads| ensures s1.threads[i].pins == [] {
      assert ThreadSafe(s, s.threads[i]);
    }
    RunStaysCleared(s1, rest);
  }
}
