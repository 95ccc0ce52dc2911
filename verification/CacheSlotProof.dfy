/** What every run of the cache slot keeps. */
module CacheSlotProof {
  import opened Common
  import opened StateWord
  import opened Tally
  import opened CacheSlot

  // ---------------------------------------------------------------- the packed word against unbounded counters

  /** The fields are the totals modulo 2^30, and a carry bit that is still set is covered by threads
      that have yet to clear it: one for each increment made since the wrap. */
  ghost predicate WordInv(s: State) {
    && |s.threads| < POW30
    && !Spare(s.word)
    && AcquireCount(s.word) == s.acquires % POW30
    && ReleaseCount(s.word) == s.releases % POW30
    && s.acquires == s.releases + Outstanding(s)
    && (AcquireOverflow(s.word) ==> AcquireCount(s.word) < Sum(ClearsAcquire, s.threads))
    && (ReleaseOverflow(s.word) ==> ReleaseCount(s.word) < Sum(ClearsRelease, s.threads))
  }

  lemma Tallies(threads: seq<Thread>, t: nat, th: Thread)
    requires t < |threads|
    ensures Sum(PinsOf, threads[t := th]) == Sum(PinsOf, threads) + PinsOf(th) - PinsOf(threads[t])
    ensures Sum(WeakOf, threads[t := th]) == Sum(WeakOf, threads) + WeakOf(th) - WeakOf(threads[t])
    ensures Sum(ClearsAcquire, threads[t := th])
            == Sum(ClearsAcquire, threads) + ClearsAcquire(th) - ClearsAcquire(threads[t])
    ensures Sum(ClearsRelease, threads[t := th])
            == Sum(ClearsRelease, threads) + ClearsRelease(th) - ClearsRelease(threads[t])
    ensures Sum(OwesAdd, threads[t := th]) == Sum(OwesAdd, threads) + OwesAdd(th) - OwesAdd(threads[t])
    ensures Sum(OwesRemove, threads[t := th])
            == Sum(OwesRemove, threads) + OwesRemove(th) - OwesRemove(threads[t])
    ensures Sum(Owns, threads[t := th]) == Sum(Owns, threads) + Owns(th) - Owns(threads[t])
  {
    SumUpdate(PinsOf, threads, t, th);
    SumUpdate(WeakOf, threads, t, th);
    SumUpdate(ClearsAcquire, threads, t, th);
    SumUpdate(ClearsRelease, threads, t, th);
    SumUpdate(OwesAdd, threads, t, th);
    SumUpdate(OwesRemove, threads, t, th);
    SumUpdate(Owns, threads, t, th);
  }

  lemma NoThreads(n: nat)
    ensures var threads := Init(n).threads;
            Sum(PinsOf, threads) == 0 && Sum(WeakOf, threads) == 0 && Sum(OwesAdd, threads) == 0 &&
            Sum(OwesRemove, threads) == 0 && Sum(Owns, threads) == 0
  {
    var threads := Init(n).threads;
    SumZero(PinsOf, threads);
    SumZero(WeakOf, threads);
    SumZero(OwesAdd, threads);
    SumZero(OwesRemove, threads);
    SumZero(Owns, threads);
  }

  /** A carry bit can never be met again by the next wrap: that would take 2^30 pending clears. */
  lemma CarryIsFree(s: State)
    requires WordInv(s)
    ensures !(AcquireOverflow(s.word) && AcquireCount(s.word) == POW30 - 1)
    ensures !(ReleaseOverflow(s.word) && ReleaseCount(s.word) == POW30 - 1)
  {
    SumAtMostLength(ClearsAcquire, s.threads);
    SumAtMostLength(ClearsRelease, s.threads);
  }

  lemma ModSucc(n: nat)
    ensures (n + 1) % POW30 == if n % POW30 == POW30 - 1 then 0 else n % POW30 + 1
  {}

  lemma AcquireKeepsWord(s: State, t: nat, s': State, th: Thread)
    requires WordInv(s) && t < |s.threads|
    requires s'.word == FetchAdd(s.word, 1) && s'.acquires == s.acquires + 1 && s'.releases == s.releases
    requires s'.threads == s.threads[t := th]
    requires PinsOf(th) == PinsOf(s.threads[t]) + 1
    requires ClearsAcquire(s.threads[t]) == 0 && ClearsRelease(s.threads[t]) == ClearsRelease(th)
    requires AcquireOverflow(s'.word) ==> ClearsAcquire(th) == 1
    ensures WordInv(s')
  {
    CarryIsFree(s);
    AcquireEffect(s.word);
    assert Decode(s'.word) == AfterAcquire(Decode(s.word));
    ModSucc(s.acquires);
    Tallies(s.threads, t, th);
  }

  lemma ReleaseKeepsWord(s: State, t: nat, s': State, th: Thread)
    requires WordInv(s) && t < |s.threads|
    requires s'.word == FetchAdd(s.word, POW31) && s'.releases == s.releases + 1 && s'.acquires == s.acquires
    requires s'.threads == s.threads[t := th]
    requires PinsOf(th) + 1 == PinsOf(s.threads[t])
    requires ClearsRelease(s.threads[t]) == 0 && ClearsAcquire(s.threads[t]) == ClearsAcquire(th)
    requires ReleaseOverflow(s'.word) ==> ClearsRelease(th) == 1
    ensures WordInv(s')
  {
    CarryIsFree(s);
    ReleaseEffect(s.word);
    assert Decode(s'.word) == AfterRelease(Decode(s.word));
    ModSucc(s.releases);
    Tallies(s.threads, t, th);
  }

  /** Steps that add no pin: clearing a carry bit, publishing, evicting, and purely local moves. */
  lemma QuietKeepsWord(s: State, t: nat, s': State, th: Thread)
    requires WordInv(s) && t < |s.threads|
    requires s'.acquires == s.acquires && s'.releases == s.releases && s'.threads == s.threads[t := th]
    requires var f, f' := Decode(s.word), Decode(s'.word);
             f'.acquires == f.acquires && f'.releases == f.releases && f'.spare == f.spare
             && (f'.acquireOverflow ==> f.acquireOverflow && ClearsAcquire(th) == ClearsAcquire(s.threads[t]))
             && (f'.releaseOverflow ==> f.releaseOverflow && ClearsRelease(th) == ClearsRelease(s.threads[t]))
    requires PinsOf(th) == PinsOf(s.threads[t])
    ensures WordInv(s')
  {
    Tallies(s.threads, t, th);
  }

  lemma ClearAcquireKeepsWord(s: State, t: nat, s': State)
    requires WordInv(s) && t < |s.threads| && AdvanceThread(s, t) == Some(s')
    requires s.threads[t].pc.AcquireClear? || s.threads[t].pc.ExtendClear?
    ensures WordInv(s')
  {
    ClearEffects(s.word);
    assert Decode(s'.word) == Decode(s.word).(acquireOverflow := false);
    QuietKeepsWord(s, t, s', s'.threads[t]);
  }

  lemma ClearReleaseKeepsWord(s: State, t: nat, s': State)
    requires WordInv(s) && t < |s.threads| && AdvanceThread(s, t) == Some(s')
    requires s.threads[t].pc.ReleaseClear?
    ensures WordInv(s')
  {
    ClearEffects(s.word);
    assert Decode(s'.word) == Decode(s.word).(releaseOverflow := false);
    QuietKeepsWord(s, t, s', s'.threads[t]);
  }

  lemma PublishKeepsWord(s: State, t: nat, s': State)
    requires WordInv(s) && t < |s.threads| && AdvanceThread(s, t) == Some(s') && s.threads[t].pc.Publish?
    ensures WordInv(s')
  {
    ValidEffects(s.word);
    assert Decode(s'.word) == Decode(s.word).(valid := true);
    QuietKeepsWord(s, t, s', s'.threads[t]);
  }

  lemma CasKeepsWord(s: State, t: nat, s': State)
    requires WordInv(s) && t < |s.threads| && AdvanceThread(s, t) == Some(s') && s.threads[t].pc.EvictCas?
    ensures WordInv(s')
  {
    if s.word == s.threads[t].pc.observed {
      ValidEffects(s.word);
      assert Decode(s'.word) == Decode(s.word).(valid := false);
    }
    QuietKeepsWord(s, t, s', s'.threads[t]);
  }

  lemma AdvanceKeepsWord(s: State, t: nat, s': State)
    requires WordInv(s) && t < |s.threads| && AdvanceThread(s, t) == Some(s')
    ensures WordInv(s')
  {
    var pc := s.threads[t].pc;
    if pc.ReleaseAdd? {
      ReleaseKeepsWord(s, t, s', s'.threads[t]);
    } else if pc.AcquireClear? || pc.ExtendClear? {
      ClearAcquireKeepsWord(s, t, s');
    } else if pc.ReleaseClear? {
      ClearReleaseKeepsWord(s, t, s');
    } else if pc.EvictCas? {
      CasKeepsWord(s, t, s');
    } else if pc.Publish? {
      PublishKeepsWord(s, t, s');
    } else {
      QuietKeepsWord(s, t, s', s'.threads[t]);
    }
  }

  lemma MoveTallies(s: State, t: nat, h: nat, u: nat)
    requires t < |s.threads| && u < |s.threads| && t != u && h < |s.threads[t].pins|
    ensures var th, uh := s.threads[t].(pins := Without(s.threads[t].pins, h)),
                          s.threads[u].(pins := s.threads[u].pins + [s.threads[t].pins[h]]);
            var after := s.threads[t := th][u := uh];
            Sum(PinsOf, after) == Sum(PinsOf, s.threads) && Sum(WeakOf, after) == Sum(WeakOf, s.threads)
            && Sum(ClearsAcquire, after) == Sum(ClearsAcquire, s.threads)
            && Sum(ClearsRelease, after) == Sum(ClearsRelease, s.threads)
            && Sum(OwesAdd, after) == Sum(OwesAdd, s.threads) && Sum(OwesRemove, after) == Sum(OwesRemove, s.threads)
            && Sum(Owns, after) == Sum(Owns, s.threads)
  {
    var th, uh := s.threads[t].(pins := Without(s.threads[t].pins, h)),
                  s.threads[u].(pins := s.threads[u].pins + [s.threads[t].pins[h]]);
    Tallies(s.threads, t, th);
    Tallies(s.threads[t := th], u, uh);
  }

  lemma BeginKeepsWord(s: State, t: nat, a: Action, s': State)
    requires WordInv(s) && t < |s.threads| && s.threads[t].pc == Idle && BeginOp(s, t, a) == Some(s')
    ensures WordInv(s')
  {
    if a.Acquire? || a.Extend? {
      AcquireKeepsWord(s, t, s', s'.threads[t]);
    } else if a.Release? {
      ReleaseKeepsWord(s, t, s', s'.threads[t]);
    } else if a.MovePin? {
      MoveTallies(s, t, a.handle, a.to);
    } else {
      QuietKeepsWord(s, t, s', s'.threads[t]);
    }
  }

  lemma StepKeepsWord(s: State, t: nat, a: Action, s': State)
    requires WordInv(s) && Step(s, t, a) == Some(s')
    ensures WordInv(s')
  {
    if s.threads[t].pc == Idle {
      BeginKeepsWord(s, t, a, s');
    } else if a == Advance {
      AdvanceKeepsWord(s, t, s');
    } else {
      QuietKeepsWord(s, t, s', s'.threads[t]);
    }
  }

  /** Every run of fewer than 2^30 threads, with any number of pins: the packed word is two unbounded
      counters seen modulo 2^30. */
  lemma {:induction false} WordRefinesCounters(n: nat, steps: seq<(nat, Action)>)
    requires n < POW30 && Run(Init(n), steps).Some?
    ensures WordInv(Run(Init(n), steps).value)
  {
    if |steps| == 0 {
      NoThreads(n);
    } else {
      WordRefinesCounters(n, steps[..|steps| - 1]);
      var (t, a) := steps[|steps| - 1];
      StepKeepsWord(Run(Init(n), steps[..|steps| - 1]).value, t, a, Run(Init(n), steps).value);
    }
  }

  /** `is_pinned` is exact up to whole multiples of 2^30 outstanding pins. */
  lemma PinnedIff(s: State)
    requires WordInv(s)
    ensures IsPinned(s.word) <==> Outstanding(s) % POW30 != 0
  {}

  // ---------------------------------------------------------------- safety of the slot within the limit

  function Seen(pc: Pc): Option<Content> {
    if pc.AcquireClear? || pc.AcquireRef? || pc.AcquireTest? then pc.seen else None
  }

  /** Whoever has observed the valid bit, and every handle since created, still faces the content it saw. */
  ghost predicate ThreadSafe(s: State, th: Thread) {
    && (forall h :: h in th.pins ==> h.content == s.content && s.content.key == Some(h.asked))
    && (th.pins != [] ==> IsValid(s.word))
    && (Seen(th.pc).Some? ==> IsValid(s.word) && Seen(th.pc).value == s.content)
    && (th.pc.EvictCas? ==> !IsPinned(th.pc.observed) && IsValid(th.pc.observed))
  }

  ghost predicate ContentInv(s: State) {
    forall i :: 0 <= i < |s.threads| ==> ThreadSafe(s, s.threads[i])
  }

  /** The right to write the slot is held once: by validity, by the free pool or by one thread. */
  ghost predicate OwnerInv(s: State) {
    && AsNat(IsValid(s.word)) + AsNat(s.free) + Sum(Owns, s.threads) == 1
    && s.fills == s.evictions + AsNat(IsValid(s.word))
  }

  /** The reference count is the weak handles plus one for a pinned slot, up to the add_ref and
      remove_ref calls that have been decided on and not yet made. */
  ghost predicate RefInv(s: State) {
    && Sum(OwesAdd, s.threads) <= 1
    && s.refs + Sum(OwesAdd, s.threads)
       == Sum(WeakOf, s.threads) + Sum(OwesRemove, s.threads) + AsNat(Outstanding(s) > 0)
  }

  ghost predicate SlotInv(s: State) {
    WordInv(s) && WithinLimit(s) && ContentInv(s) && OwnerInv(s) && RefInv(s) && !s.panicked
  }

  lemma PinnedWithinLimit(s: State)
    requires WordInv(s) && WithinLimit(s)
    ensures IsPinned(s.word) <==> Outstanding(s) > 0
  {}

  lemma OwesAddHoldsPin(s: State)
    ensures Sum(OwesAdd, s.threads) <= Outstanding(s)
  {
    SumMonotone(OwesAdd, PinsOf, s.threads);
  }

  lemma ValidityUnchanged(w: Word)
    requires !Spare(w)
    ensures !(AcquireOverflow(w) && AcquireCount(w) == POW30 - 1) ==> IsValid(FetchAdd(w, 1)) == IsValid(w)
    ensures !(ReleaseOverflow(w) && ReleaseCount(w) == POW30 - 1) ==> IsValid(FetchAdd(w, POW31)) == IsValid(w)
  {}

  /** Content and ownership when one thread changes and validity and content do not. */
  lemma StillSafe(s: State, t: nat, s': State, th: Thread)
    requires SlotInv(s) && t < |s.threads| && s'.threads == s.threads[t := th]
    requires s'.content == s.content && IsValid(s'.word) == IsValid(s.word)
    requires s'.free == s.free && s'.fills == s.fills && s'.evictions == s.evictions
    requires ThreadSafe(s, th) && Owns(th) == Owns(s.threads[t])
    ensures ContentInv(s') && OwnerInv(s')
  {
    Tallies(s.threads, t, th);
    forall i | 0 <= i < |s'.threads| ensures ThreadSafe(s', s'.threads[i]) {
      assert ThreadSafe(s, s.threads[i]);
    }
  }

  lemma AcquireKeepsSlot(s: State, t: nat, key: Key, s': State)
    requires SlotInv(s) && t < |s.threads| && s.threads[t].pc == Idle && WordInv(s') && WithinLimit(s')
    requires s' == StartAcquire(s, t, key)
    ensures SlotInv(s')
  {
    var th := s'.threads[t];
    assert IsValid(s'.word) == IsValid(s.word) by {
      CarryIsFree(s);
      ValidityUnchanged(s.word);
    }
    assert ThreadSafe(s, th) by { assert ThreadSafe(s, s.threads[t]); }
    StillSafe(s, t, s', th);
    PinnedWithinLimit(s);
    PinnedWithinLimit(s');
    Tallies(s.threads, t, th);
    OwesAddHoldsPin(s);
  }

  lemma ExtendKeepsSlot(s: State, t: nat, h: nat, s': State)
    requires SlotInv(s) && t < |s.threads| && s.threads[t].pc == Idle && WordInv(s') && WithinLimit(s')
    requires h < |s.threads[t].pins| && s' == StartExtend(s, t, h)
    ensures SlotInv(s')
  {
    var th := s'.threads[t];
    assert IsValid(s'.word) == IsValid(s.word) by {
      CarryIsFree(s);
      ValidityUnchanged(s.word);
    }
    assert IsPinned(s.word) by {
      SumAtLeast(PinsOf, s.threads, t);
      PinnedWithinLimit(s);
    }
    assert ThreadSafe(s, th) by {
      assert ThreadSafe(s, s.threads[t]);
      assert s.threads[t].pins[h] in s.threads[t].pins;
    }
    Tallies(s.threads, t, th);
    SumAtLeast(PinsOf, s.threads, t);
    StillSafe(s, t, s', th);
  }

  lemma ReleaseKeepsSlot(s: State, t: nat, s': State, pins: seq<Handle>)
    requires SlotInv(s) && t < |s.threads| && WordInv(s') && WithinLimit(s')
    requires s' == ReleaseOne(s, t, pins) && (forall c :: c in pins ==> c in s.threads[t].pins)
    requires (s.threads[t].pc == Idle && |pins| + 1 == |s.threads[t].pins|)
             || (s.threads[t].pc == ReleaseAdd && |pins| == |s.threads[t].pins|)
    ensures SlotInv(s')
  {
    var th := s'.threads[t];
    assert IsValid(s'.word) == IsValid(s.word) by {
      CarryIsFree(s);
      ValidityUnchanged(s.word);
    }
    assert ThreadSafe(s, th) by { assert ThreadSafe(s, s.threads[t]); }
    PinnedWithinLimit(s);
    PinnedWithinLimit(s');
    Tallies(s.threads, t, th);
    SumAtLeast(PinsOf, s.threads, t);
    StillSafe(s, t, s', th);
  }

  /** Steps of one thread that touch neither pins nor content nor ownership. */
  lemma LocalKeepsSlot(s: State, t: nat, s': State, th: Thread)
    requires SlotInv(s) && t < |s.threads| && WordInv(s') && s'.threads == s.threads[t := th]
    requires s'.content == s.content && IsValid(s'.word) == IsValid(s.word) && !s'.panicked
    requires s'.free == s.free && s'.fills == s.fills && s'.evictions == s.evictions
    requires PinsOf(th) == PinsOf(s.threads[t]) && Owns(th) == Owns(s.threads[t]) && ThreadSafe(s, th)
    requires OwesAdd(th) <= OwesAdd(s.threads[t])
    requires s'.refs + OwesAdd(th) + OwesRemove(s.threads[t]) + WeakOf(s.threads[t])
             == s.refs + OwesAdd(s.threads[t]) + OwesRemove(th) + WeakOf(th)
    ensures SlotInv(s')
  {
    Tallies(s.threads, t, th);
    StillSafe(s, t, s', th);
  }

  /** `remove_ref` never finds a zero count: whoever calls it is still counted. */
  lemma RefsPositive(s: State, t: nat)
    requires SlotInv(s) && t < |s.threads|
    requires OwesRemove(s.threads[t]) > 0 || s.threads[t].weak > 0
    ensures s.refs > 0
  {
    SumAtLeast(OwesRemove, s.threads, t);
    SumAtLeast(WeakOf, s.threads, t);
    OwesAddHoldsPin(s);
  }

  lemma NoPinsWhenUnpinned(s: State)
    requires SlotInv(s) && !IsPinned(s.word)
    ensures forall i :: 0 <= i < |s.threads| ==> s.threads[i].pins == [] && Holds(s.threads[i].pc) == 0
  {
    PinnedWithinLimit(s);
    SumZero(PinsOf, s.threads);
  }

  lemma EvictionKeepsSlot(s: State, t: nat, s': State)
    requires SlotInv(s) && t < |s.threads| && WordInv(s') && s.threads[t].pc.EvictCas?
    requires !IsPinned(s.word) && IsValid(s.word) && !IsValid(s'.word)
    requires s' == With(s.(word := s'.word, evictions := s.evictions + 1), t, s.threads[t].(pc := Owner))
    ensures SlotInv(s')
  {
    NoPinsWhenUnpinned(s);
    Tallies(s.threads, t, s'.threads[t]);
    forall i | 0 <= i < |s'.threads| ensures ThreadSafe(s', s'.threads[i]) {
      assert ThreadSafe(s, s.threads[i]);
      assert s.threads[i].pins == [] && Holds(s.threads[i].pc) == 0;
    }
  }

  lemma CasKeepsSlot(s: State, t: nat, s': State)
    requires SlotInv(s) && t < |s.threads| && WordInv(s') && s.threads[t].pc.EvictCas?
    requires s' == TryCas(s, t, s.threads[t].pc.observed)
    ensures SlotInv(s')
  {
    assert ThreadSafe(s, s.threads[t]);
    if s.word == s.threads[t].pc.observed {
      assert !IsValid(s'.word) by {
        ValidEffects(s.word);
        assert !Decode(s'.word).valid;
      }
      EvictionKeepsSlot(s, t, s');
    } else {
      LocalKeepsSlot(s, t, s', s'.threads[t]);
    }
  }

  lemma OwnerMeansInvalid(s: State, t: nat)
    requires SlotInv(s) && t < |s.threads| && Owns(s.threads[t]) == 1
    ensures !IsValid(s.word) && !s.free
  {
    SumAtLeast(Owns, s.threads, t);
  }

  lemma WriteKeepsSlot(s: State, t: nat, content: Content, s': State)
    requires SlotInv(s) && t < |s.threads| && s.threads[t].pc == Owner
    requires s' == WriteContent(s, t, content)
    ensures SlotInv(s')
  {
    OwnerMeansInvalid(s, t);
    Tallies(s.threads, t, s'.threads[t]);
    forall i | 0 <= i < |s'.threads| ensures ThreadSafe(s', s'.threads[i]) {
      assert ThreadSafe(s, s.threads[i]);
    }
  }

  lemma PublishKeepsSlot(s: State, t: nat, s': State)
    requires SlotInv(s) && t < |s.threads| && s.threads[t].pc == Publish && WordInv(s')
    requires s' == PublishContent(s, t)
    ensures SlotInv(s')
  {
    OwnerMeansInvalid(s, t);
    Tallies(s.threads, t, s'.threads[t]);
    ValidEffects(s.word);
    assert Decode(s'.word).valid;
    forall i | 0 <= i < |s'.threads| ensures ThreadSafe(s', s'.threads[i]) {
      assert ThreadSafe(s, s.threads[i]);
    }
  }

  lemma ClearKeepsSlot(s: State, t: nat, s': State)
    requires SlotInv(s) && t < |s.threads| && AdvanceThread(s, t) == Some(s') && WordInv(s')
    requires s.threads[t].pc.AcquireClear? || s.threads[t].pc.ExtendClear? || s.threads[t].pc.ReleaseClear?
    ensures SlotInv(s')
  {
    assert ThreadSafe(s, s.threads[t]);
    assert IsValid(s'.word) == IsValid(s.word) by {
      ClearEffects(s.word);
      assert Decode(s'.word).valid == Decode(s.word).valid;
    }
    LocalKeepsSlot(s, t, s', s'.threads[t]);
  }

  lemma TestKeepsSlot(s: State, t: nat, s': State)
    requires SlotInv(s) && t < |s.threads| && AdvanceThread(s, t) == Some(s') && WordInv(s')
    requires s.threads[t].pc.AcquireTest?
    ensures SlotInv(s')
  {
    assert ThreadSafe(s, s.threads[t]);
    LocalKeepsSlot(s, t, s', s'.threads[t]);
  }

  lemma AdvanceKeepsSlot(s: State, t: nat, s': State)
    requires SlotInv(s) && t < |s.threads| && AdvanceThread(s, t) == Some(s') && WordInv(s') && WithinLimit(s')
    ensures SlotInv(s')
  {
    var pc := s.threads[t].pc;
    if pc.ReleaseAdd? {
      ReleaseKeepsSlot(s, t, s', s.threads[t].pins);
    } else if pc.EvictCas? {
      CasKeepsSlot(s, t, s');
    } else if pc.Publish? {
      PublishKeepsSlot(s, t, s');
    } else if pc.AcquireTest? {
      TestKeepsSlot(s, t, s');
    } else if pc.AcquireRef? || pc.ReleaseRef? || pc.EvictTest? {
      assert ThreadSafe(s, s.threads[t]);
      if pc.ReleaseRef? {
        RefsPositive(s, t);
      }
      LocalKeepsSlot(s, t, s', s'.threads[t]);
    } else {
      ClearKeepsSlot(s, t, s');
    }
  }

  lemma MoveIsSafe(s: State, from: Thread, to: Thread, h: nat)
    requires ThreadSafe(s, from) && ThreadSafe(s, to) && h < |from.pins|
    ensures ThreadSafe(s, from.(pins := Without(from.pins, h)))
    ensures ThreadSafe(s, to.(pins := to.pins + [from.pins[h]]))
  {
    assert from.pins[h] in from.pins;
  }

  lemma MoveKeepsSlot(s: State, t: nat, h: nat, u: nat, s': State)
    requires SlotInv(s) && t < |s.threads| && u < |s.threads| && t != u && h < |s.threads[t].pins|
    requires s.threads[t].pc == Idle && BeginOp(s, t, MovePin(h, u)) == Some(s') && WordInv(s')
    ensures SlotInv(s')
  {
    MoveTallies(s, t, h, u);
    MoveIsSafe(s, s.threads[t], s.threads[u], h);
    forall i | 0 <= i < |s'.threads| ensures ThreadSafe(s', s'.threads[i]) {
      assert ThreadSafe(s, s.threads[i]);
    }
  }

  lemma TakeFreeKeepsSlot(s: State, t: nat, s': State)
    requires SlotInv(s) && t < |s.threads| && s.threads[t].pc == Idle && s.free && WordInv(s')
    requires s' == With(s.(free := false), t, s.threads[t].(pc := Owner))
    ensures SlotInv(s')
  {
    Tallies(s.threads, t, s'.threads[t]);
    forall i | 0 <= i < |s'.threads| ensures ThreadSafe(s', s'.threads[i]) {
      assert ThreadSafe(s, s.threads[i]);
    }
  }

  lemma BeginKeepsSlot(s: State, t: nat, a: Action, s': State)
    requires SlotInv(s) && t < |s.threads| && s.threads[t].pc == Idle && BeginOp(s, t, a) == Some(s')
    requires WordInv(s') && WithinLimit(s')
    ensures SlotInv(s')
  {
    assert ThreadSafe(s, s.threads[t]);
    if a.Acquire? {
      AcquireKeepsSlot(s, t, a.key, s');
    } else if a.Extend? {
      ExtendKeepsSlot(s, t, a.handle, s');
    } else if a.Release? {
      ReleaseKeepsSlot(s, t, s', Without(s.threads[t].pins, a.handle));
    } else if a.MovePin? {
      MoveKeepsSlot(s, t, a.handle, a.to, s');
    } else if a.TakeFree? {
      TakeFreeKeepsSlot(s, t, s');
    } else {
      if a.RemoveRef? {
        RefsPositive(s, t);
      }
      LocalKeepsSlot(s, t, s', s'.threads[t]);
    }
  }

  lemma StepKeepsSlot(s: State, t: nat, a: Action, s': State)
    requires SlotInv(s) && Step(s, t, a) == Some(s') && WithinLimit(s')
    ensures SlotInv(s')
  {
    StepKeepsWord(s, t, a, s');
    if s.threads[t].pc == Idle {
      BeginKeepsSlot(s, t, a, s');
    } else if a == Advance {
      AdvanceKeepsSlot(s, t, s');
    } else if s.threads[t].pc == Owner {
      WriteKeepsSlot(s, t, s'.content, s');
    } else {
      assert ThreadSafe(s, s.threads[t]);
      LocalKeepsSlot(s, t, s', s'.threads[t]);
    }
  }

  lemma ZeroWord()
    ensures Decode(0) == Fields(0, false, 0, false, false, false)
  {}

  lemma IdleIsSafe(s: State)
    ensures ThreadSafe(s, Thread(Idle, [], 0))
  {}

  lemma InitIsSafe(n: nat)
    requires n < POW30
    ensures SlotInv(Init(n))
  {
    NoThreads(n);
    ZeroWord();
    var s := Init(n);
    assert !IsValid(s.word) && WordInv(s);
    forall i | 0 <= i < |s.threads| ensures ThreadSafe(s, s.threads[i]) {
      IdleIsSafe(s);
    }
  }

  // ---------------------------------------------------------------- what every run gives

  /** Every run of fewer than 2^30 threads that keeps fewer than 2^30 pins outstanding. */
  lemma {:induction false} RunsAreSafe(n: nat, steps: seq<(nat, Action)>)
    requires n < POW30 && Run(Init(n), steps).Some? && AlwaysWithinLimit(Init(n), steps)
    ensures SlotInv(Run(Init(n), steps).value)
  {
    if |steps| == 0 {
      InitIsSafe(n);
    } else {
      var before := steps[..|steps| - 1];
      RunsAreSafe(n, before);
      var (t, a) := steps[|steps| - 1];
      StepKeepsSlot(Run(Init(n), before).value, t, a, Run(Init(n), steps).value);
    }
  }

  /** A pin protects what it pins: the key that a handle was asked for is the slot's key, and the content that
      the handle was created for is the slot's content, for as long as the handle lives; the slot stays valid,
      and no run-time check of the slot ever fails. */
  lemma PinsProtectContent(n: nat, steps: seq<(nat, Action)>, t: nat, h: Handle)
    requires n < POW30 && Run(Init(n), steps).Some? && AlwaysWithinLimit(Init(n), steps)
    requires var s := Run(Init(n), steps).value; t < |s.threads| && h in s.threads[t].pins
    ensures var s := Run(Init(n), steps).value;
            IsValid(s.word) && s.content == h.content && s.content.key == Some(h.asked) && !s.panicked
  {
    RunsAreSafe(n, steps);
    var s := Run(Init(n), steps).value;
    assert ThreadSafe(s, s.threads[t]);
  }

  /** The same from the moment an acquirer has seen the valid bit, before it has looked at the key. */
  lemma AcquirersAreProtected(n: nat, steps: seq<(nat, Action)>, t: nat, c: Content)
    requires n < POW30 && Run(Init(n), steps).Some? && AlwaysWithinLimit(Init(n), steps)
    requires var s := Run(Init(n), steps).value; t < |s.threads| && Seen(s.threads[t].pc) == Some(c)
    ensures var s := Run(Init(n), steps).value; IsValid(s.word) && s.content == c
  {
    RunsAreSafe(n, steps);
    var s := Run(Init(n), steps).value;
    assert ThreadSafe(s, s.threads[t]);
  }

  /** Some acquire of the run asked for the key. */
  predicate AskedFor(steps: seq<(nat, Action)>, key: Key) { exists i :: 0 <= i < |steps| && steps[i].1 == Acquire(key) }

  predicate Asks(pc: Pc, key: Key) { Acquiring(pc) && pc.key == key }

  ghost predicate HoldsFor(pins: seq<Handle>, key: Key) { exists h :: h in pins && h.asked == key }

  /** The thread is asking for the key or holds a handle for it. */
  ghost predicate Claims(th: Thread, key: Key) { Asks(th.pc, key) || HoldsFor(th.pins, key) }

  /** Whatever key a thread claims, an acquire asked for it. */
  ghost predicate KeysAsked(steps: seq<(nat, Action)>, s: State) {
    forall i, key: Key :: 0 <= i < |s.threads| && Claims(s.threads[i], key) ==> AskedFor(steps, key)
  }

  lemma AskedStays(steps: seq<(nat, Action)>, more: seq<(nat, Action)>, key: Key)
    requires steps <= more && AskedFor(steps, key)
    ensures AskedFor(more, key)
  {
    var i :| 0 <= i < |steps| && steps[i].1 == Acquire(key);
    assert more[i] == steps[i];
  }

  predicate Acquiring(pc: Pc) { pc.AcquireClear? || pc.AcquireRef? || pc.AcquireTest? }

  /** The step of an operation under way adds a handle only at the end of an acquire, for the key asked for. */
  predicate MovesFor(th: Thread, th': Thread, content: Content) {
    && (th'.pins == th.pins || (th.pc.AcquireTest? && th'.pins == th.pins + [Handle(th.pc.key, content)]))
    && (Acquiring(th'.pc) ==> Acquiring(th.pc) && th'.pc.key == th.pc.key)
  }

  lemma MoveClaimed(th: Thread, th': Thread, content: Content, key: Key)
    requires MovesFor(th, th', content) && Claims(th', key)
    ensures Claims(th, key)
  {}

  lemma AcquireMoves(s: State, t: nat, s': State)
    requires t < |s.threads| && AdvanceThread(s, t) == Some(s') && Acquiring(s.threads[t].pc)
    ensures |s'.threads| == |s.threads| && s'.threads == s.threads[t := s'.threads[t]]
    ensures MovesFor(s.threads[t], s'.threads[t], s.content)
  {}

  lemma OtherMoves(s: State, t: nat, s': State)
    requires t < |s.threads| && AdvanceThread(s, t) == Some(s') && !Acquiring(s.threads[t].pc)
    ensures |s'.threads| == |s.threads| && s'.threads == s.threads[t := s'.threads[t]]
    ensures s'.threads[t].pins == s.threads[t].pins && !Acquiring(s'.threads[t].pc)
  {}

  lemma BeginClaims(s: State, t: nat, a: Action, s': State, key: Key)
    requires t < |s.threads| && s.threads[t].pc == Idle && BeginOp(s, t, a) == Some(s') && !a.MovePin?
    ensures |s'.threads| == |s.threads| && s'.threads == s.threads[t := s'.threads[t]]
    ensures Claims(s'.threads[t], key) ==> Claims(s.threads[t], key) || a == Acquire(key)
  {}

  lemma MoveClaims(from: seq<Handle>, to: seq<Handle>, h: nat, key: Key)
    requires h < |from|
    ensures HoldsFor(Without(from, h), key) ==> HoldsFor(from, key)
    ensures HoldsFor(to + [from[h]], key) ==> HoldsFor(from, key) || HoldsFor(to, key)
  {
    assert from[h] in from;
  }

  /** A claim after a step of thread `t` was there before, of the same thread or of `t`, or is the one asked for. */
  lemma StepClaims(s: State, t: nat, a: Action, s': State, i: nat, key: Key)
    requires Step(s, t, a) == Some(s') && i < |s'.threads| && Claims(s'.threads[i], key)
    ensures |s'.threads| == |s.threads| && t < |s.threads|
    ensures a == Acquire(key) || Claims(s.threads[i], key) || Claims(s.threads[t], key)
  {
    if s.threads[t].pc == Idle && a.MovePin? {
      MoveClaims(s.threads[t].pins, s.threads[a.to].pins, a.handle, key);
    } else if s.threads[t].pc == Idle {
      BeginClaims(s, t, a, s', key);
    } else if a == Advance {
      if Acquiring(s.threads[t].pc) { AcquireMoves(s, t, s'); } else { OtherMoves(s, t, s'); }
      if i == t { MoveClaimed(s.threads[t], s'.threads[t], s.content, key); }
    }
  }

  /** Every handle, and every acquire under way, is for a key that some acquire of the run asked for. */
  lemma {:induction false} HandlesWereAskedFor(n: nat, steps: seq<(nat, Action)>)
    requires Run(Init(n), steps).Some?
    ensures KeysAsked(steps, Run(Init(n), steps).value)
  {
    if |steps| > 0 {
      var before := steps[..|steps| - 1];
      HandlesWereAskedFor(n, before);
      var s, s' := Run(Init(n), before).value, Run(Init(n), steps).value;
      var (t, a) := steps[|steps| - 1];
      forall i, key: Key | 0 <= i < |s'.threads| && Claims(s'.threads[i], key) ensures AskedFor(steps, key) {
        StepClaims(s, t, a, s', i, key);
        if a == Acquire(key) {
          assert steps[|steps| - 1].1 == Acquire(key);
        } else {
          AskedStays(before, steps, key);
        }
      }
    }
  }

  ghost predicate PinnedExactly(s: State) {
    && (IsPinned(s.word) <==> Outstanding(s) % POW30 != 0)
    && (Outstanding(s) < POW30 ==> (IsPinned(s.word) <==> Outstanding(s) > 0))
  }

  lemma PinnedIsExact(s: State)
    requires WordInv(s)
    ensures PinnedExactly(s)
  {
    PinnedIff(s);
  }

  /** In every run, whatever the number of pins, `is_pinned` tells whether the pins outstanding are a multiple
      of 2^30; with fewer than that, whether there are any. */
  lemma IsPinnedIsExact(n: nat, steps: seq<(nat, Action)>)
    requires n < POW30 && Run(Init(n), steps).Some?
    ensures PinnedExactly(Run(Init(n), steps).value)
  {
    WordRefinesCounters(n, steps);
    PinnedIsExact(Run(Init(n), steps).value);
  }

  /** Between two fills at most one eviction succeeds, and at any time at most one thread may write the slot,
      none while it is valid or in the free pool. */
  lemma EvictionsAlternateWithFills(n: nat, steps: seq<(nat, Action)>)
    requires n < POW30 && Run(Init(n), steps).Some? && AlwaysWithinLimit(Init(n), steps)
    ensures var s := Run(Init(n), steps).value;
            && s.fills == s.evictions + AsNat(IsValid(s.word))
            && AsNat(IsValid(s.word)) + AsNat(s.free) + Sum(Owns, s.threads) == 1
  {
    RunsAreSafe(n, steps);
  }

  /** The reference count never underflows: whoever is about to take one away is still counted. */
  lemma RefCountNeverUnderflows(n: nat, steps: seq<(nat, Action)>, t: nat)
    requires n < POW30 && Run(Init(n), steps).Some? && AlwaysWithinLimit(Init(n), steps)
    requires var s := Run(Init(n), steps).value;
             t < |s.threads| && (OwesRemove(s.threads[t]) > 0 || s.threads[t].weak > 0)
    ensures Run(Init(n), steps).value.refs > 0
  {
    RunsAreSafe(n, steps);
    RefsPositive(Run(Init(n), steps).value, t);
  }

  predicate Quiet(th: Thread) { th.pc.Idle? || th.pc.Owner? }

  /** With no operation in flight the reference count is exact. */
  lemma QuiescentRefCount(n: nat, steps: seq<(nat, Action)>)
    requires n < POW30 && Run(Init(n), steps).Some? && AlwaysWithinLimit(Init(n), steps)
    requires forall i :: 0 <= i < |Run(Init(n), steps).value.threads| ==> Quiet(Run(Init(n), steps).value.threads[i])
    ensures var s := Run(Init(n), steps).value; s.refs == Sum(WeakOf, s.threads) + AsNat(IsPinned(s.word))
  {
    RunsAreSafe(n, steps);
    var s := Run(Init(n), steps).value;
    PinnedWithinLimit(s);
    SumZero(OwesAdd, s.threads);
    SumZero(OwesRemove, s.threads);
  }
}
