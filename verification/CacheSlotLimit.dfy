/** The limit on pins is sharp: a run from the start that reaches 2^30 pins, and an eviction under all of
    them. */
module CacheSlotLimit {
  import opened Common
  import opened StateWord
  import opened Tally
  import opened CacheSlot
  import opened CacheSlotProof
  import opened CacheSlotAlone

  lemma Follow(s0: State, steps: Steps, s: State, t: nat, a: Action, s': State) returns (more: Steps)
    requires Run(s0, steps) == Some(s) && Step(s, t, a) == Some(s')
    ensures more == steps + [(t, a)] && Run(s0, more) == Some(s')
  {
    more := steps + [(t, a)];
    assert more[..|more| - 1] == steps && more[|more| - 1] == (t, a);
  }

  /** Thread 0 does all the work; thread 1 stays as it was at the start. */
  function Busy(word: Word, refs: nat, content: Content, th: Thread, acquires: nat, fills: nat): State {
    State(word, refs, content, false, false, [th, Thread(Idle, [], 0)], acquires, 0, fills, 0)
  }

  /** The slot is valid, filled with `page` for `key`, and thread 0 holds `k` pins on it. */
  function Holding(word: Word, key: Key, page: Content, pc: Pc, k: nat): State {
    Busy(word, 1, page, Thread(pc, seq(k, _ => Handle(key, page)), 0), k, 1)
  }

  lemma WordWithPins(k: nat, w: Word)
    requires k <= POW30 && w == POW63 + k
    ensures IsValid(w) && ReleaseCount(w) == 0 && FetchAdd(w, 1) == w + 1
    ensures AcquireCount(w) == k % POW30 && (AcquireOverflow(w) <==> k == POW30)
  {
    var f := Fields(k % POW30, k == POW30, 0, false, false, true);
    assert Assemble(f) == w;
    DecodeAssemble(f);
  }

  lemma TakeStep(s0: State, s: State)
    requires s0 == Init(2) && s == Busy(0, 0, Content(None, None), Thread(Owner, [], 0), 0, 0)
    ensures Step(s0, 0, TakeFree) == Some(s)
  {
    assert s.threads == s0.threads[0 := Thread(Owner, [], 0)];
  }

  lemma FillStep(s: State, key: Key, value: Value, s': State)
    requires s == Busy(0, 0, Content(None, None), Thread(Owner, [], 0), 0, 0)
    requires s' == Busy(0, 0, Content(Some(key), Some(value)), Thread(Publish, [], 0), 0, 0)
    ensures Step(s, 0, Fill(key, value)) == Some(s')
  {
    assert s'.threads == s.threads[0 := Thread(Publish, [], 0)];
  }

  lemma PublishStep(page: Content, s: State, s': State)
    requires s == Busy(0, 0, page, Thread(Publish, [], 0), 0, 0)
    requires s' == Busy(POW63, 0, page, Thread(Idle, [], 0), 0, 1)
    ensures Step(s, 0, Advance) == Some(s')
  {
    assert s'.threads == s.threads[0 := Thread(Idle, [], 0)];
    assert PublishContent(s, 0) == s';
  }

  /** The slot is taken from the free pool and filled. */
  lemma Filled(s0: State, key: Key, value: Value) returns (steps: Steps)
    requires s0 == Init(2)
    ensures Run(s0, steps) == Some(Busy(POW63, 0, Content(Some(key), Some(value)), Thread(Idle, [], 0), 0, 1))
  {
    var page := Content(Some(key), Some(value));
    var s1 := Busy(0, 0, Content(None, None), Thread(Owner, [], 0), 0, 0);
    var s2 := Busy(0, 0, page, Thread(Publish, [], 0), 0, 0);
    var s3 := Busy(POW63, 0, page, Thread(Idle, [], 0), 0, 1);
    TakeStep(s0, s1);
    FillStep(s1, key, value, s2);
    PublishStep(page, s2, s3);
    steps := Follow(s0, [], s0, 0, TakeFree, s1);
    steps := Follow(s0, steps, s1, 0, Fill(key, value), s2);
    steps := Follow(s0, steps, s2, 0, Advance, s3);
  }

  lemma AcquireStep(key: Key, page: Content, s: State, s': State)
    requires s == Busy(POW63, 0, page, Thread(Idle, [], 0), 0, 1)
    requires s' == Busy(POW63 + 1, 0, page, Thread(AcquireRef(key, Some(page)), [], 0), 1, 1)
    ensures Step(s, 0, Acquire(key)) == Some(s')
  {
    WordWithPins(0, POW63);
    WordWithPins(1, POW63 + 1);
    assert s'.threads == s.threads[0 := Thread(AcquireRef(key, Some(page)), [], 0)];
    assert StartAcquire(s, 0, key) == s';
  }

  lemma RefStep(key: Key, page: Content, s: State, s': State)
    requires s == Busy(POW63 + 1, 0, page, Thread(AcquireRef(key, Some(page)), [], 0), 1, 1)
    requires s' == Busy(POW63 + 1, 1, page, Thread(AcquireTest(key, Some(page)), [], 0), 1, 1)
    ensures Step(s, 0, Advance) == Some(s')
  {
    assert s'.threads == s.threads[0 := Thread(AcquireTest(key, Some(page)), [], 0)];
    assert AdvanceThread(s, 0) == Some(s');
  }

  lemma TestStep(key: Key, page: Content, s: State, s': State)
    requires page.key == Some(key) && s == Busy(POW63 + 1, 1, page, Thread(AcquireTest(key, Some(page)), [], 0), 1, 1)
    requires s' == Holding(POW63 + 1, key, page, Idle, 1)
    ensures Step(s, 0, Advance) == Some(s')
  {
    assert s'.threads[0].pins == [] + [Handle(key, page)];
    assert s'.threads == s.threads[0 := s'.threads[0]];
    assert AdvanceThread(s, 0) == Some(s');
  }

  /** The first pin. */
  lemma FirstPin(s0: State, key: Key, value: Value) returns (steps: Steps)
    requires s0 == Init(2)
    ensures Run(s0, steps) == Some(Holding(POW63 + 1, key, Content(Some(key), Some(value)), Idle, 1))
  {
    var page := Content(Some(key), Some(value));
    var s1 := Busy(POW63, 0, page, Thread(Idle, [], 0), 0, 1);
    var s2 := Busy(POW63 + 1, 0, page, Thread(AcquireRef(key, Some(page)), [], 0), 1, 1);
    var s3 := Busy(POW63 + 1, 1, page, Thread(AcquireTest(key, Some(page)), [], 0), 1, 1);
    var s4 := Holding(POW63 + 1, key, page, Idle, 1);
    AcquireStep(key, page, s1, s2);
    RefStep(key, page, s2, s3);
    TestStep(key, page, s3, s4);
    steps := Filled(s0, key, value);
    steps := Follow(s0, steps, s1, 0, Acquire(key), s2);
    steps := Follow(s0, steps, s2, 0, Advance, s3);
    steps := Follow(s0, steps, s3, 0, Advance, s4);
  }

  lemma ExtendStep(k: nat, key: Key, page: Content, s: State, s': State)
    requires 1 <= k < POW30 && s == Holding(POW63 + k, key, page, Idle, k)
    requires s' == Holding(POW63 + k + 1, key, page, if k + 1 == POW30 then ExtendClear else Idle, k + 1)
    ensures Step(s, 0, Extend(0)) == Some(s')
  {
    WordWithPins(k, POW63 + k);
    WordWithPins(k + 1, POW63 + k + 1);
    assert s.threads[0].pins[0] == Handle(key, page) && s'.threads[0].pins == s.threads[0].pins + [Handle(key, page)];
    assert s'.threads == s.threads[0 := s'.threads[0]];
    assert StartExtend(s, 0, 0) == s';
  }

  lemma ClearStep(k: nat, key: Key, page: Content, s: State, s': State)
    requires k == POW30
    requires s == Holding(POW63 + k, key, page, ExtendClear, k) && s' == Holding(POW63, key, page, Idle, k)
    ensures Step(s, 0, Advance) == Some(s')
  {
    WordWithPins(k, POW63 + k);
    assert s'.threads == s.threads[0 := s'.threads[0]];
    assert AdvanceThread(s, 0) == Some(s');
  }

  /** For every number of pins below the limit there is a run that holds them. */
  lemma {:induction false} PinsAreReached(s0: State, key: Key, value: Value, k: nat) returns (steps: Steps)
    requires s0 == Init(2) && 1 <= k < POW30
    ensures Run(s0, steps) == Some(Holding(POW63 + k, key, Content(Some(key), Some(value)), Idle, k))
    decreases k
  {
    if k == 1 {
      steps := FirstPin(s0, key, value);
    } else {
      var page := Content(Some(key), Some(value));
      var s, s' := Holding(POW63 + k - 1, key, page, Idle, k - 1), Holding(POW63 + k, key, page, Idle, k);
      ExtendStep(k - 1, key, page, s, s');
      steps := PinsAreReached(s0, key, value, k - 1);
      steps := Follow(s0, steps, s, 0, Extend(0), s');
    }
  }

  /** And one for the limit, where the count wraps and its carry is cleared. */
  lemma LimitIsReached(s0: State, key: Key, value: Value, k: nat) returns (steps: Steps)
    requires s0 == Init(2) && k == POW30
    ensures Run(s0, steps) == Some(Holding(POW63, key, Content(Some(key), Some(value)), Idle, k))
  {
    var page := Content(Some(key), Some(value));
    var s1 := Holding(POW63 + k - 1, key, page, Idle, k - 1);
    var s2 := Holding(POW63 + k, key, page, ExtendClear, k);
    var s3 := Holding(POW63, key, page, Idle, k);
    ExtendStep(k - 1, key, page, s1, s2);
    ClearStep(k, key, page, s2, s3);
    steps := PinsAreReached(s0, key, value, k - 1);
    steps := Follow(s0, steps, s1, 0, Extend(0), s2);
    steps := Follow(s0, steps, s2, 0, Advance, s3);
  }

  lemma PinsHeld(word: Word, key: Key, page: Content, k: nat)
    ensures Outstanding(Holding(word, key, page, Idle, k)) == k
  {
    var threads := Holding(word, key, page, Idle, k).threads;
    assert threads[..1][..0] == [];
    assert Sum(PinsOf, threads[..1]) == PinsOf(threads[0]);
  }

  /** In any reachable state with 2^30 pins outstanding the slot looks unpinned, and an eviction by any idle
      thread goes through under all of them. */
  lemma EvictsAtTheLimit(n: nat, steps: Steps, s: State, t: nat) returns (more: Steps)
    requires n < POW30 && Run(Init(n), steps) == Some(s) && !s.panicked && IsValid(s.word)
    requires Outstanding(s) == POW30 && t < |s.threads| && s.threads[t].pc == Idle
    ensures Run(Init(n), more) == Some(Evicted(s, t))
    ensures !IsValid(Evicted(s, t).word) && Outstanding(Evicted(s, t)) == POW30
  {
    WordRefinesCounters(n, steps);
    PinnedIff(s);
    EvictSteps(s, t);
    EvictedIsInvalid(s, t);
    more := Follow(Init(n), steps, s, t, Evict, At(s, t, EvictTest(s.word)));
    more := Follow(Init(n), more, At(s, t, EvictTest(s.word)), t, Advance, At(s, t, EvictCas(s.word)));
    more := Follow(Init(n), more, At(s, t, EvictCas(s.word)), t, Advance, Evicted(s, t));
  }

  /** The limit on pins is sharp: two threads, 2^30 pins, and the slot evicted under them. */
  lemma AtTheLimitPinsFail(key: Key, value: Value) returns (steps: Steps, s: State)
    ensures Run(Init(2), steps) == Some(s) && !IsValid(s.word) && Outstanding(s) == POW30
  {
    var s0, k := Init(2), POW30;
    var page := Content(Some(key), Some(value));
    steps := LimitIsReached(s0, key, value, k);
    WordWithPins(0, POW63);
    PinsHeld(POW63, key, page, k);
    steps := EvictsAtTheLimit(2, steps, Holding(POW63, key, page, Idle, k), 1);
    s := Evicted(Holding(POW63, key, page, Idle, k), 1);
  }
}
