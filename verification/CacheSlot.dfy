/** One slot of the page cache under any number of threads. Every atomic instruction of
    `acquire_pin`, `extend_pin`, `release_pin`, `evict`, `fill`, `clear`, `add_ref` and `remove_ref`
    is one step; a thread's program counter says which instruction comes next. */
module CacheSlot {
  import opened Common
  import opened StateWord
  import opened Tally

  type Key = nat
  type Value = nat

  /** The slot's `key_` and `value_`; both empty after `clear`. */
  datatype Content = Content(key: Option<Key>, value: Option<Value>)

  /** `seen` is what an acquirer found when its `fetch_add` observed the valid bit: the slot's content
      at that instant, or `None` if the bit was clear. */
  datatype Pc =
    | Idle
    | AcquireClear(key: Key, seen: Option<Content>, newlyPinned: bool)
    | AcquireRef(key: Key, seen: Option<Content>)
    | AcquireTest(key: Key, seen: Option<Content>)
    | ExtendClear
    | ReleaseAdd
    | ReleaseClear(newlyUnpinned: bool)
    | ReleaseRef
    | EvictTest(observed: Word)
    | EvictCas(observed: Word)
    | Owner
    | Publish

  /** A `PinnedCacheSlot`, with the slot's content when it was created and the key that was asked for then. */
  datatype Handle = Handle(asked: Key, content: Content)

  /** `pins` are the live `PinnedCacheSlot` handles of this thread; `weak` counts its `CacheSlotRef` handles. */
  datatype Thread = Thread(pc: Pc, pins: seq<Handle>, weak: nat)

  /** The slot, plus history counters that no step reads. `free` says the slot is in the free pool;
      `panicked` that one of the code's run-time checks has failed, which ends the process. */
  datatype State = State(word: Word, refs: nat, content: Content, free: bool, panicked: bool,
                         threads: seq<Thread>, acquires: nat, releases: nat, fills: nat, evictions: nat)

  datatype Action =
    | Acquire(key: Key)
    | Extend(handle: nat)
    | Release(handle: nat)
    | AddRef
    | RemoveRef
    | Evict
    | TakeFree
    | Fill(key: Key, value: Value)
    | Clear
    | MovePin(handle: nat, to: nat)
    | Advance
    | SpuriousCasFailure

  function Init(n: nat): State {
    State(0, 0, Content(None, None), true, false, seq(n, i => Thread(Idle, [], 0)), 0, 0, 0, 0)
  }

  function With(s: State, t: nat, th: Thread): State
    requires t < |s.threads|
  {
    s.(threads := s.threads[t := th])
  }

  function Without<T>(s: seq<T>, i: nat): (r: seq<T>)
    requires i < |s|
    ensures |r| == |s| - 1 && forall x :: x in r ==> x in s
  {
    s[..i] + s[i + 1..]
  }

  // ---------------------------------------------------------------- acquire_pin, extend_pin

  function AfterAcquireAdd(key: Key, observed: Word, next: Word, content: Content): Pc {
    var seen := if IsValid(observed) then Some(content) else None;
    if AcquireOverflow(next) then AcquireClear(key, seen, !IsPinned(observed))
    else if !IsPinned(observed) then AcquireRef(key, seen)
    else AcquireTest(key, seen)
  }

  function StartAcquire(s: State, t: nat, key: Key): State
    requires t < |s.threads|
  {
    var next := FetchAdd(s.word, 1);
    With(s.(word := next, panicked := !IsPinned(next), acquires := s.acquires + 1), t,
         s.threads[t].(pc := AfterAcquireAdd(key, s.word, next, s.content)))
  }

  function StartExtend(s: State, t: nat, handle: nat): State
    requires t < |s.threads| && handle < |s.threads[t].pins|
  {
    var th := s.threads[t];
    var next := FetchAdd(s.word, 1);
    With(s.(word := next, panicked := !IsPinned(s.word), acquires := s.acquires + 1), t,
         th.(pc := if AcquireOverflow(next) then ExtendClear else Idle, pins := th.pins + [th.pins[handle]]))
  }

  // ---------------------------------------------------------------- release_pin

  function AfterReleaseAdd(next: Word): Pc {
    if ReleaseOverflow(next) then ReleaseClear(!IsPinned(next))
    else if !IsPinned(next) then ReleaseRef
    else Idle
  }

  /** The `fetch_add` of `release_pin`; `pins` is what the thread holds afterwards. */
  function ReleaseOne(s: State, t: nat, pins: seq<Handle>): State
    requires t < |s.threads|
  {
    var next := FetchAdd(s.word, POW31);
    With(s.(word := next, panicked := !IsPinned(s.word), releases := s.releases + 1), t,
         s.threads[t].(pc := AfterReleaseAdd(next), pins := pins))
  }

  // ---------------------------------------------------------------- reference count

  function DropRef(s: State, t: nat, th: Thread): State
    requires t < |s.threads|
  {
    if s.refs == 0 then With(s.(panicked := true), t, th)
    else With(s.(refs := s.refs - 1), t, th)
  }

  // ---------------------------------------------------------------- evict, fill, clear

  function WriteContent(s: State, t: nat, content: Content): State
    requires t < |s.threads|
  {
    With(s.(content := content, panicked := IsValid(s.word)), t, s.threads[t].(pc := Publish))
  }

  function PublishContent(s: State, t: nat): State
    requires t < |s.threads|
  {
    With(s.(word := SetValid(s.word), panicked := IsValid(s.word), fills := s.fills + 1), t,
         s.threads[t].(pc := Idle))
  }

  function TryCas(s: State, t: nat, observed: Word): State
    requires t < |s.threads|
  {
    if s.word == observed then
      With(s.(word := ClearValid(observed), evictions := s.evictions + 1), t, s.threads[t].(pc := Owner))
    else
      With(s, t, s.threads[t].(pc := EvictTest(s.word)))
  }

  // ---------------------------------------------------------------- one step

  function AdvanceThread(s: State, t: nat): Option<State>
    requires t < |s.threads|
  {
    var th := s.threads[t];
    match th.pc
    case AcquireClear(key, seen, newly) =>
      Some(With(s.(word := ClearAcquireOverflow(s.word)), t,
                th.(pc := if newly then AcquireRef(key, seen) else AcquireTest(key, seen))))
    case AcquireRef(key, seen) =>
      Some(With(s.(refs := s.refs + 1), t, th.(pc := AcquireTest(key, seen))))
    case AcquireTest(key, seen) =>
      if seen.None? || s.content.key != Some(key) then Some(With(s, t, th.(pc := ReleaseAdd)))
      else Some(With(s, t, th.(pc := Idle, pins := th.pins + [Handle(key, s.content)])))
    case ExtendClear =>
      Some(With(s.(word := ClearAcquireOverflow(s.word)), t, th.(pc := Idle)))
    case ReleaseAdd =>
      Some(ReleaseOne(s, t, th.pins))
    case ReleaseClear(newly) =>
      Some(With(s.(word := ClearReleaseOverflow(s.word)), t, th.(pc := if newly then ReleaseRef else Idle)))
    case ReleaseRef =>
      Some(DropRef(s, t, th.(pc := Idle)))
    case EvictTest(observed) =>
      Some(With(s, t, th.(pc := if IsPinned(observed) || !IsValid(observed) then Idle else EvictCas(observed))))
    case EvictCas(observed) =>
      Some(TryCas(s, t, observed))
    case Publish =>
      Some(PublishContent(s, t))
    case Idle => None
    case Owner => None
  }

  function BeginOp(s: State, t: nat, a: Action): Option<State>
    requires t < |s.threads| && s.threads[t].pc == Idle
  {
    var th := s.threads[t];
    match a
    case Acquire(key) => Some(StartAcquire(s, t, key))
    case Extend(h) => if h < |th.pins| then Some(StartExtend(s, t, h)) else None
    case Release(h) => if h < |th.pins| then Some(ReleaseOne(s, t, Without(th.pins, h))) else None
    case AddRef =>
      if |th.pins| > 0 || th.weak > 0 then Some(With(s.(refs := s.refs + 1), t, th.(weak := th.weak + 1))) else None
    case RemoveRef =>
      if th.weak > 0 then Some(DropRef(s, t, th.(weak := th.weak - 1))) else None
    case Evict => Some(With(s, t, th.(pc := EvictTest(s.word))))
    case TakeFree => if s.free then Some(With(s.(free := false), t, th.(pc := Owner))) else None
    case MovePin(h, u) =>
      if h < |th.pins| && u < |s.threads| && u != t then
        Some(With(With(s, t, th.(pins := Without(th.pins, h))), u,
                  s.threads[u].(pins := s.threads[u].pins + [th.pins[h]])))
      else None
    case _ => None
  }

  /** The effect of thread `t` taking action `a`; `None` when the thread cannot do that now. */
  function Step(s: State, t: nat, a: Action): Option<State> {
    if s.panicked || t >= |s.threads| then None
    else match s.threads[t].pc
      case Idle => if a == Advance then None else BeginOp(s, t, a)
      case Owner =>
        if a.Fill? then Some(WriteContent(s, t, Content(Some(a.key), Some(a.value))))
        else if a == Clear then Some(WriteContent(s, t, Content(None, None)))
        else None
      case EvictCas(_) =>
        if a == Advance then AdvanceThread(s, t)
        else if a == SpuriousCasFailure then Some(With(s, t, s.threads[t].(pc := EvictTest(s.word))))
        else None
      case _ => if a == Advance then AdvanceThread(s, t) else None
  }

  function Run(s: State, steps: seq<(nat, Action)>): Option<State> {
    if |steps| == 0 then Some(s)
    else
      var before := Run(s, steps[..|steps| - 1]);
      var (t, a) := steps[|steps| - 1];
      if before.None? then None else Step(before.value, t, a)
  }

  // ---------------------------------------------------------------- what the invariants count

  function Holds(pc: Pc): nat {
    if pc.AcquireClear? || pc.AcquireRef? || pc.AcquireTest? || pc.ReleaseAdd? then 1 else 0
  }

  /** Pins this thread is answerable for: its handles and the one it is acquiring or giving back. */
  function PinsOf(th: Thread): nat { |th.pins| + Holds(th.pc) }

  function WeakOf(th: Thread): nat { th.weak }

  function ClearsAcquire(th: Thread): nat { if th.pc.AcquireClear? || th.pc.ExtendClear? then 1 else 0 }

  function ClearsRelease(th: Thread): nat { if th.pc.ReleaseClear? then 1 else 0 }

  function OwesAdd(th: Thread): nat {
    if th.pc.AcquireRef? || (th.pc.AcquireClear? && th.pc.newlyPinned) then 1 else 0
  }

  function OwesRemove(th: Thread): nat {
    if th.pc.ReleaseRef? || (th.pc.ReleaseClear? && th.pc.newlyUnpinned) then 1 else 0
  }

  function Owns(th: Thread): nat { if th.pc.Owner? || th.pc.Publish? then 1 else 0 }

  function Outstanding(s: State): nat { Sum(PinsOf, s.threads) }

  /** The bound under which the 30-bit counts tell pinned from unpinned. */
  predicate WithinLimit(s: State) { Outstanding(s) < POW30 }

  /** The bound holds in the last state of the run and in every state before it. */
  predicate AlwaysWithinLimit(s: State, steps: seq<(nat, Action)>) {
    && (Run(s, steps).Some? ==> WithinLimit(Run(s, steps).value))
    && (|steps| > 0 ==> AlwaysWithinLimit(s, steps[..|steps| - 1]))
  }
}
