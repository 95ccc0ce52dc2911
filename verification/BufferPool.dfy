/** A pool of fixed-size I/O buffers with counted waiters: the operations under the pool's mutex, and
    what every history of them keeps. */
module BufferPool {
  import opened Common
  import opened Arith

  /** A queued request, the source's `AbstractHandler`. */
  datatype Waiter = Waiter(id: nat, count: nat)

  datatype Delivery = Delivery(waiter: Waiter, buffers: seq<nat>)

  datatype Pool = Pool(free: seq<nat>, waiters: seq<Waiter>)

  // ---------------------------------------------------------------- the operations on values

  /** `deallocate`: the whole free list and the returned buffer go to the front waiter if that is enough. */
  function Returned(p: Pool, b: nat): (Pool, Option<Delivery>) {
    if p.waiters == [] || p.waiters[0].count > |p.free| + 1 then (Pool([b] + p.free, p.waiters), None)
    else (Pool([], p.waiters[1..]), Some(Delivery(p.waiters[0], p.free + [b])))
  }

  /** `async_allocate`. */
  function Requested(p: Pool, w: Waiter): (Pool, Option<Delivery>) {
    if |p.free| < w.count then (Pool(p.free, p.waiters + [w]), None)
    else (Pool(p.free[w.count..], p.waiters), Some(Delivery(w, p.free[..w.count])))
  }

  /** `try_allocate`. */
  function Tried(p: Pool): (Pool, Option<nat>) {
    if p.free == [] then (p, None) else (Pool(p.free[1..], p.waiters), Some(p.free[0]))
  }

  /** The front waiter still needs more than there is, and no waiter waits for nothing. */
  predicate FrontStarved(p: Pool) {
    && (p.waiters != [] ==> p.waiters[0].count > |p.free|)
    && forall i :: 0 <= i < |p.waiters| ==> p.waiters[i].count > 0
  }

  // ---------------------------------------------------------------- the pool object

  class BufferPool {
    var free: seq<nat>
    var waiters: seq<Waiter>
    const bufferCount: nat

    ghost function Abs(): Pool
      reads this
    {
      Pool(free, waiters)
    }

    ghost predicate Valid()
      reads this
    {
      FrontStarved(Abs())
    }

    constructor (count: nat)
      ensures Valid() && bufferCount == count && waiters == [] && free == seq(count, i => i)
    {
      bufferCount := count;
      free := [];
      waiters := [];
      new;
      var i := 0;
      while i < count
        invariant i <= count && free == seq(i, k => k) && waiters == []
      {
        free := free + [i];
        i := i + 1;
      }
    }

    /** Moves the front of the free list to `to`. */
    method TransferOne(to: seq<nat>) returns (r: seq<nat>)
      requires free != []
      modifies this`free
      ensures old(free) == [old(free)[0]] + free && r == to + [old(free)[0]]
    {
      r := to + [free[0]];
      free := free[1..];
    }

    /** The check that the front waiter needs exactly the free buffers and the returned one never fails. */
    method Deallocate(b: nat) returns (delivery: Option<Delivery>)
      requires Valid()
      modifies this
      ensures Valid() && (Abs(), delivery) == Returned(old(Abs()), b)
      ensures delivery.Some? ==> |delivery.value.buffers| == delivery.value.waiter.count
    {
      if waiters == [] || waiters[0].count > |free| + 1 {
        free := [b] + free;
        return None;
      }
      var list := free;
      free := [];
      var waiter := waiters[0];
      waiters := waiters[1..];
      assert waiter.count == |list| + 1;
      var buffers: seq<nat> := [];
      ghost var all := list;
      while list != []
        invariant buffers + list == all
        decreases |list|
      {
        buffers := buffers + [list[0]];
        list := list[1..];
      }
      assert buffers == all;
      buffers := buffers + [b];
      assert |buffers| == waiter.count;
      return Some(Delivery(waiter, buffers));
    }

    method AsyncAllocate(w: Waiter) returns (delivery: Option<Delivery>)
      requires Valid()
      modifies this
      ensures Valid() && (Abs(), delivery) == Requested(old(Abs()), w)
      ensures delivery.Some? ==> |delivery.value.buffers| == delivery.value.waiter.count
    {
      if |free| < w.count {
        waiters := waiters + [w];
        return None;
      }
      var buffers: seq<nat> := [];
      var i := 0;
      while i < w.count
        invariant i <= w.count && |free| == |old(free)| - i && waiters == old(waiters)
        invariant buffers == old(free)[..i] && free == old(free)[i..]
      {
        buffers := TransferOne(buffers);
        i := i + 1;
      }
      return Some(Delivery(w, buffers));
    }

    method TryAllocate() returns (b: Option<nat>)
      requires Valid()
      modifies this
      ensures Valid() && (Abs(), b) == Tried(old(Abs()))
    {
      if free == [] {
        return None;
      }
      b := Some(free[0]);
      free := free[1..];
    }
  }

  // ---------------------------------------------------------------- histories

  datatype Op = Free(b: nat) | Request(count: nat) | Try

  /** The pool with its history: who owns each buffer handed out, every request that had to wait, the
      waiting requests served, and the number of requests made. */
  datatype World = World(pool: Pool, owner: map<nat, nat>, queued: seq<Waiter>, served: seq<Delivery>, next: nat)

  function Give(owner: map<nat, nat>, buffers: seq<nat>, id: nat): map<nat, nat> {
    owner + map b | b in buffers :: id
  }

  /** A buffer is freed by its owner, once. */
  function Step(w: World, op: Op): Option<World> {
    match op
    case Free(b) =>
      if b !in w.owner then None
      else
        var (pool, delivery) := Returned(w.pool, b);
        Some(match delivery {
          case None => w.(pool := pool, owner := w.owner - {b})
          case Some(d) =>
            w.(pool := pool, owner := Give(w.owner - {b}, d.buffers, d.waiter.id), served := w.served + [d])
        })
    case Request(count) =>
      var waiter := Waiter(w.next, count);
      var (pool, delivery) := Requested(w.pool, waiter);
      Some(match delivery {
        case None => w.(pool := pool, queued := w.queued + [waiter], next := w.next + 1)
        case Some(d) => w.(pool := pool, owner := Give(w.owner, d.buffers, w.next), next := w.next + 1)
      })
    case Try =>
      var (pool, b) := Tried(w.pool);
      Some(match b {
        case None => w.(next := w.next + 1)
        case Some(x) => w.(pool := pool, owner := w.owner[x := w.next], next := w.next + 1)
      })
  }

  function All(n: nat): seq<nat> { seq(n, i => i) }

  function Init(n: nat): World { World(Pool(All(n), []), map[], [], [], 0) }

  function Run(n: nat, ops: seq<Op>): Option<World> {
    if |ops| == 0 then Some(Init(n))
    else
      var before := Run(n, ops[..|ops| - 1]);
      if before.None? then None else Step(before.value, ops[|ops| - 1])
  }

  function Elements(s: seq<nat>): set<nat> { set b | b in s }

  predicate Distinct(s: seq<nat>) { forall i, j :: 0 <= i < j < |s| ==> s[i] != s[j] }

  function Waiters(served: seq<Delivery>): (r: seq<Waiter>)
    ensures |r| == |served|
  {
    seq(|served|, i requires 0 <= i < |served| => served[i].waiter)
  }

  /** Every buffer is free or owned, and not both. */
  predicate Partition(n: nat, free: seq<nat>, owner: map<nat, nat>) {
    Distinct(free) && Elements(free) !! owner.Keys && Elements(free) + owner.Keys == Elements(All(n))
  }

  predicate PoolInv(n: nat, w: World) {
    && FrontStarved(w.pool)
    && Partition(n, w.pool.free, w.owner)
    && Waiters(w.served) + w.pool.waiters == w.queued
    && forall i :: 0 <= i < |w.served| ==>
         |w.served[i].buffers| == w.served[i].waiter.count && Distinct(w.served[i].buffers)
  }

  lemma TakeBuffers(n: nat, free: seq<nat>, owner: map<nat, nat>, k: nat, id: nat)
    requires Partition(n, free, owner) && k <= |free|
    ensures Partition(n, free[k..], Give(owner, free[..k], id))
    ensures forall b :: b in free[..k] ==> b !in owner
  {}

  lemma FreeBuffer(n: nat, free: seq<nat>, owner: map<nat, nat>, b: nat)
    requires Partition(n, free, owner) && b in owner
    ensures Partition(n, [b] + free, owner - {b}) && Partition(n, free + [b], owner - {b})
  {}

  lemma RequestKeeps(n: nat, w: World, count: nat, w': World)
    requires PoolInv(n, w) && Step(w, Request(count)) == Some(w')
    ensures PoolInv(n, w')
  {
    if count <= |w.pool.free| {
      TakeBuffers(n, w.pool.free, w.owner, count, w.next);
    } else {
      assert Waiters(w.served) + (w.pool.waiters + [Waiter(w.next, count)]) == w'.queued;
    }
  }

  lemma TryKeeps(n: nat, w: World, w': World)
    requires PoolInv(n, w) && Step(w, Try) == Some(w')
    ensures PoolInv(n, w')
  {
    if w.pool.free != [] {
      TakeBuffers(n, w.pool.free, w.owner, 1, w.next);
      assert Give(w.owner, w.pool.free[..1], w.next) == w.owner[w.pool.free[0] := w.next];
    }
  }

  /** The whole free list and the returned buffer change hands. */
  lemma HandOver(n: nat, free: seq<nat>, owner: map<nat, nat>, b: nat, id: nat)
    requires Partition(n, free, owner) && b in owner
    ensures Partition(n, [], Give(owner - {b}, free + [b], id)) && Distinct(free + [b])
  {}

  lemma FrontLeaves(served: seq<Delivery>, waiters: seq<Waiter>, d: Delivery)
    requires waiters != [] && d.waiter == waiters[0]
    ensures Waiters(served + [d]) + waiters[1..] == Waiters(served) + waiters
  {}

  /** The front waiter is served only with exactly what it asked for. */
  lemma FreeServes(n: nat, w: World, b: nat, w': World)
    requires PoolInv(n, w) && Step(w, Free(b)) == Some(w') && w'.served != w.served
    ensures PoolInv(n, w')
  {
    var d := Delivery(w.pool.waiters[0], w.pool.free + [b]);
    HandOver(n, w.pool.free, w.owner, b, d.waiter.id);
    FrontLeaves(w.served, w.pool.waiters, d);
  }

  lemma FreeKeeps(n: nat, w: World, b: nat, w': World)
    requires PoolInv(n, w) && Step(w, Free(b)) == Some(w')
    ensures PoolInv(n, w')
  {
    if w'.served != w.served {
      FreeServes(n, w, b, w');
    } else {
      FreeBuffer(n, w.pool.free, w.owner, b);
    }
  }

  lemma {:induction false} RunsKeepPool(n: nat, ops: seq<Op>)
    requires Run(n, ops).Some?
    ensures PoolInv(n, Run(n, ops).value)
  {
    if |ops| > 0 {
      RunsKeepPool(n, ops[..|ops| - 1]);
      var w, op, w' := Run(n, ops[..|ops| - 1]).value, ops[|ops| - 1], Run(n, ops).value;
      match op {
        case Free(b) => FreeKeeps(n, w, b, w');
        case Request(count) => RequestKeeps(n, w, count, w');
        case Try => TryKeeps(n, w, w');
      }
    }
  }

  lemma {:induction false} DistinctCount(s: seq<nat>)
    requires Distinct(s)
    ensures |Elements(s)| == |s|
  {
    if |s| > 0 {
      var k := |s| - 1;
      DistinctCount(s[..k]);
      assert s == s[..k] + [s[k]];
      assert Elements(s) == Elements(s[..k]) + {s[k]};
    }
  }

  /** Free and owned buffers always add up to the size of the pool, and no buffer is both or neither. */
  lemma BuffersAreConserved(n: nat, ops: seq<Op>)
    requires Run(n, ops).Some?
    ensures var w := Run(n, ops).value;
            && |w.pool.free| + |w.owner| == n
            && forall b: nat :: b < n ==> (b in w.pool.free <==> b !in w.owner)
  {
    RunsKeepPool(n, ops);
    var w := Run(n, ops).value;
    DistinctCount(w.pool.free);
    DistinctCount(All(n));
    assert |w.owner.Keys| == |w.owner|;
    forall b: nat | b < n ensures b in w.pool.free <==> b !in w.owner {
      assert All(n)[b] in Elements(All(n));
      assert b in Elements(w.pool.free) <==> b in w.pool.free;
    }
  }

  /** Requests that had to wait are served strictly in the order they came, each with exactly the number
      of buffers it asked for, all different. */
  lemma WaitersServedInOrder(n: nat, ops: seq<Op>, i: nat)
    requires Run(n, ops).Some? && i < |Run(n, ops).value.served|
    ensures var w := Run(n, ops).value;
            && |w.served| + |w.pool.waiters| == |w.queued|
            && w.served[i].waiter == w.queued[i]
            && |w.served[i].buffers| == w.queued[i].count && Distinct(w.served[i].buffers)
            && w.pool.waiters == w.queued[|w.served|..]
  {
    RunsKeepPool(n, ops);
    var w := Run(n, ops).value;
    assert w.queued[i] == Waiters(w.served)[i];
  }

  /** A buffer changes hands only when its owner frees it. */
  lemma NoSecondOwner(n: nat, ops: seq<Op>, op: Op, b: nat)
    requires Run(n, ops).Some? && Step(Run(n, ops).value, op).Some?
    requires b in Run(n, ops).value.owner && op != Free(b)
    ensures var w, w' := Run(n, ops).value, Step(Run(n, ops).value, op).value;
            b in w'.owner && w'.owner[b] == w.owner[b]
  {
    RunsKeepPool(n, ops);
    assert b !in Elements(Run(n, ops).value.pool.free);
  }

  /** All buffers free and a waiter whose request could ever be met at the front never coexist. */
  lemma AllFreeMeansUnsatisfiable(n: nat, ops: seq<Op>)
    requires Run(n, ops).Some? && Run(n, ops).value.owner == map[]
    ensures var w := Run(n, ops).value; w.pool.waiters != [] ==> w.pool.waiters[0].count > n
  {
    RunsKeepPool(n, ops);
    BuffersAreConserved(n, ops);
  }

  /** `try_allocate` gives a buffer that nobody owned if and only if there is one, and takes none from anybody. */
  lemma TryServedIff(n: nat, ops: seq<Op>)
    requires Run(n, ops).Some? && Step(Run(n, ops).value, Try).Some?
    ensures var w, w' := Run(n, ops).value, Step(Run(n, ops).value, Try).value;
            if |w.owner| == n then w'.owner == w.owner
            else exists b: nat :: b < n && b !in w.owner && w'.owner == w.owner[b := w.next]
  {
    RunsKeepPool(n, ops);
    BuffersAreConserved(n, ops);
    var w := Run(n, ops).value;
    if w.pool.free != [] {
      var b := w.pool.free[0];
      assert b in Elements(w.pool.free) && b in Elements(All(n)) && b < n && b !in w.owner;
    }
  }

  /** The request with this id owns exactly these buffers, which nobody owned before. */
  predicate Served(n: nat, owner: map<nat, nat>, owner': map<nat, nat>, buffers: seq<nat>, id: nat) {
    && Distinct(buffers) && owner' == Give(owner, buffers, id)
    && forall i :: 0 <= i < |buffers| ==> buffers[i] < n && buffers[i] !in owner
  }

  lemma TakenWereFree(n: nat, free: seq<nat>, owner: map<nat, nat>, count: nat, id: nat)
    requires Partition(n, free, owner) && count <= |free|
    ensures Served(n, owner, Give(owner, free[..count], id), free[..count], id)
  {
    forall i | 0 <= i < count ensures free[..count][i] < n && free[..count][i] !in owner {
      assert free[i] in Elements(free) && free[i] in Elements(All(n));
    }
  }

  /** A request is served at once if and only if there are as many buffers that nobody owns, whoever else waits;
      then it owns exactly its count of them. Otherwise it waits behind all others. */
  lemma RequestServedIff(n: nat, ops: seq<Op>, count: nat) returns (buffers: seq<nat>)
    requires Run(n, ops).Some? && Step(Run(n, ops).value, Request(count)).Some?
    ensures var w, w' := Run(n, ops).value, Step(Run(n, ops).value, Request(count)).value;
            if |w.owner| + count <= n then
              && w'.pool.waiters == w.pool.waiters && w'.queued == w.queued
              && |buffers| == count && Served(n, w.owner, w'.owner, buffers, w.next)
            else w'.owner == w.owner && w'.pool.waiters == w.pool.waiters + [Waiter(w.next, count)]
  {
    RunsKeepPool(n, ops);
    var w := Run(n, ops).value;
    assert |w.pool.free| + |w.owner| == n by { BuffersAreConserved(n, ops); }
    buffers := [];
    if count <= |w.pool.free| {
      buffers := w.pool.free[..count];
      TakenWereFree(n, w.pool.free, w.owner, count, w.next);
    }
  }

  /** Buffers are reused in stack order: the one freed last, if nobody waited for it, is handed out next. */
  lemma LastFreedFirst(n: nat, ops: seq<Op>, b: nat)
    requires Run(n, ops).Some? && b in Run(n, ops).value.owner
    ensures var w := Run(n, ops).value; var w1 := Step(w, Free(b));
            && w1.Some? && (b !in w1.value.owner ==>
                 var w2 := Step(w1.value, Try); w2.Some? && w2.value.owner == w1.value.owner[b := w.next])
  {
    RunsKeepPool(n, ops);
  }

  // ---------------------------------------------------------------- where each buffer's memory is

  const MEMORY_UNIT_SIZE: nat := 2 * 1024 * 1024

  function BuffersPerUnit(size: nat): nat
    requires 0 < size <= MEMORY_UNIT_SIZE
  {
    MEMORY_UNIT_SIZE / size
  }

  function UnitOf(size: nat, i: nat): nat
    requires 0 < size <= MEMORY_UNIT_SIZE
  {
    i / BuffersPerUnit(size)
  }

  function OffsetInUnit(size: nat, i: nat): nat
    requires 0 < size <= MEMORY_UNIT_SIZE
  {
    i % BuffersPerUnit(size) * size
  }

  /** `initialize_registered` registers one unit per group of buffers. */
  method RegisterUnits(count: nat, size: nat) returns (units: nat)
    requires 0 < size <= MEMORY_UNIT_SIZE
    ensures forall i: nat :: i < count ==> UnitOf(size, i) < units
    ensures units > 0 ==> exists i: nat :: i < count && UnitOf(size, i) == units - 1
  {
    var per := BuffersPerUnit(size);
    units := 0;
    var i := 0;
    while i < count
      invariant i == units * per
      invariant units > 0 ==> (units - 1) * per < count
    {
      units := units + 1;
      i := i + per;
    }
    forall k: nat | k < count ensures UnitOf(size, k) < units { DivBelow(k, per, units); }
    if units > 0 {
      DivModUnique((units - 1) * per, per, units - 1, 0);
      assert UnitOf(size, (units - 1) * per) == units - 1;
    }
  }

  lemma OffsetFits(size: nat, i: nat)
    requires 0 < size <= MEMORY_UNIT_SIZE
    ensures OffsetInUnit(size, i) + size <= MEMORY_UNIT_SIZE
  {
    var per := BuffersPerUnit(size);
    assert (i % per + 1) * size == i % per * size + size;
    MulMono(i % per + 1, per, size);
    assert per * size <= MEMORY_UNIT_SIZE;
  }

  /** No two buffers share a byte of memory, and each lies inside its unit. */
  lemma BuffersDoNotOverlap(size: nat, i: nat, j: nat)
    requires 0 < size <= MEMORY_UNIT_SIZE && i != j
    ensures OffsetInUnit(size, i) + size <= MEMORY_UNIT_SIZE
    ensures UnitOf(size, i) == UnitOf(size, j) ==>
              || OffsetInUnit(size, i) + size <= OffsetInUnit(size, j)
              || OffsetInUnit(size, j) + size <= OffsetInUnit(size, i)
  {
    OffsetFits(size, i);
    var per := BuffersPerUnit(size);
    var a, b := i % per, j % per;
    if UnitOf(size, i) == UnitOf(size, j) {
      if a < b {
        MulMono(a + 1, b, size);
      } else {
        MulMono(b + 1, a, size);
      }
    }
  }
}
