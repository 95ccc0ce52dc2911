/** Rebuilding the ring buffer of a log from its block images, read in any order. */
module LogRecovery {
  import opened Common
  import opened Arith
  import opened ArrayCopy
  import opened RingWindow
  import opened SlotMath
  import opened SlotIntervalMap
  import SlotScan

  /** A block as read from disk: the header fields that recovery uses, and the payload. */
  datatype Block = Block(slotOffset: nat, commitSize: nat, trimPos: nat, payload: seq<Byte>)

  /** What block validation and the checked casts guarantee, for a ring of `n` bytes. */
  predicate BlockOk(b: Block, n: nat) {
    b.commitSize <= |b.payload| && b.commitSize <= n && b.slotOffset + b.commitSize < TWO_63
  }

  // ---------------------------------------------------------------- which block a ring position shows

  /** The payload index that falls on ring position `p`. */
  function RingIndex(b: Block, n: nat, p: int): (i: nat)
    requires n > 0
    ensures i < n
  {
    (p - b.slotOffset) % n
  }

  predicate Covers(b: Block, n: nat, p: int)
    requires n > 0
  {
    RingIndex(b, n, p) < b.commitSize
  }

  /** The covering block of greatest slot offset, the later one of two with the same. */
  function Winner(bs: seq<Block>, n: nat, p: int): Option<Block>
    requires n > 0
  {
    if bs == [] then None
    else
      var w, b := Winner(bs[..|bs| - 1], n, p), bs[|bs| - 1];
      if !Covers(b, n, p) || (w.Some? && b.slotOffset < w.value.slotOffset) then w else Some(b)
  }

  lemma {:induction false} WinnerCovers(bs: seq<Block>, n: nat, p: int)
    requires n > 0
    ensures var w := Winner(bs, n, p); w.Some? ==> w.value in bs && Covers(w.value, n, p)
  {
    if bs != [] { WinnerCovers(bs[..|bs| - 1], n, p); }
  }

  /** No covering block has a greater slot offset than the winner, and there is one if any block covers. */
  lemma {:induction false} WinnerIsGreatest(bs: seq<Block>, n: nat, p: int, b: Block)
    requires n > 0 && b in bs && Covers(b, n, p)
    ensures Winner(bs, n, p).Some? && b.slotOffset <= Winner(bs, n, p).value.slotOffset
  {
    var k := |bs| - 1;
    if b != bs[k] || b in bs[..k] {
      WinnerIsGreatest(bs[..k], n, p, b);
    }
  }

  predicate DistinctSlots(bs: seq<Block>) {
    forall i, j :: 0 <= i < j < |bs| ==> bs[i].slotOffset != bs[j].slotOffset
  }

  /** With distinct slot offsets the order in which blocks are read makes no difference. */
  lemma WinnerIgnoresOrder(bs: seq<Block>, cs: seq<Block>, n: nat, p: int)
    requires n > 0 && DistinctSlots(bs) && (forall b :: b in bs <==> b in cs)
    ensures Winner(bs, n, p) == Winner(cs, n, p)
  {
    WinnerCovers(bs, n, p);
    WinnerCovers(cs, n, p);
    var w, v := Winner(bs, n, p), Winner(cs, n, p);
    if w.Some? { WinnerIsGreatest(cs, n, p, w.value); }
    if v.Some? { WinnerIsGreatest(bs, n, p, v.value); }
    if w.Some? && v.Some? {
      var i :| 0 <= i < |bs| && bs[i] == w.value;
      var j :| 0 <= j < |bs| && bs[j] == v.value;
      assert bs[i].slotOffset == bs[j].slotOffset;
    }
  }

  // ---------------------------------------------------------------- which offsets are committed

  predicate Holds(b: Block, x: int) { b.slotOffset <= x < b.slotOffset + b.commitSize }

  function Committed(bs: seq<Block>, x: int): bool {
    bs != [] && (Committed(bs[..|bs| - 1], x) || Holds(bs[|bs| - 1], x))
  }

  lemma {:induction false} CommittedIff(bs: seq<Block>, x: int)
    ensures Committed(bs, x) <==> exists i :: 0 <= i < |bs| && Holds(bs[i], x)
  {
    if bs != [] {
      var k := |bs| - 1;
      CommittedIff(bs[..k], x);
      assert bs == bs[..k] + [bs[k]];
    }
  }

  // ---------------------------------------------------------------- where a block falls on the ring

  /** The ring positions of a block's data before it wraps around, then after. */
  function FirstSlice(b: Block, n: nat): (int, int)
    requires n > 0
  {
    var begin := b.slotOffset % n;
    (begin, if begin + b.commitSize <= n then begin + b.commitSize else n)
  }

  function SecondSlice(b: Block, n: nat): (int, int)
    requires n > 0
  {
    var begin := b.slotOffset % n;
    (0, if begin + b.commitSize <= n then 0 else begin + b.commitSize - n)
  }

  /** Together the slices are exactly the positions the block covers, in the order of its payload. */
  lemma SlicesCover(b: Block, n: nat, p: int)
    requires n > 0 && b.commitSize <= n && 0 <= p < n
    ensures var begin := b.slotOffset % n; RingIndex(b, n, p) == if begin <= p then p - begin else p - begin + n
    ensures var (lo, hi) := FirstSlice(b, n); var (lo2, hi2) := SecondSlice(b, n);
            && (Covers(b, n, p) <==> lo <= p < hi || lo2 <= p < hi2)
            && !(lo <= p < hi && lo2 <= p < hi2)
  {
    var begin, q := b.slotOffset % n, b.slotOffset / n;
    assert b.slotOffset == q * n + begin;
    if begin <= p {
      assert p - b.slotOffset == (-q) * n + (p - begin);
      DivModUnique(p - b.slotOffset, n, -q, p - begin);
    } else {
      assert p - b.slotOffset == (-q - 1) * n + (p - begin + n);
      DivModUnique(p - b.slotOffset, n, -q - 1, p - begin + n);
    }
  }

  // ---------------------------------------------------------------- copying one slice

  /** Positions that `r` maps to `slot` show the data of the slice from `lo`; all others are as before. */
  ghost predicate Copied(was: seq<Byte>, now: seq<Byte>, lo: int, data: seq<Byte>, r: seq<Entry>, slot: int) {
    && |now| == |was|
    && forall p :: 0 <= p < |was| ==> now[p] == Shown(was[p], lo, data, At(r, p), slot, p)
  }

  function Shown(before: Byte, lo: int, data: seq<Byte>, at: Option<int>, slot: int, p: int): Byte {
    if at == Some(slot) && 0 <= p - lo < |data| then data[p - lo] else before
  }

  predicate Within(r: seq<Entry>, lo: int, hi: int) { forall k :: 0 <= k < |r| ==> lo <= r[k].lo < r[k].hi <= hi }

  lemma AtPrefix(r: seq<Entry>, k: nat, x: int)
    requires Sorted(r) && k < |r|
    ensures At(r[..k + 1], x) == if r[k].lo <= x < r[k].hi then Some(r[k].slot) else At(r[..k], x)
  {
    assert r[..k + 1] == r[..k] + [r[k]];
    AtConcat(r[..k], [r[k]], x);
    if r[k].lo <= x < r[k].hi { AtBelow(r[..k], r[k].lo, x); }
  }

  /** Copying the data of one entry that has the slot. */
  lemma CopyEntry(was: seq<Byte>, now: seq<Byte>, lo: int, data: seq<Byte>, r: seq<Entry>, k: nat, slot: int)
    requires Sorted(r) && k < |r| && Within(r, lo, lo + |data|) && 0 <= lo && lo + |data| <= |was|
    requires Copied(was, now, lo, data, r[..k], slot) && r[k].slot == slot
    ensures Copied(was, Overwrite(now, r[k].lo, data[r[k].lo - lo..r[k].hi - lo]), lo, data, r[..k + 1], slot)
  {
    var e := r[k];
    var after := Overwrite(now, e.lo, data[e.lo - lo..e.hi - lo]);
    forall p | 0 <= p < |was| ensures after[p] == Shown(was[p], lo, data, At(r[..k + 1], p), slot, p) {
      AtPrefix(r, k, p);
      assert now[p] == Shown(was[p], lo, data, At(r[..k], p), slot, p);
    }
  }

  /** An entry with another slot is skipped. */
  lemma SkipEntry(was: seq<Byte>, now: seq<Byte>, lo: int, data: seq<Byte>, r: seq<Entry>, k: nat, slot: int)
    requires Sorted(r) && k < |r| && Copied(was, now, lo, data, r[..k], slot) && r[k].slot != slot
    ensures Copied(was, now, lo, data, r[..k + 1], slot)
  {
    forall p | 0 <= p < |was| ensures now[p] == Shown(was[p], lo, data, At(r[..k + 1], p), slot, p) {
      AtPrefix(r, k, p);
      assert now[p] == Shown(was[p], lo, data, At(r[..k], p), slot, p);
      if r[k].lo <= p < r[k].hi { AtBelow(r[..k], r[k].lo, p); }
    }
  }

  method CopyOne(ghost was: seq<Byte>, ring: array<Byte>, lo: nat, data: seq<Byte>, r: seq<Entry>, k: nat, slot: int)
    requires Sorted(r) && k < |r| && Within(r, lo, lo + |data|) && lo + |data| <= ring.Length
    requires Copied(was, ring[..], lo, data, r[..k], slot)
    modifies ring
    ensures Copied(was, ring[..], lo, data, r[..k + 1], slot)
  {
    var e := r[k];
    if e.slot == slot {
      CopyEntry(was, ring[..], lo, data, r, k, slot);
      CopyInto(ring, e.lo, data[e.lo - lo..e.hi - lo]);
    } else {
      SkipEntry(was, ring[..], lo, data, r, k, slot);
    }
  }

  /** The loop over the entries of one slice. */
  method CopyEntries(ring: array<Byte>, lo: nat, data: seq<Byte>, r: seq<Entry>, slot: int)
    requires Sorted(r) && Within(r, lo, lo + |data|) && lo + |data| <= ring.Length
    modifies ring
    ensures Copied(old(ring[..]), ring[..], lo, data, r, slot)
  {
    ghost var was := ring[..];
    var k: nat := 0;
    while k < |r|
      invariant k <= |r| && Copied(was, ring[..], lo, data, r[..k], slot)
    {
      CopyOne(was, ring, lo, data, r, k, slot);
      k := k + 1;
    }
    assert r[..k] == r;
  }

  // ---------------------------------------------------------------- the ring so far

  function SlotOf(w: Option<Block>): Option<int> { if w.None? then None else Some(w.value.slotOffset) }

  /** The byte that the winner puts at ring position `p`. */
  function ByteAt(w: Option<Block>, n: nat, p: int, otherwise: Byte): Byte
    requires n > 0
  {
    if w.Some? && RingIndex(w.value, n, p) < |w.value.payload| then w.value.payload[RingIndex(w.value, n, p)]
    else otherwise
  }

  /** The interval map knows the winner of every position, and the ring shows its bytes. */
  ghost predicate RingShows(original: seq<Byte>, ring: seq<Byte>, latest: seq<Entry>, bs: seq<Block>) {
    && 0 < |ring| == |original|
    && forall p :: 0 <= p < |ring| ==> Shows(original[p], ring[p], latest, bs, |ring|, p)
  }

  ghost predicate Shows(original: Byte, byte: Byte, latest: seq<Entry>, bs: seq<Block>, n: nat, p: int)
    requires n > 0
  {
    At(latest, p) == SlotOf(Winner(bs, n, p)) && byte == ByteAt(Winner(bs, n, p), n, p, original)
  }

  ghost predicate KnowsCommitted(committed: seq<Entry>, bs: seq<Block>) {
    forall x :: At(committed, x) == if Committed(bs, x) then Some(1) else None
  }

  /** One position before and after a block is recovered: the update raises the slot, and the byte is the
      block's where it now has the slot of the block. */
  lemma OnePosition(
      original: Byte, was: Byte, now: Byte, latest: seq<Entry>, latest': seq<Entry>, bs: seq<Block>, b: Block, n: nat,
      p: int)
    requires n > 0 && BlockOk(b, n) && Shows(original, was, latest, bs, n, p)
    requires At(latest', p) == Join(At(latest, p), if Covers(b, n, p) then Some(b.slotOffset) else None)
    requires now == if Covers(b, n, p) && At(latest', p) == Some(b.slotOffset) then b.payload[RingIndex(b, n, p)]
                    else was
    ensures Shows(original, now, latest', bs + [b], n, p)
  {}

  /** The effect of one slice `[lo, hi)` with its data on ring position `p`. */
  ghost predicate SliceAt(
      was: Byte, now: Byte, es: seq<Entry>, es': seq<Entry>, lo: int, data: seq<Byte>, slot: int, p: int) {
    && At(es', p) == Join(At(es, p), Piece(lo, lo + |data|, slot, p))
    && now == if 0 <= p - lo < |data| && At(es', p) == Some(slot) then data[p - lo] else was
  }

  ghost predicate SliceDone(
      was: seq<Byte>, now: seq<Byte>, es: seq<Entry>, es': seq<Entry>, lo: int, data: seq<Byte>, slot: int) {
    |was| == |now| && forall p :: 0 <= p < |was| ==> SliceAt(was[p], now[p], es, es', lo, data, slot, p)
  }

  lemma SliceEffect(
      was: seq<Byte>, now: seq<Byte>, es: seq<Entry>, es': seq<Entry>, lo: int, data: seq<Byte>, slot: int,
      r: seq<Entry>)
    requires Updated(es, lo, lo + |data|, slot, es') && Queried(es', lo, lo + |data|, r)
             && Copied(was, now, lo, data, r, slot)
    ensures SliceDone(was, now, es, es', lo, data, slot)
  {}

  /** The data of the two slices of a block. */
  function FirstData(b: Block, n: nat): seq<Byte>
    requires n > 0 && BlockOk(b, n)
  {
    var (lo, hi) := FirstSlice(b, n);
    b.payload[..hi - lo]
  }

  function SecondData(b: Block, n: nat): seq<Byte>
    requires n > 0 && BlockOk(b, n)
  {
    var (lo, hi) := FirstSlice(b, n);
    b.payload[hi - lo..b.commitSize]
  }

  /** The two slices of a block, one after the other, recover the block. */
  lemma SlicesRecover(original: seq<Byte>, ring0: seq<Byte>, ring1: seq<Byte>, ring2: seq<Byte>,
                      es0: seq<Entry>, es1: seq<Entry>, es2: seq<Entry>, bs: seq<Block>, b: Block)
    requires RingShows(original, ring0, es0, bs) && BlockOk(b, |ring0|)
    requires SliceDone(ring0, ring1, es0, es1, FirstSlice(b, |ring0|).0, FirstData(b, |ring0|), b.slotOffset)
    requires SliceDone(ring1, ring2, es1, es2, 0, SecondData(b, |ring0|), b.slotOffset)
    ensures RingShows(original, ring2, es2, bs + [b])
  {
    var n := |ring0|;
    forall p | 0 <= p < n ensures Shows(original[p], ring2[p], es2, bs + [b], n, p) {
      SlicesCover(b, n, p);
      assert Shows(original[p], ring0[p], es0, bs, n, p);
      assert SliceAt(ring0[p], ring1[p], es0, es1, FirstSlice(b, n).0, FirstData(b, n), b.slotOffset, p);
      assert SliceAt(ring1[p], ring2[p], es1, es2, 0, SecondData(b, n), b.slotOffset, p);
      OnePosition(original[p], ring0[p], ring2[p], es0, es2, bs, b, n, p);
    }
  }

  lemma NoSlice(ring: seq<Byte>, es: seq<Entry>, slot: int)
    ensures SliceDone(ring, ring, es, es, 0, [], slot)
  {}

  /** A block without committed data changes nothing. */
  lemma EmptyBlock(original: seq<Byte>, ring: seq<Byte>, es: seq<Entry>, bs: seq<Block>, b: Block)
    requires RingShows(original, ring, es, bs) && b.commitSize == 0
    ensures RingShows(original, ring, es, bs + [b])
  {}

  lemma CommitBlock(es: seq<Entry>, es': seq<Entry>, bs: seq<Block>, b: Block)
    requires KnowsCommitted(es, bs) && Updated(es, b.slotOffset, b.slotOffset + b.commitSize, 1, es')
    ensures KnowsCommitted(es', bs + [b])
  {}

  // ---------------------------------------------------------------- the committed run at the trim position

  datatype RunResult = NoData | Contiguous(end: nat) | CheckFailed

  predicate SomeCommitted(bs: seq<Block>, lo: int, hi: int) { exists x :: lo <= x < hi && Committed(bs, x) }

  predicate AllCommitted(bs: seq<Block>, lo: int, hi: int) { forall x :: lo <= x < hi ==> Committed(bs, x) }

  /** `end` is where the committed data that starts at `trim` first stops, or the window of `n` bytes ends. */
  predicate RunEnds(bs: seq<Block>, trim: nat, n: nat, end: nat) {
    && trim < end <= trim + n && AllCommitted(bs, trim, end)
    && (end < trim + n ==> !Committed(bs, end))
  }

  lemma RunEndUnique(bs: seq<Block>, trim: nat, n: nat, e: nat, f: nat)
    requires RunEnds(bs, trim, n, e) && RunEnds(bs, trim, n, f)
    ensures e == f
  {}

  /** A sorted sequence maps the start of each entry to its slot. */
  lemma AtStart(r: seq<Entry>, k: nat)
    requires Sorted(r) && k < |r|
    ensures At(r, r[k].lo) == Some(r[k].slot)
  {
    assert r == r[..k] + r[k..];
    AtConcat(r[..k], r[k..], r[k].lo);
    AtBelow(r[..k], r[k].lo, r[k].lo);
  }

  /** A query of the committed data, which only ever has slot 1. */
  ghost predicate QueryOf(bs: seq<Block>, trim: nat, n: nat, r: seq<Entry>) {
    && Sorted(r) && Merged(r) && n > 0
    && (forall k :: 0 <= k < |r| ==> trim <= r[k].lo && r[k].hi <= trim + n)
    && forall x :: At(r, x) == if trim <= x < trim + n && Committed(bs, x) then Some(1) else None
  }

  lemma QueryIs(es: seq<Entry>, bs: seq<Block>, trim: nat, n: nat, r: seq<Entry>)
    requires KnowsCommitted(es, bs) && Queried(es, trim, trim + n, r) && n > 0
    ensures QueryOf(bs, trim, n, r)
  {}

  lemma EntryCommitted(bs: seq<Block>, trim: nat, n: nat, r: seq<Entry>, k: nat)
    requires QueryOf(bs, trim, n, r) && k < |r|
    ensures r[k].slot == 1 && Committed(bs, r[k].lo)
  {
    AtStart(r, k);
  }

  /** The check that touching intervals were merged never fails. */
  lemma IntervalsMerged(bs: seq<Block>, trim: nat, n: nat, r: seq<Entry>)
    requires QueryOf(bs, trim, n, r) && |r| > 1
    ensures r[0].hi < r[1].lo
  {
    EntryCommitted(bs, trim, n, r, 0);
    EntryCommitted(bs, trim, n, r, 1);
    assert Apart(r[0], r[1]);
  }

  lemma FirstIsRun(bs: seq<Block>, trim: nat, n: nat, r: seq<Entry>)
    requires QueryOf(bs, trim, n, r) && r != [] && r[0].lo == trim
    ensures RunEnds(bs, trim, n, r[0].hi)
  {
    var end := r[0].hi;
    EntryCommitted(bs, trim, n, r, 0);
    forall x | trim <= x < end ensures Committed(bs, x) {
      assert At(r, x) == Some(1);
    }
    if end < trim + n {
      if |r| > 1 { IntervalsMerged(bs, trim, n, r); }
      AtAbove(r[1..], end + 1, end);
      assert At(r, end) == None;
    }
  }

  lemma NothingQueried(bs: seq<Block>, trim: nat, n: nat)
    requires QueryOf(bs, trim, n, [])
    ensures !SomeCommitted(bs, trim, trim + n)
  {}

  /** The data in the window does not start at the trim position. */
  lemma FirstIsLate(bs: seq<Block>, trim: nat, n: nat, r: seq<Entry>)
    requires QueryOf(bs, trim, n, r) && r != [] && r[0].lo != trim
    ensures !Committed(bs, trim) && SomeCommitted(bs, trim, trim + n)
  {
    EntryCommitted(bs, trim, n, r, 0);
    AtAbove(r, r[0].lo, trim);
    assert At(r, trim) == None;
  }

  // ---------------------------------------------------------------- reading the blocks

  /** What reading a block gives: an error, or an image that may not be a log block at all. */
  datatype Image = Unreadable | Image(magicOk: bool, block: Block)

  datatype Status = Ok | ReadError | BadMagic | CommitSizeOverflow

  /** The size of every image's payload, and the range of its positions. A good block holds no more committed
      data than the ring. */
  predicate ImageOk(im: Image, capacity: nat, n: nat) {
    im.Image? ==>
      && |im.block.payload| == capacity && im.block.slotOffset + capacity < TWO_63 && im.block.trimPos < TWO_63
      && (im.magicOk && im.block.commitSize <= capacity ==> im.block.commitSize <= n)
  }

  function Validate(im: Image, capacity: nat): Status {
    if im.Unreadable? then ReadError
    else if !im.magicOk then BadMagic
    else if im.block.commitSize > capacity then CommitSizeOverflow
    else Ok
  }

  /** A log block, with no more data than fits. */
  predicate GoodImage(im: Image, capacity: nat) { im.Image? && im.magicOk && im.block.commitSize <= capacity }

  /** The block count recovery believes in after reading block `i` of `count`; `wrap` is the number of bytes
      the log holds before it first wraps around the disk. */
  function KnownAfter(known: nat, i: nat, b: Block, capacity: nat, count: nat, wrap: nat): nat {
    if known >= count then known
    else if b.slotOffset >= wrap then count
    else if b.commitSize == capacity then i + 2
    else known
  }

  /** The blocks of the first `k` images. */
  function Blocks(disk: seq<Image>, k: nat): seq<Block>
    requires k <= |disk| && forall i :: 0 <= i < k ==> disk[i].Image?
  {
    if k == 0 then [] else Blocks(disk, k - 1) + [disk[k - 1].block]
  }

  /** The first `k` images are good. While fewer than all blocks are believed in, none of them is from after
      a wrap around, and all are full but the last, which is full if and only if the next is believed in. */
  ghost predicate ReadSoFar(disk: seq<Image>, capacity: nat, wrap: nat, k: nat, known: nat) {
    && k <= known <= |disk|
    && (forall i :: 0 <= i < k ==> GoodImage(disk[i], capacity))
    && (known < |disk| ==>
          && (forall i :: 0 <= i < k ==> disk[i].block.slotOffset < wrap)
          && (forall i :: 0 <= i < k - 1 ==> disk[i].block.commitSize == capacity)
          && (k < known ==> known == k + 1)
          && (k > 0 ==> (disk[k - 1].block.commitSize == capacity <==> k < known)))
    && (known == |disk| && 0 < k < |disk| ==>
          WrappedBefore(disk, wrap, k) || (k + 1 == |disk| && disk[k - 1].block.commitSize == capacity))
    && (known == |disk| && k == 0 ==> |disk| == 1)
  }

  /** One of the first `k` blocks is from after a wrap around the disk. */
  predicate WrappedBefore(disk: seq<Image>, wrap: nat, k: nat) {
    k <= |disk| && exists i :: 0 <= i < k && disk[i].Image? && disk[i].block.slotOffset >= wrap
  }

  /** With the first `i` blocks good, block `i` is to be read: it is the first, or the one before it is full, or
      the log has wrapped around. */
  predicate Wanted(disk: seq<Image>, capacity: nat, i: nat) {
    && i < |disk|
    && (|| i == 0
        || (disk[i - 1].Image? && disk[i - 1].block.commitSize == capacity)
        || WrappedBefore(disk, |disk| * capacity, i))
  }

  /** Whether the loop goes on is whether the next block is to be read. */
  lemma GoesOn(disk: seq<Image>, capacity: nat, k: nat, known: nat)
    requires ReadSoFar(disk, capacity, |disk| * capacity, k, known) && |disk| > 0 && (k == 0 ==> known > 0)
    ensures k < known <==> Wanted(disk, capacity, k)
  {
    assert k > 0 ==> GoodImage(disk[k - 1], capacity);
  }

  lemma ReadNext(disk: seq<Image>, capacity: nat, wrap: nat, k: nat, known: nat)
    requires ReadSoFar(disk, capacity, wrap, k, known) && k < known && GoodImage(disk[k], capacity)
    ensures ReadSoFar(disk, capacity, wrap, k + 1, KnownAfter(known, k, disk[k].block, capacity, |disk|, wrap))
  {}

  function MaxTrim(bs: seq<Block>): Option<nat> {
    if bs == [] then None
    else
      var t, b := MaxTrim(bs[..|bs| - 1]), bs[|bs| - 1];
      if t.Some? && t.value >= b.trimPos then t else Some(b.trimPos)
  }

  /** The trim position recovered is the greatest of any block read. */
  lemma {:induction false} MaxTrimIsGreatest(bs: seq<Block>)
    requires bs != []
    ensures MaxTrim(bs).Some? && (exists i :: 0 <= i < |bs| && bs[i].trimPos == MaxTrim(bs).value)
    ensures forall i :: 0 <= i < |bs| ==> bs[i].trimPos <= MaxTrim(bs).value
  {
    var k := |bs| - 1;
    if k > 0 {
      MaxTrimIsGreatest(bs[..k]);
      var i :| 0 <= i < k && bs[..k][i].trimPos == MaxTrim(bs[..k]).value;
      assert forall j :: 0 <= j < k ==> bs[..k][j] == bs[j];
      assert MaxTrim(bs).value == bs[i].trimPos || MaxTrim(bs).value == bs[k].trimPos;
    } else {
      assert MaxTrim(bs[..0]) == None && bs[0].trimPos == MaxTrim(bs).value;
    }
  }

  lemma MaxTrimNext(bs: seq<Block>, b: Block)
    ensures MaxTrim(bs + [b]) == var t := MaxTrim(bs); if t.Some? && t.value >= b.trimPos then t else Some(b.trimPos)
  {}

  // ---------------------------------------------------------------- recovery

  datatype Outcome = Recovered | NotAtTrim | Endless

  /** What the scan of the data behind the trim position makes of the flush position: it goes on forever
      exactly if a header it meets claims all of 2^64 bytes, and finds the end of the last whole slot exactly
      if no header behind whole slots claims a size that wraps to one that fits. */
  ghost predicate FlushFound(data: seq<Byte>, trim: nat, outcome: Outcome, flushPos: Option<nat>) {
    && (outcome.Endless? <==> !SlotScan.NoneClaimsAll(data, 0))
    && (outcome.Recovered? ==>
          flushPos.Some? && flushPos.value >= trim && SlotScan.EndsAt(data, 0, flushPos.value - trim))
    && (outcome.Recovered? && flushPos == Some(trim + SlotScan.LastWhole(data, 0)) <==> SlotScan.NeverWraps(data, 0))
  }

  class Recovery {
    const ring: array<Byte>
    const committed: SlotIntervalMap
    const latest: SlotIntervalMap
    var trimPos: Option<nat>
    var flushPos: Option<nat>
    ghost var original: seq<Byte>
    ghost var blocks: seq<Block>

    /** The two maps and the ring reflect exactly the blocks recovered so far. */
    ghost predicate Valid()
      reads this, ring, committed, latest
    {
      && ring.Length < TWO_63 && committed != latest && committed.Valid() && latest.Valid()
      && committed.base == latest.base == 0
      && RingShows(original, ring[..], latest.entries, blocks) && KnowsCommitted(committed.entries, blocks)
    }

    constructor (buffer: array<Byte>)
      requires 0 < buffer.Length < TWO_63
      ensures Valid() && ring == buffer && fresh(committed) && fresh(latest) && blocks == [] && original == buffer[..]
      ensures trimPos.None? && flushPos.None?
    {
      trimPos, flushPos := None, None;
      ring := buffer;
      committed := new SlotIntervalMap(0);
      latest := new SlotIntervalMap(0);
      original, blocks := buffer[..], [];
      new;
      assert forall p :: 0 <= p < |original| ==> Shows(original[p], ring[..][p], [], [], |original|, p);
    }

    /** One slice: raise the slots, then copy the data of the entries that carry the block's slot. */
    method RecoverSlice(lo: nat, data: seq<Byte>, slot: int)
      requires latest.Valid() && latest.base == 0 && 0 <= slot < TWO_63 && data != [] && lo + |data| <= ring.Length
      modifies ring, latest`entries
      ensures latest.Valid() && SliceDone(old(ring[..]), ring[..], old(latest.entries), latest.entries, lo, data, slot)
    {
      latest.Update(lo, lo + |data|, slot);
      var r := latest.Query(lo, lo + |data|);
      CopyEntries(ring, lo, data, r, slot);
      SliceEffect(old(ring[..]), ring[..], old(latest.entries), latest.entries, lo, data, slot, r);
    }

    /** After any number of blocks in any order, every ring position shows the covering block of greatest
        slot offset. */
    method RecoverBlockData(b: Block)
      requires Valid() && BlockOk(b, ring.Length)
      modifies this`blocks, ring, committed`entries, latest`entries
      ensures Valid() && blocks == old(blocks) + [b]
    {
      committed.Update(b.slotOffset, b.slotOffset + b.commitSize, 1);
      CommitBlock(old(committed.entries), committed.entries, blocks, b);
      if b.commitSize == 0 {
        EmptyBlock(original, ring[..], latest.entries, blocks, b);
        blocks := blocks + [b];
        return;
      }
      ghost var ring0, es0 := ring[..], latest.entries;
      var n := ring.Length;
      RecoverSlice(FirstSlice(b, n).0, FirstData(b, n), b.slotOffset);
      ghost var ring1, es1 := ring[..], latest.entries;
      if SecondData(b, n) == [] {
        NoSlice(ring1, es1, b.slotOffset);
      } else {
        RecoverSlice(0, SecondData(b, n), b.slotOffset);
      }
      SlicesRecover(original, ring0, ring1, ring[..], es0, es1, latest.entries, blocks, b);
      blocks := blocks + [b];
    }

    function GetTrimPos(): nat
      reads this
    {
      if trimPos.None? then 0 else trimPos.value
    }

    /** The contiguous committed data at the trim position. The check that it starts there fails exactly
        when the trim position itself holds no committed data but the window after it does. */
    method CommittedRun() returns (result: RunResult)
      requires Valid()
      ensures var trim, n := GetTrimPos(), ring.Length;
              match result {
                case NoData => !SomeCommitted(blocks, trim, trim + n)
                case Contiguous(end) => RunEnds(blocks, trim, n, end)
                case CheckFailed => !Committed(blocks, trim) && SomeCommitted(blocks, trim, trim + n)
              }
    {
      var trim, n := GetTrimPos(), ring.Length;
      var r := committed.Query(trim, trim + n);
      QueryIs(committed.entries, blocks, trim, n, r);
      if r == [] {
        NothingQueried(blocks, trim, n);
        return NoData;
      }
      if r[0].lo != trim {
        FirstIsLate(blocks, trim, n, r);
        return CheckFailed;
      }
      if |r| > 1 {
        IntervalsMerged(blocks, trim, n, r);
        SlotLessIsLess(r[0].hi, r[1].lo);
        assert SlotLess(r[0].hi, r[1].lo);
      }
      FirstIsRun(blocks, trim, n, r);
      return Contiguous(r[0].hi);
    }

    /** `clamp_min_slot` on the trim position. */
    method RaiseTrim(pos: nat)
      requires pos < TWO_63 && (trimPos.Some? ==> trimPos.value < TWO_63)
      modifies this`trimPos
      ensures trimPos == Some(if old(trimPos).Some? && old(trimPos).value >= pos then old(trimPos).value else pos)
    {
      if trimPos.Some? {
        SlotLessIsLess(trimPos.value, pos);
        trimPos := Some(if SlotLess(trimPos.value, pos) then pos else trimPos.value);
      } else {
        trimPos := Some(pos);
      }
    }

    /** One good block: its trim position, then its data. */
    method TakeBlock(b: Block)
      requires Valid() && BlockOk(b, ring.Length) && b.trimPos < TWO_63 && trimPos == MaxTrim(blocks)
      requires trimPos.Some? ==> trimPos.value < TWO_63
      modifies this`blocks, this`trimPos, ring, committed`entries, latest`entries
      ensures Valid() && blocks == old(blocks) + [b] && trimPos == MaxTrim(blocks) && trimPos.Some?
              && trimPos.value < TWO_63
    {
      MaxTrimNext(blocks, b);
      RaiseTrim(b.trimPos);
      RecoverBlockData(b);
    }

    /** The loop of `run` over the blocks of the disk. Neither check on the number of blocks fails, not
        even on a bad block, whose header is used before it is validated; the loop reads `count` good blocks,
        all of them or up to the first block that is not full, or stops at the first bad one. */
    method ReadBlocks(disk: seq<Image>, capacity: nat) returns (status: Status, count: nat)
      requires Valid() && blocks == [] && trimPos.None? && |disk| > 0
      requires forall i :: 0 <= i < |disk| ==> ImageOk(disk[i], capacity, ring.Length)
      modifies this`blocks, this`trimPos, ring, committed`entries, latest`entries
      ensures Valid() && count <= |disk| && (forall i :: 0 <= i < count ==> disk[i].Image?)
      ensures blocks == Blocks(disk, count) && trimPos == MaxTrim(blocks)
      ensures forall i :: 0 <= i < count ==> GoodImage(disk[i], capacity) && Wanted(disk, capacity, i)
      ensures status.Ok? <==> !Wanted(disk, capacity, count)
      ensures status.ReadError? <==> Wanted(disk, capacity, count) && disk[count].Unreadable?
      ensures status.BadMagic? <==> Wanted(disk, capacity, count) && disk[count].Image? && !disk[count].magicOk
      ensures status.CommitSizeOverflow? <==>
                && Wanted(disk, capacity, count) && disk[count].Image? && disk[count].magicOk
                && disk[count].block.commitSize > capacity
      ensures status.Ok? ==> ReadSoFar(disk, capacity, |disk| * capacity, count, count)
    {
      var known: nat := 1;
      var wrap := |disk| * capacity;
      count, status := 0, Ok;
      while count < known
        invariant Valid() && ReadSoFar(disk, capacity, wrap, count, known) && blocks == Blocks(disk, count)
        invariant trimPos == MaxTrim(blocks) && (trimPos.Some? ==> trimPos.value < TWO_63) && status.Ok?
        invariant (count == 0 ==> known > 0) && forall i :: 0 <= i < count ==> Wanted(disk, capacity, i)
        decreases |disk| - count
      {
        assert known <= |disk|;
        GoesOn(disk, capacity, count, known);
        assert ImageOk(disk[count], capacity, ring.Length);
        status := Validate(disk[count], capacity);
        if status.ReadError? {
          return;
        }
        var b := disk[count].block;
        var next := KnownAfter(known, count, b, capacity, |disk|, wrap);
        assert known < |disk| && b.slotOffset < wrap && b.commitSize == capacity ==> count + 2 > known;
        if !status.Ok? {
          return;
        }
        ReadNext(disk, capacity, wrap, count, known);
        TakeBlock(b);
        known, count := next, count + 1;
      }
      GoesOn(disk, capacity, count, known);
    }

    /** The flush position is the end of the last whole slot in the contiguous committed data at the trim
        position, unless a header there claims a size that wraps; see `FlushFound`. The scan may not end, and
        the check that the data starts at the trim position may fail. */
    method RecoverFlushPos() returns (outcome: Outcome)
      requires Valid()
      modifies this`flushPos
      ensures var trim, n := GetTrimPos(), ring.Length;
              && (outcome.NotAtTrim? <==> !Committed(blocks, trim) && SomeCommitted(blocks, trim, trim + n))
              && (!SomeCommitted(blocks, trim, trim + n) ==> outcome.Recovered? && flushPos == trimPos)
              && (!outcome.Recovered? ==> flushPos == old(flushPos))
              && (Committed(blocks, trim) ==>
                    exists end: nat :: RunEnds(blocks, trim, n, end)
                      && FlushFound(Window(ring[..], trim, end - trim), trim, outcome, flushPos))
    {
      var trim := GetTrimPos();
      var run := CommittedRun();
      if run.NoData? {
        flushPos := trimPos;
        assert trim < trim + ring.Length;
        return Recovered;
      }
      if run.CheckFailed? {
        return NotAtTrim;
      }
      assert Committed(blocks, trim);
      var k := SlotScan.Scan(Window(ring[..], trim, run.end - trim));
      if k.None? {
        return Endless;
      }
      flushPos := Some(trim + k.value);
      return Recovered;
    }
  }

  // ---------------------------------------------------------------- what recovery can rely on

  lemma {:induction false} BlocksAt(disk: seq<Image>, k: nat, i: nat)
    requires k <= |disk| && (forall j :: 0 <= j < k ==> disk[j].Image?) && i < k
    ensures |Blocks(disk, k)| == k && Blocks(disk, k)[i] == disk[i].block
  {
    if k > 1 { BlocksAt(disk, k - 1, if i < k - 1 then i else 0); }
  }

  /** A disk of one good block, whose only byte lies behind its trim position: the check on the first interval
      fails. */
  lemma GapAtTrim()
    ensures var disk := [Image(true, Block(1, 1, 0, [7]))];
            && (forall i :: 0 <= i < |disk| ==> ImageOk(disk[i], 1, 2)) && ReadSoFar(disk, 1, 1, 1, 1)
            && MaxTrim(Blocks(disk, 1)) == Some(0)
            && !Committed(Blocks(disk, 1), 0) && SomeCommitted(Blocks(disk, 1), 0, 2)
  {
    var disk := [Image(true, Block(1, 1, 0, [7]))];
    BlocksAt(disk, 1, 0);
    CommittedIff(Blocks(disk, 1), 0);
    CommittedIff(Blocks(disk, 1), 1);
    assert Holds(Blocks(disk, 1)[0], 1);
  }

  /** The log has not wrapped around the disk: each block read is at its own place. */
  predicate InPlace(disk: seq<Image>, capacity: nat, count: nat) {
    count <= |disk| && forall i :: 0 <= i < count ==> disk[i].Image? && disk[i].block.slotOffset == i * capacity
  }

  /** Where the data in the first `count` blocks ends. */
  function DataEnd(disk: seq<Image>, capacity: nat, count: nat): nat
    requires 0 < count <= |disk| && disk[count - 1].Image?
  {
    (count - 1) * capacity + disk[count - 1].block.commitSize
  }

  /** Every block read before the last is full, and so ends before the last begins. */
  lemma ReadEndsThere(disk: seq<Image>, capacity: nat, count: nat, i: nat)
    requires 0 < count <= |disk| && (forall j :: 0 <= j < count ==> GoodImage(disk[j], capacity))
    requires InPlace(disk, capacity, count) && i < count
    ensures disk[i].block.slotOffset + disk[i].block.commitSize <= DataEnd(disk, capacity, count)
  {
    assert disk[i].block.slotOffset == i * capacity && GoodImage(disk[i], capacity);
    if i < count - 1 {
      MulMono(i + 1, count - 1, capacity);
    }
  }

  /** The blocks read end before the place of the first block not read. */
  lemma DataEndsEarly(disk: seq<Image>, capacity: nat, wrap: nat, count: nat)
    requires ReadSoFar(disk, capacity, wrap, count, count) && 0 < count < |disk|
    ensures DataEnd(disk, capacity, count) < count * capacity
  {}

  lemma ReadNotAtEnd(disk: seq<Image>, capacity: nat, count: nat)
    requires 0 < count <= |disk| && (forall j :: 0 <= j < count ==> GoodImage(disk[j], capacity))
    requires InPlace(disk, capacity, count)
    ensures !Committed(Blocks(disk, count), DataEnd(disk, capacity, count))
  {
    var read, end := Blocks(disk, count), DataEnd(disk, capacity, count);
    BlocksAt(disk, count, 0);
    forall i | 0 <= i < |read| ensures !Holds(read[i], end) {
      BlocksAt(disk, count, i);
      ReadEndsThere(disk, capacity, count, i);
    }
    CommittedIff(read, end);
  }

  lemma {:induction false} CommittedAppend(bs: seq<Block>, cs: seq<Block>, x: int)
    ensures Committed(bs + cs, x) <==> Committed(bs, x) || Committed(cs, x)
    decreases |cs|
  {
    if cs == [] {
      assert bs + cs == bs;
    } else {
      var k := |cs| - 1;
      CommittedAppend(bs, cs[..k], x);
      assert (bs + cs)[..|bs + cs| - 1] == bs + cs[..k];
    }
  }

  lemma UnreadIsBeyond(unread: seq<Block>, bound: nat, x: int)
    requires (forall i :: 0 <= i < |unread| ==> unread[i].slotOffset >= bound) && x < bound
    ensures !Committed(unread, x)
  {}

  /** The early stop loses nothing: when reading stops before the last block of a log that has not wrapped
      around, with the trim position within the data read, the blocks not read cannot move the end of the
      contiguous committed data. */
  lemma EarlyStopLosesNothing(
      disk: seq<Image>, capacity: nat, wrap: nat, count: nat, unread: seq<Block>, trim: nat, n: nat, e: nat)
    requires ReadSoFar(disk, capacity, wrap, count, count) && 0 < count < |disk| && InPlace(disk, capacity, count)
    requires forall i :: 0 <= i < |unread| ==> unread[i].slotOffset >= count * capacity
    requires trim <= DataEnd(disk, capacity, count)
    ensures RunEnds(Blocks(disk, count), trim, n, e) <==> RunEnds(Blocks(disk, count) + unread, trim, n, e)
  {
    var read, end := Blocks(disk, count), DataEnd(disk, capacity, count);
    DataEndsEarly(disk, capacity, wrap, count);
    ReadNotAtEnd(disk, capacity, count);
    forall x | x <= end ensures Committed(read + unread, x) <==> Committed(read, x) {
      CommittedAppend(read, unread, x);
      UnreadIsBeyond(unread, count * capacity, x);
    }
    if trim < e && (AllCommitted(read, trim, e) || AllCommitted(read + unread, trim, e)) {
      assert e <= end;
    }
  }

  /** The block's data is what the log has at its offsets. */
  predicate FromLog(b: Block, log: seq<Byte>) {
    && b.slotOffset + b.commitSize <= |log| && b.commitSize <= |b.payload|
    && b.payload[..b.commitSize] == log[b.slotOffset..b.slotOffset + b.commitSize]
  }

  /** The winner of the ring position of a live offset is a block that holds that very offset. */
  lemma WinnerIsCurrent(bs: seq<Block>, n: nat, trim: nat, x: nat)
    requires n > 0 && trim <= x < trim + n && Committed(bs, x)
    requires forall i :: 0 <= i < |bs| ==> bs[i].commitSize <= n && bs[i].slotOffset + bs[i].commitSize <= trim + n
    ensures var w := Winner(bs, n, x % n);
            w.Some? && w.value in bs && Holds(w.value, x) && RingIndex(w.value, n, x % n) == x - w.value.slotOffset
  {
    CommittedIff(bs, x);
    var i :| 0 <= i < |bs| && Holds(bs[i], x);
    var b, p := bs[i], x % n;
    IndexOf(b, n, x);
    WinnerIsGreatest(bs, n, p, b);
    WinnerCovers(bs, n, p);
    var w := Winner(bs, n, p).value;
    var j :| 0 <= j < |bs| && bs[j] == w;
    SameOffset(b, w, n, trim, x);
  }

  /** A block of no lower slot offset, with data in the window, on the position of an offset `x` that `b`
      holds: its byte there is the one for `x`. */
  lemma SameOffset(b: Block, w: Block, n: nat, trim: nat, x: nat)
    requires n > 0 && trim <= x < trim + n && Holds(b, x) && b.commitSize <= n
    requires Covers(w, n, x % n) && b.slotOffset <= w.slotOffset && w.slotOffset + w.commitSize <= trim + n
    ensures Holds(w, x) && RingIndex(w, n, x % n) == x - w.slotOffset
  {
    var y := w.slotOffset + RingIndex(w, n, x % n);
    SamePosition(w, n, x);
    ZeroRemainder(y - x, n);
  }

  /** The payload index on the ring position of an offset that the block holds. */
  lemma IndexOf(b: Block, n: nat, x: nat)
    requires n > 0 && Holds(b, x) && b.commitSize <= n
    ensures RingIndex(b, n, x % n) == x - b.slotOffset
  {
    var q := x / n;
    assert x % n - b.slotOffset == (-q) * n + (x - b.slotOffset);
    DivModUnique(x % n - b.slotOffset, n, -q, x - b.slotOffset);
  }

  lemma SamePosition(b: Block, n: nat, x: nat)
    requires n > 0
    ensures (b.slotOffset + RingIndex(b, n, x % n) - x) % n == 0
  {
    var z := x % n - b.slotOffset;
    var q, q' := x / n, z / n;
    assert b.slotOffset + z % n - x == (-q' - q) * n by {
      assert z == q' * n + z % n && x == q * n + x % n;
      assert (-q' - q) * n == -(q' * n) - q * n;
    }
    DivModUnique(b.slotOffset + z % n - x, n, -q' - q, 0);
  }

  lemma ZeroRemainder(d: int, n: nat)
    requires n > 0 && d % n == 0 && -(n as int) < d < n
    ensures d == 0
  {}

  /** Recovery restores the log: if every block read holds bytes of the log, none of them from beyond the
      window of the ring at the trim position, then the ring shows the log on the contiguous committed
      data. */
  lemma RecoveredIsLog(
      original: seq<Byte>, ring: seq<Byte>, latest: seq<Entry>, bs: seq<Block>, log: seq<Byte>, trim: nat, end: nat)
    requires RingShows(original, ring, latest, bs) && trim <= end <= trim + |ring| && AllCommitted(bs, trim, end)
             && end <= |log|
    requires forall i :: 0 <= i < |bs| ==>
               FromLog(bs[i], log) && bs[i].commitSize <= |ring| && bs[i].slotOffset + bs[i].commitSize <= trim + |ring|
    ensures Window(ring, trim, end - trim) == log[trim..end]
  {
    var n := |ring|;
    forall k | 0 <= k < end - trim ensures Window(ring, trim, end - trim)[k] == log[trim..end][k] {
      var x := trim + k;
      assert Committed(bs, x);
      WinnerIsCurrent(bs, n, trim, x);
      var w := Winner(bs, n, x % n).value;
      var j :| 0 <= j < |bs| && bs[j] == w;
      assert Shows(original[x % n], ring[x % n], latest, bs, n, x % n);
      assert w.payload[..w.commitSize][x - w.slotOffset]
          == log[w.slotOffset..w.slotOffset + w.commitSize][x - w.slotOffset];
    }
  }

  lemma FlushOfTornData(
      data: seq<Byte>, trim: nat, bodies: seq<seq<Byte>>, j: nat, outcome: Outcome, flushPos: Option<nat>)
    requires data <= SlotScan.Written(bodies) && |SlotScan.Written(bodies)| < TWO_64
    requires j <= |bodies| && |SlotScan.Written(bodies[..j])| <= |data|
    requires j < |bodies| ==> |data| < |SlotScan.Written(bodies[..j + 1])|
    requires FlushFound(data, trim, outcome, flushPos)
    ensures outcome.Recovered? && flushPos == Some(trim + |SlotScan.Written(bodies[..j])|)
  {
    assert data[0..] == data;
    SlotScan.TornFrom(data, 0, bodies, j);
  }

  /** Recovery of a log that the slot writer wrote: the flush position found is the end of the last slot that
      lies within the contiguous committed data, whatever else is on the disk. */
  lemma FlushPosOfWrittenLog(
      original: seq<Byte>, ring: seq<Byte>, latest: seq<Entry>, bs: seq<Block>, log: seq<Byte>, trim: nat, end: nat,
      bodies: seq<seq<Byte>>, j: nat, outcome: Outcome, flushPos: Option<nat>)
    requires RingShows(original, ring, latest, bs) && trim <= end <= trim + |ring| && AllCommitted(bs, trim, end)
    requires forall i :: 0 <= i < |bs| ==>
               && FromLog(bs[i], log) && bs[i].commitSize <= |ring|
               && bs[i].slotOffset + bs[i].commitSize <= trim + |ring|
    requires end <= |log| < TWO_64 && log[trim..] == SlotScan.Written(bodies)
    requires j <= |bodies| && trim + |SlotScan.Written(bodies[..j])| <= end
    requires j < |bodies| ==> end < trim + |SlotScan.Written(bodies[..j + 1])|
    requires FlushFound(Window(ring, trim, end - trim), trim, outcome, flushPos)
    ensures outcome.Recovered? && flushPos == Some(trim + |SlotScan.Written(bodies[..j])|)
  {
    var data := Window(ring, trim, end - trim);
    RecoveredIsLog(original, ring, latest, bs, log, trim, end);
    assert data == SlotScan.Written(bodies)[..end - trim];
    FlushOfTornData(data, trim, bodies, j, outcome, flushPos);
  }
}
