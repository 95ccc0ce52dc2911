/** Where a log's bytes go on disk: logical blocks of a fixed payload size, laid out round robin over the
    physical blocks. */
module LogBlocks {
  import opened Arith

  const HEADER_SIZE: nat := 64

  function Capacity(blockSize: nat): nat
    requires blockSize > HEADER_SIZE
  {
    blockSize - HEADER_SIZE
  }

  /** `disk_size_required_for_log_size`. */
  function DiskSizeRequired(logicalSize: nat, blockSize: nat): nat
    requires blockSize > HEADER_SIZE
  {
    var capacity := Capacity(blockSize);
    blockSize * ((logicalSize + capacity - 1) / capacity + 1)
  }

  function BlockCount(physicalSize: nat, blockSize: nat): nat
    requires blockSize > HEADER_SIZE
  {
    physicalSize / blockSize
  }

  function LogicalIndex(offset: nat, capacity: nat): nat
    requires capacity > 0
  {
    offset / capacity
  }

  function PhysicalIndex(logicalIndex: nat, blockCount: nat): nat
    requires blockCount > 0
  {
    logicalIndex % blockCount
  }

  /** A log of 1000 bytes in blocks of 512, each with a header of 64: three blocks and one more. */
  lemma DiskSizeOf1000()
    ensures DiskSizeRequired(1000, 512) == 4 * 512 && DiskSizeRequired(3 * 448, 512) == 4 * 512
    ensures DiskSizeRequired(3 * 448 + 1, 512) == 5 * 512 && BlockCount(4 * 512, 512) == 4
  {}

  /** The first blocks of the log lie at their own places, and each time round the disk the same again. */
  lemma BlocksInPlace(i: nat, blockCount: nat)
    requires blockCount > 0
    ensures i < blockCount ==> PhysicalIndex(i, blockCount) == i
    ensures PhysicalIndex(i + blockCount, blockCount) == PhysicalIndex(i, blockCount) < blockCount
  {
    var q, r := i / blockCount, i % blockCount;
    DivModUnique(i + blockCount, blockCount, q + 1, r);
    if i < blockCount { DivModUnique(i, blockCount, 0, i); }
  }

  /** `block_slot_range_from`. */
  function BlockRange(logicalIndex: nat, capacity: nat): (nat, nat) {
    (logicalIndex * capacity, logicalIndex * capacity + capacity)
  }

  /** The range of a block is exactly the offsets that belong to it. */
  lemma BlockRangeExact(offset: nat, index: nat, capacity: nat)
    requires capacity > 0
    ensures LogicalIndex(offset, capacity) == index
            <==> BlockRange(index, capacity).0 <= offset < BlockRange(index, capacity).1
  {
    if BlockRange(index, capacity).0 <= offset < BlockRange(index, capacity).1 {
      DivModUnique(offset, capacity, index, offset - index * capacity);
    }
  }

  /** Bytes `a` and `b` of one window are in different logical blocks that share a physical one. */
  ghost predicate Collides(size: nat, capacity: nat, blockCount: nat, start: nat, a: nat, b: nat)
    requires capacity > 0 && blockCount > 0
  {
    && start <= a < start + size && start <= b < start + size
    && LogicalIndex(a, capacity) != LogicalIndex(b, capacity)
    && PhysicalIndex(LogicalIndex(a, capacity), blockCount) == PhysicalIndex(LogicalIndex(b, capacity), blockCount)
  }

  /** No window of `size` bytes, however aligned, has two live blocks in one place. */
  ghost predicate NeverOverwrites(size: nat, capacity: nat, blockCount: nat)
    requires capacity > 0 && blockCount > 0
  {
    forall start: nat, a: nat, b: nat :: !Collides(size, capacity, blockCount, start, a, b)
  }

  /** The most blocks a window of `size` bytes can touch. */
  function MostTouched(size: nat, capacity: nat): nat
    requires capacity > 0 && size > 0
  {
    (size + capacity - 2) / capacity + 1
  }

  /** Blocks in one window are less than `MostTouched` apart. */
  lemma WindowSpan(size: nat, capacity: nat, start: nat, a: nat, b: nat)
    requires capacity > 0 && start <= a <= b < start + size
    ensures 0 <= LogicalIndex(b, capacity) - LogicalIndex(a, capacity) < MostTouched(size, capacity)
  {
    var x, y := a / capacity, b / capacity;
    assert x * capacity <= a && b == y * capacity + b % capacity;
    if y < x {
      MulMono(y + 1, x, capacity);
    }
    assert a < x * capacity + capacity;
    var d := y - x;
    assert d * capacity == y * capacity - x * capacity;
    DivAtLeast(size + capacity - 2, capacity, d);
  }

  lemma DivAtLeast(n: nat, m: nat, q: int)
    requires m > 0 && q * m <= n
    ensures q <= n / m
  {
    if q > n / m {
      MulMono(n / m + 1, q, m);
    }
  }

  /** Never overwriting live data takes exactly as many blocks as a window can touch. */
  lemma BlocksNeeded(size: nat, capacity: nat, blockCount: nat)
    requires capacity > 0 && blockCount > 0 && size > 0
    ensures NeverOverwrites(size, capacity, blockCount) <==> blockCount >= MostTouched(size, capacity)
  {
    if blockCount >= MostTouched(size, capacity) {
      forall start: nat, a: nat, b: nat ensures !Collides(size, capacity, blockCount, start, a, b) {
        if Collides(size, capacity, blockCount, start, a, b) {
          var lo, hi := if a <= b then a else b, if a <= b then b else a;
          WindowSpan(size, capacity, start, lo, hi);
          SameRemainder(LogicalIndex(lo, capacity), LogicalIndex(hi, capacity), blockCount);
        }
      }
    } else {
      TooFewBlocks(size, capacity, blockCount);
    }
  }

  /** With fewer blocks the window that starts at the last byte of the first block wraps onto it. */
  lemma TooFewBlocks(size: nat, capacity: nat, blockCount: nat)
    requires capacity > 0 && size > 0 && 0 < blockCount < MostTouched(size, capacity)
    ensures Collides(size, capacity, blockCount, capacity - 1, capacity - 1, blockCount * capacity)
  {
    var last := size + capacity - 2;
    MulMono(blockCount, last / capacity, capacity);
    MulMono(1, blockCount, capacity);
    DivModUnique(blockCount * capacity, capacity, blockCount, 0);
    DivModUnique(capacity - 1, capacity, 0, capacity - 1);
  }

  /** The number of blocks in the size the library computes. */
  lemma RequiredCount(logicalSize: nat, blockSize: nat)
    requires blockSize > HEADER_SIZE
    ensures var capacity := Capacity(blockSize); var size := DiskSizeRequired(logicalSize, blockSize);
            && size % blockSize == 0
            && BlockCount(size, blockSize) == (logicalSize + capacity - 1) / capacity + 1
  {
    var capacity := Capacity(blockSize);
    var count := (logicalSize + capacity - 1) / capacity + 1;
    assert blockSize * count == count * blockSize;
    DivModUnique(count * blockSize, blockSize, count, 0);
  }

  /** Flushing live data never overwrites live data: with the disk size the library computes, any two
      logical blocks touched by an unaligned window of `logicalSize` bytes lie in different physical
      blocks. One block fewer would do if and only if the size is one more than a multiple of the
      block capacity. */
  lemma LiveDataIsSafe(logicalSize: nat, blockSize: nat)
    requires blockSize > HEADER_SIZE && logicalSize > 0
    ensures var count := BlockCount(DiskSizeRequired(logicalSize, blockSize), blockSize);
            && NeverOverwrites(logicalSize, Capacity(blockSize), count)
            && count >= 2
            && (NeverOverwrites(logicalSize, Capacity(blockSize), count - 1)
                <==> (logicalSize - 1) % Capacity(blockSize) == 0)
  {
    var capacity := Capacity(blockSize);
    RequiredCount(logicalSize, blockSize);
    var q, r := (logicalSize - 1) / capacity, (logicalSize - 1) % capacity;
    assert logicalSize - 1 == q * capacity + r;
    DivModUnique(logicalSize + capacity - 1, capacity, q + 1, r);
    if r == 0 {
      DivModUnique(logicalSize + capacity - 2, capacity, q, capacity - 1);
    } else {
      DivModUnique(logicalSize + capacity - 2, capacity, q + 1, r - 1);
    }
    BlocksNeeded(logicalSize, capacity, q + 2);
    BlocksNeeded(logicalSize, capacity, q + 1);
  }
}
