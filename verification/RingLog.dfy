/** The in-memory log device: a ring of bytes that stands for the live window of an unbounded log, with
    its trim, flush and commit positions. */
module RingLog {
  import opened Common
  import opened Arith
  import opened RingWindow
  import opened SlotMath

  datatype Status = Ok | LogClosed | TrimRequired

  /** The ring holds bytes `[trim, |log|)` of the log. */
  ghost predicate Holds(ring: seq<Byte>, log: seq<Byte>, trim: nat) {
    && |ring| > 0 && trim <= |log|
    && forall i :: trim <= i < |log| ==> ring[i % |ring|] == log[i]
  }

  /** Writing just past the log, within the capacity, touches none of its live bytes. */
  lemma WriteBeyond(ring: seq<Byte>, log: seq<Byte>, trim: nat, at: nat, b: Byte)
    requires Holds(ring, log, trim) && |log| <= at < trim + |ring|
    ensures Holds(ring[at % |ring| := b], log, trim)
  {
    forall i | trim <= i < |log| ensures ring[at % |ring| := b][i % |ring|] == log[i] {
      if i % |ring| == at % |ring| { SameRemainder(i, at, |ring|); }
      assert ring[i % |ring|] == log[i];
    }
  }

  lemma Extend(ring: seq<Byte>, log: seq<Byte>, trim: nat, n: nat)
    requires Holds(ring, log, trim)
    ensures Holds(ring, log + Window(ring, |log|, n), trim)
  {}

  class RingLog {
    const ring: array<Byte>
    var trim: nat
    var commit: nat
    var manualFlush: nat
    var autoFlush: bool
    var closed: bool
    var prepared: Option<nat>
    /** The size of the region `prepare` returned. */
    var preparedSize: nat
    ghost var log: seq<Byte>

    /** `flush_pos_` points at the commit position or at the manual one. */
    function Flush(): nat
      reads this
    {
      if autoFlush then commit else manualFlush
    }

    ghost predicate Valid()
      reads this, ring
    {
      && 0 < ring.Length < TWO_63
      && trim <= Flush() <= commit <= trim + ring.Length
      && manualFlush <= commit
      && |log| == commit && Holds(ring[..], log, trim)
      && (prepared.Some? ==> prepared.value == commit && commit + preparedSize <= trim + ring.Length)
    }

    constructor (size: nat)
      requires 0 < size < TWO_63
      ensures Valid() && fresh(ring) && ring.Length == size && trim == commit == 0 && autoFlush && !closed
              && prepared.None?
    {
      ring := new Byte[size];
      trim, commit, manualFlush := 0, 0, 0;
      autoFlush, closed, prepared, preparedSize := true, false, None, 0;
      log := [];
    }

    /** The bytes that can be added before the log must be trimmed. */
    method Space() returns (n: nat)
      requires Valid()
      ensures n == trim + ring.Length - commit
    {
      SlotDistanceIsDistance(trim, commit);
      n := ring.Length - SlotDistance(trim, commit);
    }

    method Prepare(byteCount: nat, headRoom: nat) returns (status: Status)
      requires Valid() && prepared.None?
      modifies this`prepared, this`preparedSize
      ensures Valid()
      ensures status == if closed then LogClosed
                        else if trim + ring.Length - commit < byteCount + headRoom then TrimRequired else Ok
      ensures status.Ok? ==> prepared == Some(commit) && preparedSize == byteCount
      ensures !status.Ok? ==> prepared.None?
    {
      if closed {
        return LogClosed;
      }
      var space := Space();
      if space < byteCount + headRoom {
        return TrimRequired;
      }
      prepared, preparedSize := Some(commit), byteCount;
      return Ok;
    }

    /** The caller fills byte `i` of the prepared region. */
    method Write(i: nat, b: Byte)
      requires Valid() && prepared.Some? && i < preparedSize
      modifies ring
      ensures Valid() && ring[..] == old(ring[..])[(commit + i) % ring.Length := b]
    {
      WriteBeyond(ring[..], log, trim, commit + i, b);
      ring[(prepared.value + i) % ring.Length] := b;
      assert ring[..] == old(ring[..])[(commit + i) % ring.Length := b];
    }

    /** Whatever the outcome the region is given up; on success the log grows by the first `byteCount`
        bytes of it. */
    method Commit(byteCount: nat) returns (status: Status)
      requires Valid() && (closed || (prepared.Some? && byteCount <= preparedSize))
      modifies this`commit, this`prepared, this`log
      ensures Valid() && prepared.None? && Flush() >= old(Flush())
      ensures status == if closed then LogClosed else Ok
      ensures log == if closed then old(log) else old(log) + Window(ring[..], old(commit), byteCount)
    {
      if closed {
        prepared := None;
        return LogClosed;
      }
      Extend(ring[..], log, trim, byteCount);
      log := log + Window(ring[..], commit, byteCount);
      commit := prepared.value + byteCount;
      prepared := None;
      return Ok;
    }

    /** The caller trims at most up to the flush position. */
    method Trim(to: nat)
      requires Valid() && trim <= to <= Flush()
      modifies this`trim
      ensures Valid() && trim == to
    {
      trim := to;
    }

    /** A reader of the live window sees the log. */
    method Read(from: nat, end: nat) returns (bytes: seq<Byte>)
      requires Valid() && trim <= from <= end <= commit
      ensures bytes == log[from..end]
    {
      bytes := [];
      var i := from;
      while i < end
        invariant from <= i <= end && bytes == Window(ring[..], from, i - from)
      {
        bytes := bytes + [ring[i % ring.Length]];
        i := i + 1;
      }
    }

    method SyncFlushPos()
      requires Valid()
      modifies this`manualFlush
      ensures Valid() && manualFlush == commit && Flush() == commit
    {
      manualFlush := commit;
    }

    /** Switching the mode flushes everything, and switching to the current mode does nothing. */
    method SetAutoFlush(on: bool)
      requires Valid()
      modifies this`manualFlush, this`autoFlush
      ensures Valid() && autoFlush == on && Flush() >= old(Flush())
      ensures Flush() == if on == old(autoFlush) then old(Flush()) else commit
    {
      if on == autoFlush {
        return;
      }
      SyncFlushPos();
      autoFlush := on;
    }

    method UnflushedSize() returns (n: nat)
      requires Valid()
      ensures n == commit - Flush()
    {
      if autoFlush {
        return 0;
      }
      SlotDistanceIsDistance(Flush(), commit);
      n := SlotDistance(Flush(), commit);
    }

    /** Advances by `delta` clamped to what is unflushed. The least 64-bit delta flushes everything; with nothing
        to flush it would move the position by 2^63. */
    method AdvanceFlushPos(delta: int) returns (advanced: int)
      requires Valid() && -TWO_63 <= delta < TWO_63 && (delta == -TWO_63 ==> autoFlush || Flush() < commit)
      modifies this`manualFlush
      ensures Valid() && Flush() == old(Flush()) + advanced
      ensures advanced == if autoFlush then 0
                          else if delta == -TWO_63 then commit - old(Flush())
                          else Clamp(delta, 0, commit - old(Flush()))
    {
      if autoFlush {
        return 0;
      }
      var unflushed := UnflushedSize();
      ClampBySlotsExact(delta, unflushed);
      ClampBySlotsAtMinimum(unflushed);
      advanced := ClampBySlots(delta, unflushed);
      manualFlush := manualFlush + advanced;
    }

    /** Brings the flush position up to `offset`, never back and never past the commit position; returns
        the distance moved, or the position itself in automatic mode. Every 64-bit offset stands for one such
        integer. At distance 2^63 from the flush position the distance would not be found; see
        `SlotDistance`. */
    method FlushUpToOffset(offset: int) returns (r: nat)
      requires Valid() && -TWO_63 < commit - offset <= TWO_63
      requires commit - offset == TWO_63 ==> autoFlush || Flush() < commit
      modifies this`manualFlush
      ensures Valid() && Flush() == if autoFlush then commit else Clamp(offset, old(Flush()), commit)
      ensures r == if autoFlush then commit else Flush() - old(Flush())
    {
      if autoFlush {
        return Flush();
      }
      SlotLessIsLess(offset, commit);
      var target := SlotMin(offset, commit);
      r := ClampMinSlot(target);
    }

    /** `clamp_min_slot` on the manual flush position. */
    method ClampMinSlot(min: int) returns (delta: nat)
      requires Valid() && !autoFlush && min <= commit && manualFlush - min < TWO_63
      modifies this`manualFlush
      ensures Valid() && manualFlush == (if old(manualFlush) < min then min else old(manualFlush))
      ensures delta == manualFlush - old(manualFlush)
    {
      SlotLessIsLess(manualFlush, min);
      if SlotLess(manualFlush, min) {
        SlotDistanceIsDistance(manualFlush, min);
        delta := SlotDistance(manualFlush, min);
        manualFlush := min;
      } else {
        delta := 0;
      }
    }

    method Close()
      requires Valid()
      modifies this`closed
      ensures Valid() && closed
    {
      closed := true;
    }
  }

  /** Waiting for space is waiting for the trim position the writer computes, on 64-bit words: it is reached
      exactly when that many bytes fit. */
  lemma AwaitedTrimGivesSpace(trim: nat, commit: nat, capacity: nat, size: nat)
    requires trim <= commit <= trim + capacity && size <= capacity < TWO_63
    ensures !SlotLess(U64(trim), U64(commit - capacity + size)) <==> trim + capacity - commit >= size
  {
    SlotLessIsLess(trim, commit - capacity + size);
  }

  /** The caller fills the prepared region. */
  method Fill(device: RingLog, record: seq<Byte>)
    requires device.Valid() && device.prepared.Some? && |record| <= device.preparedSize
    modifies device.ring
    ensures device.Valid() && Window(device.ring[..], device.commit, |record|) == record
  {
    var i := 0;
    while i < |record|
      invariant i <= |record| && device.Valid()
      invariant Window(device.ring[..], device.commit, i) == record[..i]
    {
      WindowGrows(device.ring[..], device.commit, i, record[i]);
      device.Write(i, record[i]);
      assert record[..i + 1] == record[..i] + [record[i]];
      i := i + 1;
    }
    assert record[..i] == record;
  }

  /** Appending a record: prepare, fill, commit. The log grows by exactly the record, or the space was
      insufficient and nothing changed. */
  method Append(device: RingLog, record: seq<Byte>) returns (status: Status)
    requires device.Valid() && device.prepared.None?
    modifies device`prepared, device`preparedSize, device`commit, device`log, device.ring
    ensures device.Valid() && device.prepared.None?
    ensures status.Ok? <==> !device.closed && |record| <= device.trim + device.ring.Length - old(device.commit)
    ensures device.log == if status.Ok? then old(device.log) + record else old(device.log)
  {
    status := device.Prepare(|record|, 0);
    if !status.Ok? {
      return;
    }
    Fill(device, record);
    status := device.Commit(|record|);
  }

  lemma OtherByteStays(ring: seq<Byte>, at: nat, other: nat, b: Byte)
    requires other < at < other + |ring|
    ensures ring[at % |ring| := b][other % |ring|] == ring[other % |ring|]
  {
    if other % |ring| == at % |ring| { SameRemainder(other, at, |ring|); }
  }

  lemma WindowGrows(ring: seq<Byte>, from: nat, n: nat, b: Byte)
    requires 0 <= n < |ring|
    ensures Window(ring[(from + n) % |ring| := b], from, n + 1) == Window(ring, from, n) + [b]
  {
    var after := ring[(from + n) % |ring| := b];
    var grown, expected := Window(after, from, n + 1), Window(ring, from, n) + [b];
    forall i | 0 <= i < n + 1 ensures grown[i] == expected[i] {
      if i < n { OtherByteStays(ring, from + n, from + i, b); }
    }
  }
}
