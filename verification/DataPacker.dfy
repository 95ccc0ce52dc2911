/** Packing byte strings into one buffer, records from the front and data from the back, and reading them
    again. */
module DataPacker {
  import opened Common
  import opened ArrayCopy
  import opened PackedBytes

  // ---------------------------------------------------------------- where things are

  /** The bytes of data that the first `k` strings take from the back of the buffer. */
  function Back(strings: seq<seq<Byte>>, k: nat): nat
    requires k <= |strings|
  {
    if k == 0 then 0 else Back(strings, k - 1) + DataBytes(strings[k - 1])
  }

  /** Record `i` is at `8 * i`; its data is above all data packed after it. */
  function DataAt(strings: seq<seq<Byte>>, length: nat, i: nat): int
    requires i < |strings|
  {
    length - Back(strings, i + 1)
  }

  lemma {:induction false} BackMonotone(strings: seq<seq<Byte>>, i: nat, j: nat)
    requires i <= j <= |strings|
    ensures Back(strings, i) <= Back(strings, j)
    decreases j
  {
    if i < j { BackMonotone(strings, i, j - 1); }
  }

  lemma {:induction false} BackAppend(strings: seq<seq<Byte>>, s: seq<Byte>, k: nat)
    requires k <= |strings|
    ensures Back(strings + [s], k) == Back(strings, k)
    decreases k
  {
    if k > 0 { BackAppend(strings, s, k - 1); }
  }

  /** Records and data of any two strings lie in bounds and do not overlap, and no record overlaps any data. */
  lemma RegionsDisjoint(strings: seq<seq<Byte>>, length: nat, i: nat, j: nat)
    requires RECORD_SIZE * |strings| + Back(strings, |strings|) <= length && i < j < |strings|
    ensures RECORD_SIZE * i + RECORD_SIZE <= RECORD_SIZE * j
    ensures RECORD_SIZE * j + RECORD_SIZE <= DataAt(strings, length, j)
    ensures DataAt(strings, length, j) + DataBytes(strings[j]) <= DataAt(strings, length, i)
    ensures DataAt(strings, length, i) + DataBytes(strings[i]) <= length
  {
    BackMonotone(strings, i + 1, j);
    BackMonotone(strings, j + 1, |strings|);
  }

  /** Every string has its record and its data in the buffer. */
  predicate Holds(buf: seq<Byte>, strings: seq<seq<Byte>>) {
    forall i :: 0 <= i < |strings| ==> HoldsAt(buf, strings, i)
  }

  predicate HoldsAt(buf: seq<Byte>, strings: seq<seq<Byte>>, i: nat)
    requires i < |strings|
  {
    DataAt(strings, |buf|, i) >= 0 && RecordIs(buf, RECORD_SIZE * i, strings[i], DataAt(strings, |buf|, i))
  }

  /** Every record still reads as the string it was packed for, if that is shorter than 2^24. */
  lemma AllReadBack(buf: seq<Byte>, strings: seq<seq<Byte>>, i: nat)
    requires Holds(buf, strings) && i < |strings|
    ensures InBounds(buf, RECORD_SIZE * i) && (AsStr(buf, RECORD_SIZE * i) == strings[i] <==> |strings[i]| < TWO_24)
  {
    assert HoldsAt(buf, strings, i);
    RecordReadsBack(buf, RECORD_SIZE * i, strings[i], DataAt(strings, |buf|, i));
  }

  /** The front and back of the free part of the buffer after packing some strings. */
  predicate Layout(length: nat, strings: seq<seq<Byte>>, begin: nat, end: nat) {
    begin == RECORD_SIZE * |strings| && end == length - Back(strings, |strings|) && begin <= end <= length
  }

  /** Packing a string leaves the earlier ones as they were. */
  lemma EarlierStay(
      buf: seq<Byte>, buf': seq<Byte>, strings: seq<seq<Byte>>, s: seq<Byte>, begin: nat, end: nat, i: nat)
    requires Layout(|buf|, strings, begin, end) && Holds(buf, strings) && |buf'| == |buf| && i < |strings|
    requires buf'[..begin] == buf[..begin] && buf'[end..] == buf[end..]
    ensures HoldsAt(buf', strings + [s], i)
  {
    assert HoldsAt(buf, strings, i);
    var rec, data := RECORD_SIZE * i, DataAt(strings, |buf|, i);
    BackAppend(strings, s, i + 1);
    BackMonotone(strings, i + 1, |strings|);
    SlicePrefix(buf, buf', begin, rec, rec + RECORD_SIZE);
    SliceSuffix(buf, buf', end, data, data + DataBytes(strings[i]));
    RecordStays(buf, buf', rec, strings[i], data);
  }

  lemma SlicePrefix(a: seq<Byte>, b: seq<Byte>, n: nat, i: nat, j: nat)
    requires |a| == |b| && i <= j <= n <= |a| && b[..n] == a[..n]
    ensures b[i..j] == a[i..j]
  {
    assert b[i..j] == b[..n][i..j] && a[i..j] == a[..n][i..j];
  }

  lemma SliceSuffix(a: seq<Byte>, b: seq<Byte>, n: nat, i: nat, j: nat)
    requires |a| == |b| && n <= i <= j <= |a| && b[n..] == a[n..]
    ensures b[i..j] == a[i..j]
  {
    var x, y := b[i..j], a[i..j];
    forall k | 0 <= k < j - i ensures x[k] == y[k] {
      assert b[n..][i - n + k] == a[n..][i - n + k];
    }
  }

  /** What packing writes. */
  function Written(buf: seq<Byte>, rec: nat, s: seq<Byte>, data: nat): (r: seq<Byte>)
    requires rec + RECORD_SIZE <= data && data + DataBytes(s) <= |buf|
    ensures |r| == |buf|
  {
    if Inline(s) then WriteInline(buf, rec, s) else WriteLarge(buf, rec, s, data)
  }

  lemma PackLayout(length: nat, strings: seq<seq<Byte>>, s: seq<Byte>, begin: nat, end: nat)
    requires Layout(length, strings, begin, end) && begin + RECORD_SIZE + DataBytes(s) <= end
    ensures Layout(length, strings + [s], begin + RECORD_SIZE, end - DataBytes(s))
    ensures DataAt(strings + [s], length, |strings|) == end - DataBytes(s)
  {
    BackAppend(strings, s, |strings|);
  }

  /** A record at `begin` can tell the place of data that ends at `end`. */
  predicate Tells(s: seq<Byte>, begin: nat, end: nat) { Inline(s) || end - |s| - begin < TWO_24 }

  /** The string just packed is there. */
  lemma NewHolds(buf: seq<Byte>, strings: seq<seq<Byte>>, s: seq<Byte>, begin: nat, end: nat)
    requires Layout(|buf|, strings, begin, end) && begin + RECORD_SIZE + DataBytes(s) <= end && Tells(s, begin, end)
    ensures HoldsAt(Written(buf, begin, s, end - DataBytes(s)), strings + [s], |strings|)
  {
    PackLayout(|buf|, strings, s, begin, end);
    var data := end - DataBytes(s);
    if Inline(s) { WriteInlineIs(buf, begin, s, data); } else { WriteLargeIs(buf, begin, s, data); }
  }

  lemma PackHolds(buf: seq<Byte>, strings: seq<seq<Byte>>, s: seq<Byte>, begin: nat, end: nat)
    requires Layout(|buf|, strings, begin, end) && Holds(buf, strings) && begin + RECORD_SIZE + DataBytes(s) <= end
    requires Tells(s, begin, end)
    ensures Holds(Written(buf, begin, s, end - DataBytes(s)), strings + [s])
  {
    var buf' := Written(buf, begin, s, end - DataBytes(s));
    WrittenElsewhere(buf, s, begin, end);
    forall i | 0 <= i < |strings + [s]| ensures HoldsAt(buf', strings + [s], i) {
      if i < |strings| {
        EarlierStay(buf, buf', strings, s, begin, end, i);
      } else {
        NewHolds(buf, strings, s, begin, end);
      }
    }
  }

  lemma WrittenElsewhere(buf: seq<Byte>, s: seq<Byte>, begin: nat, end: nat)
    requires begin + RECORD_SIZE + DataBytes(s) <= end <= |buf|
    ensures var buf' := Written(buf, begin, s, end - DataBytes(s));
            buf'[..begin] == buf[..begin] && buf'[end..] == buf[end..]
  {
    var data := end - DataBytes(s);
    WriteElsewhere(buf, begin, s, data, 0, begin);
    WriteElsewhere(buf, begin, s, data, end, |buf|);
    var buf' := Written(buf, begin, s, data);
    assert buf'[..begin] == buf'[0..begin] && buf[..begin] == buf[0..begin];
    assert buf'[end..] == buf'[end..|buf|] && buf[end..] == buf[end..|buf|];
  }

  /** The bytes of the string just written are where its record says. */
  lemma WrittenData(buf: seq<Byte>, s: seq<Byte>, begin: nat, end: nat)
    requires begin + RECORD_SIZE + DataBytes(s) <= end <= |buf|
    ensures var at := if Inline(s) then begin + RECORD_SIZE - |s| else end - |s|;
            Written(buf, begin, s, end - DataBytes(s))[at..at + |s|] == s
  {}

  // ---------------------------------------------------------------- the arena

  /** The part of the buffer that is still free, taken from both ends. */
  class Arena {
    var begin: nat
    var end: nat
    var full: bool

    ghost predicate Valid()
      reads this
    {
      begin <= end
    }

    constructor (from: nat, to: nat)
      requires from <= to
      ensures Valid() && begin == from && end == to && !full
    {
      begin, end, full := from, to, false;
    }

    function Space(): nat
      requires Valid()
      reads this
    {
      end - begin
    }

    /** What is returned lies at the front of what was free, and is free no longer; a request that does not fit
        only sets the full flag. */
    method AllocateFront(size: nat) returns (at: Option<nat>)
      requires Valid()
      modifies this
      ensures Valid() && end == old(end)
      ensures size <= old(Space()) ==> at == Some(old(begin)) && begin == old(begin) + size && full == old(full)
      ensures size > old(Space()) ==> at.None? && begin == old(begin) && full
    {
      if size > Space() {
        full := true;
        return None;
      }
      at := Some(begin);
      begin := begin + size;
    }

    method AllocateBack(size: nat) returns (at: Option<nat>)
      requires Valid()
      modifies this
      ensures Valid() && begin == old(begin)
      ensures size <= old(Space()) ==> at == Some(end) && end == old(end) - size && full == old(full)
      ensures size > old(Space()) ==> at.None? && end == old(end) && full
    {
      if size > Space() {
        full := true;
        return None;
      }
      end := end - size;
      at := Some(end);
    }

    /** `reserve_back`: a part of the arena becomes an arena of its own, so allocations from the two never meet. */
    method ReserveBack(size: nat) returns (part: Option<Arena>)
      requires Valid()
      modifies this
      ensures Valid() && begin == old(begin)
      ensures part.Some? <==> size <= old(Space())
      ensures part.Some? ==>
                fresh(part.value) && part.value.Valid() && part.value.begin == end && part.value.end == old(end)
                && part.value.Space() == size
    {
      var at := AllocateBack(size);
      if at.None? {
        return None;
      }
      var a := new Arena(at.value, at.value + size);
      part := Some(a);
    }
  }

  // ---------------------------------------------------------------- the packer

  /** Packing gives the place of the data, or finds no room, or fails a check. */
  datatype PackResult = Packed(at: nat) | Full | CheckFailed

  class DataPacker {
    const buf: array<Byte>
    const arena: Arena
    /** The strings packed so far. */
    ghost var strings: seq<seq<Byte>>

    ghost predicate Valid()
      reads this, buf, arena
    {
      arena.Valid() && Layout(buf.Length, strings, arena.begin, arena.end) && Holds(buf[..], strings)
    }

    constructor (buffer: array<Byte>)
      ensures Valid() && fresh(arena) && buf == buffer && strings == [] && !arena.full
    {
      buf := buffer;
      arena := new Arena(0, buffer.Length);
      strings := [];
    }

    /** The packer is full exactly if it was or there is no room for the string's record and its data; the check
        on the record's offset fails exactly if there is room but the data lies 2^24 bytes or more behind the
        record; otherwise the string is added, and every string packed before is still there. */
    method PackString(s: seq<Byte>) returns (r: PackResult)
      requires Valid()
      modifies this`strings, buf, arena
      ensures r.Full? <==> old(arena.full) || RECORD_SIZE + DataBytes(s) > old(arena.Space())
      ensures r.CheckFailed? <==> !r.Full? && !Tells(s, old(arena.begin), old(arena.end))
      ensures r.Packed? ==> Valid() && strings == old(strings) + [s] && !arena.full
      ensures r.Packed? ==> r.at + |s| <= buf.Length && buf[r.at..r.at + |s|] == s
      ensures r.Full? ==> Valid() && strings == old(strings) && arena.full && buf[..] == old(buf[..])
    {
      if arena.full || arena.Space() < RECORD_SIZE + DataBytes(s) {
        arena.full := true;
        return Full;
      }
      ghost var before, begin, end := buf[..], arena.begin, arena.end;
      var at := WriteString(s);
      if at.None? {
        return CheckFailed;
      }
      PackLayout(buf.Length, strings, s, begin, end);
      PackHolds(before, strings, s, begin, end);
      WrittenData(before, s, begin, end);
      strings := strings + [s];
      return Packed(at.value);
    }

    /** The record, and the data outside it if there is any; nothing if the check on the offset fails. */
    method WriteString(s: seq<Byte>) returns (at: Option<nat>)
      requires arena.Valid() && RECORD_SIZE + DataBytes(s) <= arena.Space() && arena.end <= buf.Length
      modifies buf, arena
      ensures at.Some? <==> Tells(s, old(arena.begin), old(arena.end))
      ensures arena.Valid() && arena.begin == old(arena.begin) + RECORD_SIZE
              && arena.end == old(arena.end) - DataBytes(s)
      ensures arena.full == old(arena.full)
      ensures at.Some? ==> buf[..] == Written(old(buf[..]), old(arena.begin), s, arena.end)
      ensures at.Some? ==> at.value == if Inline(s) then old(arena.begin) + RECORD_SIZE - |s| else arena.end
    {
      var rec := arena.AllocateFront(RECORD_SIZE);
      if Inline(s) {
        at := Some(rec.value + RECORD_SIZE - |s|);
        PackInline(rec.value, s);
      } else {
        var block := arena.AllocateBack(|s|);
        var ok := PackLarge(rec.value, s, block.value);
        at := if ok then block else None;
      }
    }

    method PackInline(rec: nat, s: seq<Byte>)
      requires rec + RECORD_SIZE <= buf.Length && Inline(s)
      modifies buf
      ensures buf[..] == WriteInline(old(buf[..]), rec, s)
    {
      CopyInto(buf, rec, U24(RECORD_SIZE - |s|));
      if s == [] {
        CopyInto(buf, rec + 4, U24(0));
      } else {
        CopyInto(buf, rec + RECORD_SIZE - |s|, s);
      }
    }

    method PackLarge(rec: nat, s: seq<Byte>, data: nat) returns (ok: bool)
      requires rec + RECORD_SIZE <= data && data + |s| <= buf.Length
      modifies buf
      ensures ok <==> data - rec < TWO_24
      ensures ok ==> buf[..] == WriteLarge(old(buf[..]), rec, s, data)
    {
      ghost var before := buf[..];
      CopyInto(buf, rec, U24(data - rec));
      CopyInto(buf, rec + 4, U24(|s|));
      OffsetField(before, rec, data, U24(|s|));
      ok := rec + DataOffset(buf[..], rec) == data;
      if ok {
        CopyInto(buf, data, s);
      }
    }
  }

  /** The offset as the check reads it back. */
  lemma OffsetField(buf: seq<Byte>, rec: nat, data: nat, size: seq<Byte>)
    requires rec + RECORD_SIZE <= |buf| && rec <= data && |size| == 3
    ensures rec + DataOffset(Overwrite(Overwrite(buf, rec, U24(data - rec)), rec + 4, size), rec) == data
            <==> data - rec < TWO_24
  {
    var offset := data - rec;
    var b1 := Overwrite(buf, rec, U24(offset));
    OverwriteAt(buf, rec, U24(offset), rec + 4, rec + 4);
    OverwriteAt(b1, rec + 4, size, rec, rec + 3);
    U24RoundTrip(offset);
  }

  // ---------------------------------------------------------------- the reader

  /** A read gives a string, or finds no more room for a record, or fails a check. */
  datatype ReadResult = End | Str(bytes: seq<Byte>) | BadRecord

  /** What is left to read: records from the front, data from the back. */
  datatype Unread = Unread(front: nat, back: nat, atEnd: bool)

  predicate UnreadOk(buf: seq<Byte>, u: Unread) { u.front <= u.back <= |buf| }

  /** `read_string`. */
  function Next(buf: seq<Byte>, u: Unread): (ReadResult, Unread)
    requires UnreadOk(buf, u)
  {
    if u.atEnd || u.back - u.front < RECORD_SIZE then (End, u.(atEnd := true))
    else
      var rec, front := u.front, u.front + RECORD_SIZE;
      var offset, size := DataOffset(buf, rec), DataSize(buf, rec);
      if offset < 4 then (BadRecord, u)
      else if offset < RECORD_SIZE then (Str(buf[rec + offset..rec + RECORD_SIZE]), u.(front := front))
      else if u.back - size != rec + offset then (BadRecord, u)
      else (Str(buf[u.back - size..u.back]), u.(front := front, back := u.back - size))
  }

  /** What is unread after the first `k` of the packed strings. */
  function AfterReading(strings: seq<seq<Byte>>, length: nat, k: nat): Unread
    requires k <= |strings| && Back(strings, k) <= length
  {
    Unread(RECORD_SIZE * k, length - Back(strings, k), false)
  }

  /** The next string reads as it was packed, with two exceptions. The record of an empty one claims data of
      size zero just behind it, and the read succeeds if and only if the unread data ends there. The record of
      one of 2^24 bytes or more claims less data than there is, and the read fails. */
  lemma ReadsNext(buf: seq<Byte>, strings: seq<seq<Byte>>, k: nat)
    requires Holds(buf, strings) && k < |strings| && RECORD_SIZE * |strings| + Back(strings, |strings|) <= |buf|
    ensures Back(strings, k + 1) <= |buf| && Back(strings, k) <= |buf| && UnreadOk(buf, AfterReading(strings, |buf|, k))
    ensures var (r, u) := Next(buf, AfterReading(strings, |buf|, k));
            if |strings[k]| < TWO_24 && (strings[k] != [] || RECORD_SIZE * (k + 1) == |buf| - Back(strings, k))
            then r == Str(strings[k]) && u == AfterReading(strings, |buf|, k + 1)
            else r == BadRecord
  {
    BackMonotone(strings, k, |strings|);
    BackMonotone(strings, k + 1, |strings|);
    assert HoldsAt(buf, strings, k);
  }

  /** So in a buffer with room to spare the read of an empty string fails its check. */
  lemma EmptyStringFails(buf: seq<Byte>)
    requires Holds(buf, [[]]) && |buf| > RECORD_SIZE
    ensures Next(buf, Unread(0, |buf|, false)).0 == BadRecord
  {
    assert Back([[]], 1) == 0;
    ReadsNext(buf, [[]], 0);
  }

  /** A record whose first bytes give an offset below four is refused, whatever follows. */
  lemma ShortOffsetFails(buf: seq<Byte>, u: Unread)
    requires UnreadOk(buf, u) && !u.atEnd && u.back - u.front >= RECORD_SIZE
    requires buf[u.front] < 4 && buf[u.front + 1] == 0 && buf[u.front + 2] == 0
    ensures Next(buf, u).0 == BadRecord
  {
    var field := buf[u.front..u.front + 3];
    assert field[0] == buf[u.front] && field[1] == 0 && field[2] == 0;
  }

  /** And every string of 2^24 bytes or more, packed first into a buffer that just holds it, is accepted but not
      read back. */
  lemma LongStringIsLost(buf: seq<Byte>, s: seq<Byte>)
    requires |s| >= TWO_24 && |buf| == RECORD_SIZE + |s|
    ensures Tells(s, 0, |buf|)
    ensures var after := Written(buf, 0, s, RECORD_SIZE);
            && InBounds(after, 0) && AsStr(after, 0) != s && Next(after, Unread(0, |buf|, false)).0 == BadRecord
  {
    var after := Written(buf, 0, s, RECORD_SIZE);
    WriteLargeIs(buf, 0, s, RECORD_SIZE);
    RecordReadsBack(after, 0, s, RECORD_SIZE);
  }

  class DataReader {
    const buf: array<Byte>
    var unread: Unread

    ghost predicate Valid()
      reads this, buf
    {
      UnreadOk(buf[..], unread)
    }

    constructor (buffer: array<Byte>)
      ensures Valid() && buf == buffer && unread == Unread(0, buffer.Length, false)
    {
      buf := buffer;
      unread := Unread(0, buffer.Length, false);
    }

    method ReadString() returns (r: ReadResult)
      requires Valid()
      modifies this`unread
      ensures Valid() && (r, unread) == Next(buf[..], old(unread))
    {
      if unread.atEnd || unread.back - unread.front < RECORD_SIZE {
        unread := unread.(atEnd := true);
        return End;
      }
      var rec := unread.front;
      var offset, size := DataOffset(buf[..], rec), DataSize(buf[..], rec);
      if offset < RECORD_SIZE {
        if offset < 4 {
          return BadRecord;
        }
        unread := unread.(front := rec + RECORD_SIZE);
        return Str(buf[rec + offset..rec + RECORD_SIZE]);
      }
      if unread.back - size != rec + offset {
        return BadRecord;
      }
      r := Str(buf[unread.back - size..unread.back]);
      unread := unread.(front := rec + RECORD_SIZE, back := unread.back - size);
    }

    /** Reads `n` strings, or as many as can be read. */
    method ReadStrings(n: nat) returns (strings: seq<seq<Byte>>)
      requires Valid()
      modifies this`unread
      ensures strings == ReadAll(buf[..], old(unread), n)
    {
      strings := [];
      var left := n;
      ghost var all := ReadAll(buf[..], unread, n);
      while left > 0
        invariant Valid() && strings + ReadAll(buf[..], unread, left) == all
      {
        OneRead(strings, buf[..], unread, left);
        var r := ReadString();
        if !r.Str? {
          return;
        }
        strings, left := strings + [r.bytes], left - 1;
      }
    }
  }

  /** The strings that `n` reads give, up to the first that fails. */
  function ReadAll(buf: seq<Byte>, u: Unread, n: nat): seq<seq<Byte>>
    requires UnreadOk(buf, u)
    decreases n
  {
    if n == 0 then []
    else
      var (r, u') := Next(buf, u);
      if r.Str? && UnreadOk(buf, u') then [r.bytes] + ReadAll(buf, u', n - 1) else []
  }

  lemma OneRead(got: seq<seq<Byte>>, buf: seq<Byte>, u: Unread, n: nat)
    requires UnreadOk(buf, u) && n > 0
    ensures var (r, u') := Next(buf, u);
            if r.Str? && UnreadOk(buf, u') then got + ReadAll(buf, u, n) == (got + [r.bytes]) + ReadAll(buf, u', n - 1)
            else got + ReadAll(buf, u, n) == got
  {}

  lemma AfterReadingOk(buf: seq<Byte>, strings: seq<seq<Byte>>, k: nat)
    requires k <= |strings| && RECORD_SIZE * |strings| + Back(strings, |strings|) <= |buf|
    ensures Back(strings, k) <= |buf| && UnreadOk(buf, AfterReading(strings, |buf|, k))
  {
    BackMonotone(strings, k, |strings|);
  }

  /** From where string `k` is next, the reads give `rest`. */
  ghost predicate ReadsFrom(buf: seq<Byte>, strings: seq<seq<Byte>>, k: nat, rest: seq<seq<Byte>>)
    requires k <= |strings| && RECORD_SIZE * |strings| + Back(strings, |strings|) <= |buf|
  {
    AfterReadingOk(buf, strings, k);
    ReadAll(buf, AfterReading(strings, |buf|, k), |rest|) == rest
  }

  lemma {:induction false} ReadsAll(buf: seq<Byte>, strings: seq<seq<Byte>>, k: nat, rest: seq<seq<Byte>>)
    requires Holds(buf, strings) && k <= |strings| && RECORD_SIZE * |strings| + Back(strings, |strings|) <= |buf|
    requires (forall i :: 0 <= i < |strings| ==> 0 < |strings[i]| < TWO_24) && rest == strings[k..]
    ensures ReadsFrom(buf, strings, k, rest)
    decreases |strings| - k
  {
    if k < |strings| {
      var tail := strings[k + 1..];
      assert rest == [strings[k]] + tail;
      ReadsAll(buf, strings, k + 1, tail);
      ReadsFirst(buf, strings, k, tail, rest);
    }
  }

  lemma ReadsFirst(buf: seq<Byte>, strings: seq<seq<Byte>>, k: nat, tail: seq<seq<Byte>>, rest: seq<seq<Byte>>)
    requires Holds(buf, strings) && k < |strings| && RECORD_SIZE * |strings| + Back(strings, |strings|) <= |buf|
    requires 0 < |strings[k]| < TWO_24 && ReadsFrom(buf, strings, k + 1, tail) && rest == [strings[k]] + tail
    ensures ReadsFrom(buf, strings, k, rest)
  {
    AfterReadingOk(buf, strings, k);
    AfterReadingOk(buf, strings, k + 1);
    ReadsNext(buf, strings, k);
    OneMoreRead(buf, AfterReading(strings, |buf|, k), AfterReading(strings, |buf|, k + 1), strings[k], tail);
  }

  lemma OneMoreRead(buf: seq<Byte>, u: Unread, u': Unread, first: seq<Byte>, tail: seq<seq<Byte>>)
    requires UnreadOk(buf, u) && UnreadOk(buf, u') && Next(buf, u) == (Str(first), u')
    requires ReadAll(buf, u', |tail|) == tail
    ensures ReadAll(buf, u, |[first] + tail|) == [first] + tail
  {}

  /** After the first `k` strings there is room for the next one. */
  predicate HasRoom(input: seq<seq<Byte>>, k: nat, length: nat)
    requires k < |input|
  {
    RECORD_SIZE * (k + 1) + Back(input, k + 1) <= length
  }

  /** Packing and reading back: the strings that fit are read again, in order, from the same buffer, unless the
      record of one of them would lie 2^24 bytes or more before its data, which fails a check. */
  method RoundTrip(buffer: array<Byte>, input: seq<seq<Byte>>) returns (ok: bool, count: nat, output: seq<seq<Byte>>)
    requires forall i :: 0 <= i < |input| ==> 0 < |input[i]| < TWO_24
    modifies buffer
    ensures count <= |input| && (ok ==> output == input[..count])
    ensures ok && count < |input| ==> !HasRoom(input, count, buffer.Length)
    ensures !ok ==> count < |input| && HasRoom(input, count, buffer.Length)
                    && !Tells(input[count], RECORD_SIZE * count, buffer.Length - Back(input, count))
  {
    var packer := new DataPacker(buffer);
    output := [];
    ok, count := PackAll(packer, input);
    if ok {
      BackPrefix(input, count, count);
      ReadsAll(buffer[..], input[..count], 0, input[..count]);
      var reader := new DataReader(buffer);
      output := reader.ReadStrings(count);
    }
  }

  lemma {:induction false} BackPrefix(strings: seq<seq<Byte>>, n: nat, k: nat)
    requires k <= n <= |strings|
    ensures Back(strings[..n], k) == Back(strings, k)
    decreases k
  {
    if k > 0 { BackPrefix(strings, n, k - 1); }
  }

  /** Packs strings until one does not fit or fails the check. */
  method PackAll(packer: DataPacker, input: seq<seq<Byte>>) returns (ok: bool, count: nat)
    requires packer.Valid() && packer.strings == [] && !packer.arena.full
    modifies packer`strings, packer.buf, packer.arena
    ensures count <= |input| && (ok ==> packer.Valid() && packer.strings == input[..count])
    ensures ok && count < |input| ==> !HasRoom(input, count, packer.buf.Length)
    ensures !ok ==> count < |input| && HasRoom(input, count, packer.buf.Length)
                    && !Tells(input[count], RECORD_SIZE * count, packer.buf.Length - Back(input, count))
  {
    ok, count := true, 0;
    while count < |input|
      invariant packer.Valid() && count <= |input| && packer.strings == input[..count] && !packer.arena.full && ok
    {
      BackPrefix(input, count, count);
      var r := packer.PackString(input[count]);
      if !r.Packed? {
        return r.Full?, count;
      }
      assert input[..count + 1] == input[..count] + [input[count]];
      count := count + 1;
    }
  }
}
