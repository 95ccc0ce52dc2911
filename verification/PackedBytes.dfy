/** The eight-byte record that stands for a byte string: a 24-bit offset to the data, and for data outside
    the record its 24-bit size. Up to four bytes are kept in the record itself, at its end. */
module PackedBytes {
  import opened Arith
  import opened Common
  import opened ArrayCopy

  const RECORD_SIZE: nat := 8
  const TWO_24: nat := 0x100_0000

  /** What a 24-bit field keeps of an integer, least significant byte first. */
  function U24(n: nat): (r: seq<Byte>)
    ensures |r| == 3
  {
    [n % 256, n / 256 % 256, n / 65536 % 256]
  }

  function FromU24(s: seq<Byte>): (n: nat)
    requires |s| == 3
    ensures n < TWO_24
  {
    var low: int, middle: int, high: int := s[0], s[1], s[2];
    low + 256 * middle + 65536 * high
  }

  lemma U24RoundTrip(n: nat)
    ensures FromU24(U24(n)) == n % TWO_24
  {
    var x, y := n / 256, n / 65536;
    assert y == x / 256;
    DivModUnique(n, TWO_24, y / 256, n % 256 + 256 * (x % 256) + 65536 * (y % 256));
  }

  function DataOffset(buf: seq<Byte>, rec: nat): nat
    requires rec + RECORD_SIZE <= |buf|
  {
    FromU24(buf[rec..rec + 3])
  }

  function DataSize(buf: seq<Byte>, rec: nat): nat
    requires rec + RECORD_SIZE <= |buf|
  {
    FromU24(buf[rec + 4..rec + 7])
  }

  /** `PackedBytes::size`. */
  function Size(buf: seq<Byte>, rec: nat): nat
    requires rec + RECORD_SIZE <= |buf|
  {
    if DataOffset(buf, rec) < RECORD_SIZE then RECORD_SIZE - DataOffset(buf, rec) else DataSize(buf, rec)
  }

  predicate InBounds(buf: seq<Byte>, rec: nat) {
    rec + RECORD_SIZE <= |buf| && rec + DataOffset(buf, rec) + Size(buf, rec) <= |buf|
  }

  /** `PackedBytes::as_str`. */
  function AsStr(buf: seq<Byte>, rec: nat): seq<Byte>
    requires InBounds(buf, rec)
  {
    var data := rec + DataOffset(buf, rec);
    buf[data..data + Size(buf, rec)]
  }

  /** Strings of up to four bytes are kept in the record. */
  predicate Inline(s: seq<Byte>) { |s| <= 4 }

  /** The bytes a string takes outside its record. */
  function DataBytes(s: seq<Byte>): nat { if Inline(s) then 0 else |s| }

  /** The record at `rec` is that of string `s`, with its data, if outside, at `data`. Of the size of the data
      the record keeps 24 bits. */
  predicate RecordIs(buf: seq<Byte>, rec: nat, s: seq<Byte>, data: nat) {
    && rec + RECORD_SIZE <= data && data + DataBytes(s) <= |buf|
    && if Inline(s) then
         && DataOffset(buf, rec) == RECORD_SIZE - |s|
         && (s == [] ==> DataSize(buf, rec) == 0)
         && buf[rec + RECORD_SIZE - |s|..rec + RECORD_SIZE] == s
       else DataOffset(buf, rec) == data - rec && DataSize(buf, rec) == |s| % TWO_24 && buf[data..data + |s|] == s
  }

  /** The string read from a record is the one it was made for, if and only if it is shorter than 2^24. */
  lemma RecordReadsBack(buf: seq<Byte>, rec: nat, s: seq<Byte>, data: nat)
    requires RecordIs(buf, rec, s, data)
    ensures InBounds(buf, rec) && (AsStr(buf, rec) == s <==> |s| < TWO_24)
  {
    assert |s| % TWO_24 <= |s|;
    assert |AsStr(buf, rec)| == if Inline(s) then |s| else |s| % TWO_24;
  }

  /** A record depends only on its own eight bytes and its data. */
  lemma RecordStays(buf: seq<Byte>, buf': seq<Byte>, rec: nat, s: seq<Byte>, data: nat)
    requires RecordIs(buf, rec, s, data) && |buf'| == |buf|
    requires buf'[rec..rec + RECORD_SIZE] == buf[rec..rec + RECORD_SIZE]
    requires buf'[data..data + DataBytes(s)] == buf[data..data + DataBytes(s)]
    ensures RecordIs(buf', rec, s, data)
  {
    Sub(buf, buf', rec, 0, 3);
    Sub(buf, buf', rec, 4, 7);
    if Inline(s) { Sub(buf, buf', rec, RECORD_SIZE - |s|, RECORD_SIZE); }
  }

  lemma Sub(a: seq<Byte>, b: seq<Byte>, rec: nat, i: nat, j: nat)
    requires rec + RECORD_SIZE <= |a| == |b| && i <= j <= RECORD_SIZE
    requires a[rec..rec + RECORD_SIZE] == b[rec..rec + RECORD_SIZE]
    ensures a[rec + i..rec + j] == b[rec + i..rec + j]
  {
    var x, y := a[rec + i..rec + j], b[rec + i..rec + j];
    forall k | 0 <= k < j - i ensures x[k] == y[k] {
      assert a[rec..rec + RECORD_SIZE][i + k] == b[rec..rec + RECORD_SIZE][i + k];
    }
  }

  // ---------------------------------------------------------------- writing a record

  /** `nocheck_pack_data_to` for data of up to four bytes. */
  function WriteInline(buf: seq<Byte>, rec: nat, s: seq<Byte>): (r: seq<Byte>)
    requires rec + RECORD_SIZE <= |buf| && Inline(s)
    ensures |r| == |buf|
  {
    var b1 := Overwrite(buf, rec, U24(RECORD_SIZE - |s|));
    if s == [] then Overwrite(b1, rec + 4, U24(0)) else Overwrite(b1, rec + RECORD_SIZE - |s|, s)
  }

  /** `nocheck_pack_data_large`, with the data at `data`. */
  function WriteLarge(buf: seq<Byte>, rec: nat, s: seq<Byte>, data: nat): (r: seq<Byte>)
    requires rec + RECORD_SIZE <= data && data + |s| <= |buf|
    ensures |r| == |buf|
  {
    Overwrite(Overwrite(Overwrite(buf, rec, U24(data - rec)), rec + 4, U24(|s|)), data, s)
  }

  lemma OverwriteAt(buf: seq<Byte>, at: nat, src: seq<Byte>, i: nat, j: nat)
    requires at + |src| <= |buf| && i <= j <= |buf| && (j <= at || at + |src| <= i)
    ensures Overwrite(buf, at, src)[i..j] == buf[i..j] && Overwrite(buf, at, src)[at..at + |src|] == src
  {
    var x, y := Overwrite(buf, at, src)[i..j], buf[i..j];
    forall k | 0 <= k < j - i ensures x[k] == y[k] {}
  }

  lemma WriteInlineIs(buf: seq<Byte>, rec: nat, s: seq<Byte>, data: nat)
    requires rec + RECORD_SIZE <= data <= |buf| && Inline(s)
    ensures RecordIs(WriteInline(buf, rec, s), rec, s, data)
  {
    var b1 := Overwrite(buf, rec, U24(RECORD_SIZE - |s|));
    OverwriteAt(buf, rec, U24(RECORD_SIZE - |s|), rec + 4, rec + 4);
    U24RoundTrip(RECORD_SIZE - |s|);
    if s == [] {
      OverwriteAt(b1, rec + 4, U24(0), rec, rec + 3);
      U24RoundTrip(0);
    } else {
      OverwriteAt(b1, rec + RECORD_SIZE - |s|, s, rec, rec + 3);
    }
  }

  /** The three writes leave each other's bytes alone. */
  lemma LargeParts(buf: seq<Byte>, rec: nat, s: seq<Byte>, data: nat)
    requires rec + RECORD_SIZE <= data && data + |s| <= |buf|
    ensures var r := WriteLarge(buf, rec, s, data);
            r[rec..rec + 3] == U24(data - rec) && r[rec + 4..rec + 7] == U24(|s|) && r[data..data + |s|] == s
  {
    var b1 := Overwrite(buf, rec, U24(data - rec));
    var b2 := Overwrite(b1, rec + 4, U24(|s|));
    OverwriteAt(buf, rec, U24(data - rec), rec + 4, rec + 4);
    OverwriteAt(b1, rec + 4, U24(|s|), rec, rec + 3);
    OverwriteAt(b2, data, s, rec, rec + 3);
    OverwriteAt(b2, data, s, rec + 4, rec + 7);
  }

  lemma WriteLargeIs(buf: seq<Byte>, rec: nat, s: seq<Byte>, data: nat)
    requires rec + RECORD_SIZE <= data && data + |s| <= |buf| && !Inline(s) && data - rec < TWO_24
    ensures RecordIs(WriteLarge(buf, rec, s, data), rec, s, data)
  {
    var r, offset := WriteLarge(buf, rec, s, data), data - rec;
    LargeParts(buf, rec, s, data);
    assert DataOffset(r, rec) == offset by { U24RoundTrip(offset); }
    assert DataSize(r, rec) == |s| % TWO_24 by { U24RoundTrip(|s|); }
  }

  /** The eight bytes of two records: a string of five bytes 0x10203 bytes behind its record, and one of four bytes
      inside its record. The low byte comes first, and the two bytes not used stay as they were. */
  lemma RecordBytes(buf: seq<Byte>, rec: nat, five: seq<Byte>, four: seq<Byte>)
    requires rec + 0x10208 <= |buf| && |five| == 5 && |four| == 4
    ensures DataBytes(five) == 5 && DataBytes(four) == 0
    ensures WriteLarge(buf, rec, five, rec + 0x10203)[rec..rec + 8] ==
            [0x03, 0x02, 0x01, buf[rec + 3], 0x05, 0x00, 0x00, buf[rec + 7]]
    ensures WriteInline(buf, rec, four)[rec..rec + 8] == [0x04, 0x00, 0x00, buf[rec + 3]] + four
  {
    LargeParts(buf, rec, five, rec + 0x10203);
    var r := WriteLarge(buf, rec, five, rec + 0x10203);
    assert U24(0x10203) == [3, 2, 1] && U24(5) == [5, 0, 0] && U24(4) == [4, 0, 0];
    assert r[rec..rec + 8] == r[rec..rec + 3] + [r[rec + 3]] + r[rec + 4..rec + 7] + [r[rec + 7]];
  }

  /** Neither touches anything outside the record and the data. */
  lemma WriteElsewhere(buf: seq<Byte>, rec: nat, s: seq<Byte>, data: nat, i: nat, j: nat)
    requires rec + RECORD_SIZE <= data && data + DataBytes(s) <= |buf|
    requires i <= j <= |buf| && (j <= rec || data + DataBytes(s) <= i)
    ensures Inline(s) ==> WriteInline(buf, rec, s)[i..j] == buf[i..j]
    ensures !Inline(s) ==> WriteLarge(buf, rec, s, data)[i..j] == buf[i..j]
  {
    if Inline(s) {
      InlineElsewhere(buf, rec, s, i, j);
    } else {
      LargeElsewhere(buf, rec, s, data, i, j);
    }
  }

  lemma InlineElsewhere(buf: seq<Byte>, rec: nat, s: seq<Byte>, i: nat, j: nat)
    requires rec + RECORD_SIZE <= |buf| && i <= j <= |buf| && (j <= rec || rec + RECORD_SIZE <= i) && Inline(s)
    ensures WriteInline(buf, rec, s)[i..j] == buf[i..j]
  {
    var b1 := Overwrite(buf, rec, U24(RECORD_SIZE - |s|));
    OverwriteAt(buf, rec, U24(RECORD_SIZE - |s|), i, j);
    if s == [] {
      OverwriteAt(b1, rec + 4, U24(0), i, j);
    } else {
      OverwriteAt(b1, rec + RECORD_SIZE - |s|, s, i, j);
    }
  }

  lemma LargeElsewhere(buf: seq<Byte>, rec: nat, s: seq<Byte>, data: nat, i: nat, j: nat)
    requires rec + RECORD_SIZE <= data && data + |s| <= |buf|
    requires i <= j <= |buf| && (j <= rec || data + |s| <= i)
    ensures WriteLarge(buf, rec, s, data)[i..j] == buf[i..j]
  {
    var b1 := Overwrite(buf, rec, U24(data - rec));
    var b2 := Overwrite(b1, rec + 4, U24(|s|));
    OverwriteAt(buf, rec, U24(data - rec), i, j);
    OverwriteAt(b1, rec + 4, U24(|s|), i, j);
    OverwriteAt(b2, data, s, i, j);
  }
}
