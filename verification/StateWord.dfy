/** The 64-bit state word of a cache slot: bits 0-29 count pin acquisitions, bit 30 receives their
    carry, bits 31-60 count pin releases, bit 61 receives their carry, bit 62 is spare and bit 63 says
    the slot is valid. Masks and shifts are written as division and remainder by powers of two. */
module StateWord {
  import opened Common

  const POW30: nat := 0x4000_0000
  const POW31: nat := 0x8000_0000
  const POW61: nat := 0x2000_0000_0000_0000
  const POW62: nat := 0x4000_0000_0000_0000
  const POW63: nat := 0x8000_0000_0000_0000
  const POW64: nat := 0x1_0000_0000_0000_0000

  type Word = w: nat | w < POW64

  function AcquireCount(w: Word): nat { w % POW30 }

  function ReleaseCount(w: Word): nat { (w / POW31) % POW30 }

  predicate AcquireOverflow(w: Word) { (w / POW30) % 2 == 1 }

  predicate ReleaseOverflow(w: Word) { (w / POW61) % 2 == 1 }

  predicate Spare(w: Word) { (w / POW62) % 2 == 1 }

  predicate IsValid(w: Word) { (w / POW63) % 2 == 1 }

  predicate IsPinned(w: Word) { AcquireCount(w) != ReleaseCount(w) }

  /** What `fetch_add` leaves in the word: 64-bit wrap-around addition. */
  function FetchAdd(w: Word, delta: nat): Word { (w + delta) % POW64 }

  /** `fetch_and` with the complement of bit 30. */
  function ClearAcquireOverflow(w: Word): Word {
    if AcquireOverflow(w) then w - POW30 else w
  }

  /** `fetch_and` with the complement of bit 61. */
  function ClearReleaseOverflow(w: Word): Word {
    if ReleaseOverflow(w) then w - POW61 else w
  }

  /** `fetch_or` with bit 63. */
  function SetValid(w: Word): Word {
    if IsValid(w) then w else w + POW63
  }

  /** The target of the eviction compare-and-swap: bit 63 cleared. */
  function ClearValid(w: Word): Word {
    if IsValid(w) then w - POW63 else w
  }

  datatype Fields = Fields(acquires: nat, acquireOverflow: bool, releases: nat, releaseOverflow: bool,
                           spare: bool, valid: bool)

  function Decode(w: Word): Fields {
    Fields(AcquireCount(w), AcquireOverflow(w), ReleaseCount(w), ReleaseOverflow(w), Spare(w), IsValid(w))
  }

  predicate InRange(f: Fields) { f.acquires < POW30 && f.releases < POW30 }

  function Assemble(f: Fields): (w: nat)
    requires InRange(f)
    ensures w < POW64
  {
    f.acquires + POW30 * AsNat(f.acquireOverflow) + POW31 * f.releases
    + POW61 * AsNat(f.releaseOverflow) + POW62 * AsNat(f.spare) + POW63 * AsNat(f.valid)
  }

  /** The word is nothing but its fields: decoding and assembling undo each other. */
  lemma AssembleDecode(w: Word)
    ensures Assemble(Decode(w)) == w
  {
    var a, b, c := w / POW30, w / POW31, w / POW61;
    assert b == a / 2;
    assert c == b / POW30;
    assert w / POW62 == c / 2;
    assert w / POW63 == c / 4;
    SplitBits(c);
  }

  lemma SplitBits(c: nat)
    requires c < 8
    ensures c == c % 2 + 2 * (c / 2 % 2) + 4 * (c / 4 % 2)
  {}

  lemma DecodeAssemble(f: Fields)
    requires InRange(f)
    ensures Decode(Assemble(f)) == f
  {
    var w := Assemble(f);
    assert w / POW30 == AsNat(f.acquireOverflow) + 2 * (w / POW31);
    assert w / POW31 == f.releases + POW30 * (w / POW61);
    assert w / POW61 == AsNat(f.releaseOverflow) + 2 * AsNat(f.spare) + 4 * AsNat(f.valid);
    assert w / POW62 == AsNat(f.spare) + 2 * AsNat(f.valid);
    assert w / POW63 == AsNat(f.valid);
  }

  function AfterAcquire(f: Fields): Fields {
    if f.acquires == POW30 - 1 then f.(acquires := 0, acquireOverflow := true)
    else f.(acquires := f.acquires + 1)
  }

  function AfterRelease(f: Fields): Fields {
    if f.releases == POW30 - 1 then f.(releases := 0, releaseOverflow := true)
    else f.(releases := f.releases + 1)
  }

  lemma AcquireOnFields(f: Fields)
    requires InRange(f) && !(f.acquireOverflow && f.acquires == POW30 - 1)
    ensures FetchAdd(Assemble(f), 1) == Assemble(AfterAcquire(f))
  {}

  lemma ReleaseOnFields(f: Fields)
    requires InRange(f) && !f.spare && !(f.releaseOverflow && f.releases == POW30 - 1)
    ensures FetchAdd(Assemble(f), POW31) == Assemble(AfterRelease(f))
  {}

  /** Adding one pin touches the acquire count and its carry bit only, as long as the carry bit is
      still free when the count wraps. */
  lemma AcquireEffect(w: Word)
    requires !(AcquireOverflow(w) && AcquireCount(w) == POW30 - 1)
    ensures Decode(FetchAdd(w, 1)) == AfterAcquire(Decode(w))
  {
    var f := Decode(w);
    AssembleDecode(w);
    AcquireOnFields(f);
    DecodeAssemble(AfterAcquire(f));
  }

  /** Releasing one pin touches the release count and its carry bit only, under the same proviso. */
  lemma ReleaseEffect(w: Word)
    requires !Spare(w) && !(ReleaseOverflow(w) && ReleaseCount(w) == POW30 - 1)
    ensures Decode(FetchAdd(w, POW31)) == AfterRelease(Decode(w))
  {
    var f := Decode(w);
    AssembleDecode(w);
    ReleaseOnFields(f);
    DecodeAssemble(AfterRelease(f));
  }

  /** The proviso is exact: when the count wraps under a carry bit that is still set, the carry runs
      on into the release count. */
  lemma AcquireKeepsReleasesIff(w: Word)
    requires !Spare(w)
    ensures ReleaseCount(FetchAdd(w, 1)) == ReleaseCount(w)
            <==> !(AcquireOverflow(w) && AcquireCount(w) == POW30 - 1)
  {
    var f := Decode(w);
    AssembleDecode(w);
    if AcquireOverflow(w) && AcquireCount(w) == POW30 - 1 {
      var g := f.(acquires := 0, acquireOverflow := false);
      var h := if f.releases < POW30 - 1 then g.(releases := f.releases + 1)
               else if !f.releaseOverflow then g.(releases := 0, releaseOverflow := true)
               else g.(releases := 0, releaseOverflow := false, spare := true);
      CarryOnFields(f, h);
      DecodeAssemble(h);
    } else {
      AcquireEffect(w);
    }
  }

  lemma CarryOnFields(f: Fields, h: Fields)
    requires InRange(f) && InRange(h) && f.acquireOverflow && f.acquires == POW30 - 1 && !f.spare
    requires h.acquires == 0 && !h.acquireOverflow && h.valid == f.valid
    requires h.releases + POW30 * AsNat(h.releaseOverflow) + 2 * POW30 * AsNat(h.spare)
             == f.releases + 1 + POW30 * AsNat(f.releaseOverflow)
    ensures FetchAdd(Assemble(f), 1) == Assemble(h)
  {}

  lemma ClearOnFields(f: Fields)
    requires InRange(f)
    ensures Assemble(f.(acquireOverflow := false)) == Assemble(f) - POW30 * AsNat(f.acquireOverflow)
    ensures Assemble(f.(releaseOverflow := false)) == Assemble(f) - POW61 * AsNat(f.releaseOverflow)
    ensures Assemble(f.(valid := false)) == Assemble(f) - POW63 * AsNat(f.valid)
    ensures Assemble(f.(valid := true)) == Assemble(f) + POW63 * AsNat(!f.valid)
  {}

  lemma ClearEffects(w: Word)
    ensures Decode(ClearAcquireOverflow(w)) == Decode(w).(acquireOverflow := false)
    ensures Decode(ClearReleaseOverflow(w)) == Decode(w).(releaseOverflow := false)
  {
    var f := Decode(w);
    AssembleDecode(w);
    ClearOnFields(f);
    DecodeAssemble(f.(acquireOverflow := false));
    DecodeAssemble(f.(releaseOverflow := false));
  }

  lemma ValidEffects(w: Word)
    ensures Decode(SetValid(w)) == Decode(w).(valid := true)
    ensures Decode(ClearValid(w)) == Decode(w).(valid := false)
  {
    var f := Decode(w);
    AssembleDecode(w);
    ClearOnFields(f);
    DecodeAssemble(f.(valid := true));
    DecodeAssemble(f.(valid := false));
  }
}
