/** A map from offsets to slots kept as sorted, disjoint intervals. Updating an interval raises every
    offset in it to at least the given slot. */
module SlotIntervalMap {
  import opened Common
  import opened SlotMath

  datatype Entry = Entry(lo: int, hi: int, slot: int)

  predicate Sorted(es: seq<Entry>) {
    && (forall i :: 0 <= i < |es| ==> es[i].lo < es[i].hi)
    && (forall i, j :: 0 <= i < j < |es| ==> es[i].hi <= es[j].lo)
  }

  /** Neighbours that touch have different slots. */
  ghost predicate Merged(es: seq<Entry>) {
    forall i, j :: 0 <= i < j < |es| && j == i + 1 ==> Apart(es[i], es[j])
  }

  predicate Apart(a: Entry, b: Entry) { a.hi == b.lo ==> a.slot != b.slot }

  /** The slot of offset `x`. */
  function At(es: seq<Entry>, x: int): Option<int> {
    if es == [] then None else if es[0].lo <= x < es[0].hi then Some(es[0].slot) else At(es[1..], x)
  }

  function OrElse(a: Option<int>, b: Option<int>): Option<int> { if a.Some? then a else b }

  /** The greater slot, if any. */
  function Join(a: Option<int>, b: Option<int>): Option<int> {
    if a.None? then b else if b.None? then a else if a.value < b.value then b else a
  }

  function Piece(lo: int, hi: int, slot: int, x: int): Option<int> { if lo <= x < hi then Some(slot) else None }

  lemma {:induction false} AtConcat(a: seq<Entry>, b: seq<Entry>, x: int)
    ensures At(a + b, x) == OrElse(At(a, x), At(b, x))
  {
    if a == [] {
      assert a + b == b;
    } else {
      AtConcat(a[1..], b, x);
      assert (a + b)[1..] == a[1..] + b;
    }
  }

  // ---------------------------------------------------------------- an update in progress

  /** The entries below, overlapping and above the range `[lo, hi)` that is still to be written. */
  datatype Cut = Cut(below: seq<Entry>, mid: seq<Entry>, above: seq<Entry>, lo: int, hi: int)

  function Look(c: Cut, x: int): Option<int> { OrElse(At(c.below, x), OrElse(At(c.mid, x), At(c.above, x))) }

  function Meaning(c: Cut, slot: int, x: int): Option<int> { Join(Look(c, x), Piece(c.lo, c.hi, slot, x)) }

  predicate EndBy(es: seq<Entry>, x: int) { forall i :: 0 <= i < |es| ==> es[i].hi <= x }

  predicate StartFrom(es: seq<Entry>, x: int) { forall i :: 0 <= i < |es| ==> x <= es[i].lo }

  predicate Overlap(es: seq<Entry>, lo: int, hi: int) { forall i :: 0 <= i < |es| ==> es[i].lo < hi && lo < es[i].hi }

  /** The three parts in order, around the range to be written. */
  predicate Shape(c: Cut) {
    && Sorted(c.below) && Sorted(c.mid) && Sorted(c.above)
    && Overlap(c.mid, c.lo, c.hi)
    && (c.lo < c.hi ==> EndBy(c.below, c.lo) && StartFrom(c.above, c.hi))
    && (c.lo >= c.hi ==> c.mid == [])
    && (forall i, j :: 0 <= i < |c.below| && 0 <= j < |c.above| ==> c.below[i].hi <= c.above[j].lo)
    && (c.mid != [] ==> EndBy(c.below, c.mid[0].lo) && StartFrom(c.above, c.mid[|c.mid| - 1].hi))
  }

  predicate Fits(a: seq<Entry>, b: seq<Entry>) { a != [] && b != [] ==> Apart(a[|a| - 1], b[0]) }

  /** No two parts would need merging once the range is written. */
  ghost predicate Trim(c: Cut, slot: int) {
    && Merged(c.below) && Merged(c.mid) && Merged(c.above) && Fits(c.below, c.mid) && Fits(c.mid, c.above)
    && (c.lo < c.hi ==> Fits(c.below, [Entry(c.lo, c.hi, slot)]) && Fits([Entry(c.lo, c.hi, slot)], c.above))
    && (c.lo >= c.hi ==> Fits(c.below, c.above))
  }

  // ---------------------------------------------------------------- one overlapping entry

  /** The entry has the slot being written: it becomes part of the range. */
  function Absorb(c: Cut): Cut
    requires c.mid != []
  {
    var cur := c.mid[0];
    c.(mid := c.mid[1..], lo := if cur.lo < c.lo then cur.lo else c.lo, hi := if c.hi < cur.hi then cur.hi else c.hi)
  }

  /** The entry has a lower slot: only the parts outside the range are kept. */
  function Displace(c: Cut): Cut
    requires c.mid != []
  {
    var cur := c.mid[0];
    c.(below := c.below + if cur.lo < c.lo then [Entry(cur.lo, c.lo, cur.slot)] else [],
       mid := c.mid[1..],
       above := (if c.hi < cur.hi then [Entry(c.hi, cur.hi, cur.slot)] else []) + c.above)
  }

  /** The entry has a higher slot: it stays, and the range continues behind it. */
  function Yield(c: Cut, slot: int): Cut
    requires c.mid != []
  {
    var cur := c.mid[0];
    c.(below := c.below + (if c.lo < cur.lo then [Entry(c.lo, cur.lo, slot)] else []) + [cur],
       mid := c.mid[1..], lo := if cur.hi < c.hi then cur.hi else c.hi)
  }

  lemma AbsorbShape(c: Cut)
    requires Shape(c) && c.mid != [] && c.lo < c.hi
    ensures Shape(Absorb(c)) && Absorb(c).lo < Absorb(c).hi
  {
    var c' := Absorb(c);
    assert c'.mid != [] ==> c'.mid[0] == c.mid[1] && c'.mid[|c'.mid| - 1] == c.mid[|c.mid| - 1];
  }

  lemma AppendSorted(es: seq<Entry>, e: Entry)
    requires Sorted(es) && EndBy(es, e.lo) && e.lo < e.hi
    ensures Sorted(es + [e]) && EndBy(es + [e], e.hi)
  {}

  lemma PrependSorted(e: Entry, es: seq<Entry>)
    requires Sorted(es) && StartFrom(es, e.hi) && e.lo < e.hi
    ensures Sorted([e] + es) && StartFrom([e] + es, e.lo)
  {}

  lemma DisplaceShape(c: Cut)
    requires Shape(c) && c.mid != [] && c.lo < c.hi
    ensures Shape(Displace(c))
  {
    var c', cur := Displace(c), c.mid[0];
    if cur.lo < c.lo { AppendSorted(c.below, Entry(cur.lo, c.lo, cur.slot)); }
    if c.hi < cur.hi { PrependSorted(Entry(c.hi, cur.hi, cur.slot), c.above); }
    assert c'.mid != [] ==> c'.mid[0] == c.mid[1] && c'.mid[|c'.mid| - 1] == c.mid[|c.mid| - 1];
  }

  lemma YieldShape(c: Cut, slot: int)
    requires Shape(c) && c.mid != [] && c.lo < c.hi
    ensures Shape(Yield(c, slot))
  {
    var c' := Yield(c, slot);
    assert c'.mid != [] ==> c'.mid[0] == c.mid[1] && c'.mid[|c'.mid| - 1] == c.mid[|c.mid| - 1];
  }

  lemma MergedConcat(a: seq<Entry>, b: seq<Entry>)
    requires Merged(a) && Merged(b) && Fits(a, b)
    ensures Merged(a + b)
  {}

  lemma MergedTail(es: seq<Entry>)
    requires Merged(es) && es != []
    ensures Merged(es[1..]) && Fits([es[0]], es[1..])
  {}

  lemma AbsorbTrim(c: Cut, slot: int)
    requires Shape(c) && Trim(c, slot) && c.mid != [] && c.lo < c.hi && c.mid[0].slot == slot
    ensures Trim(Absorb(c), slot)
  {}

  lemma DisplaceTrim(c: Cut, slot: int)
    requires Shape(c) && Trim(c, slot) && c.mid != [] && c.lo < c.hi && c.mid[0].slot != slot
    ensures Trim(Displace(c), slot)
  {
    MergedTail(c.mid);
    var cur := c.mid[0];
    assert c.mid[1..] != [] ==> c.mid[1..][0] == c.mid[1];
    if cur.lo < c.lo { MergedConcat(c.below, [Entry(cur.lo, c.lo, cur.slot)]); }
    if c.hi < cur.hi { MergedConcat([Entry(c.hi, cur.hi, cur.slot)], c.above); }
  }

  lemma YieldTrim(c: Cut, slot: int)
    requires Shape(c) && Trim(c, slot) && c.mid != [] && c.lo < c.hi && c.mid[0].slot != slot
    ensures Trim(Yield(c, slot), slot)
  {
    MergedTail(c.mid);
    var cur := c.mid[0];
    assert c.mid[1..] != [] ==> c.mid[1..][0] == c.mid[1];
    if c.lo < cur.lo {
      MergedConcat(c.below, [Entry(c.lo, cur.lo, slot)]);
      MergedConcat(c.below + [Entry(c.lo, cur.lo, slot)], [cur]);
    } else {
      MergedConcat(c.below, [cur]);
    }
  }

  // ---------------------------------------------------------------- what each step means

  lemma {:induction false} AtBelow(es: seq<Entry>, bound: int, x: int)
    requires EndBy(es, bound) && bound <= x
    ensures At(es, x) == None
  {
    if es != [] { AtBelow(es[1..], bound, x); }
  }

  lemma {:induction false} AtAbove(es: seq<Entry>, bound: int, x: int)
    requires StartFrom(es, bound) && x < bound
    ensures At(es, x) == None
  {
    if es != [] { AtAbove(es[1..], bound, x); }
  }

  /** Inside the first overlapping entry nothing else is mapped. */
  lemma InsideFirst(c: Cut, x: int)
    requires Shape(c) && c.mid != [] && c.mid[0].lo <= x < c.mid[0].hi
    ensures At(c.below, x) == None && At(c.mid[1..], x) == None && At(c.above, x) == None
    ensures Look(c, x) == Some(c.mid[0].slot)
  {
    var cur := c.mid[0];
    AtBelow(c.below, cur.lo, x);
    AtAbove(c.mid[1..], cur.hi, x);
    assert cur.hi <= c.mid[|c.mid| - 1].hi;
    AtAbove(c.above, cur.hi, x);
  }

  lemma AbsorbMeaning(c: Cut, slot: int, x: int)
    requires Shape(c) && c.mid != [] && c.lo < c.hi && c.mid[0].slot == slot
    ensures Meaning(Absorb(c), slot, x) == Meaning(c, slot, x)
  {
    if c.mid[0].lo <= x < c.mid[0].hi { InsideFirst(c, x); }
  }

  /** Inside the range nothing below or above it is mapped. */
  lemma InsideRange(c: Cut, x: int)
    requires Shape(c) && c.lo <= x < c.hi
    ensures At(c.below, x) == None && At(c.above, x) == None
  {
    AtBelow(c.below, c.lo, x);
    AtAbove(c.above, c.hi, x);
  }

  lemma DisplaceMeaning(c: Cut, slot: int, x: int)
    requires Shape(c) && c.mid != [] && c.lo < c.hi && c.mid[0].slot < slot
    ensures Meaning(Displace(c), slot, x) == Meaning(c, slot, x)
  {
    var cur := c.mid[0];
    var left := if cur.lo < c.lo then [Entry(cur.lo, c.lo, cur.slot)] else [];
    var right := if c.hi < cur.hi then [Entry(c.hi, cur.hi, cur.slot)] else [];
    AtConcat(c.below, left, x);
    AtConcat(right, c.above, x);
    if cur.lo <= x < cur.hi { InsideFirst(c, x); }
  }

  lemma YieldMeaning(c: Cut, slot: int, x: int)
    requires Shape(c) && c.mid != [] && c.lo < c.hi && slot < c.mid[0].slot
    ensures Meaning(Yield(c, slot), slot, x) == Meaning(c, slot, x)
  {
    var cur := c.mid[0];
    var left := if c.lo < cur.lo then [Entry(c.lo, cur.lo, slot)] else [];
    AtConcat(c.below, left, x);
    AtConcat(c.below + left, [cur], x);
    if cur.lo <= x < cur.hi {
      InsideFirst(c, x);
    } else if c.lo <= x < cur.lo && x < c.hi {
      InsideRange(c, x);
      AtAbove(c.mid, cur.lo, x);
    }
  }

  // ---------------------------------------------------------------- beginning and end of an update

  /** `i` and `j` bound the entries that overlap `[lo, hi)`, as `equal_range` finds them. */
  predicate EqualRange(es: seq<Entry>, lo: int, hi: int, i: nat, j: nat) {
    && i <= j <= |es|
    && (forall k :: 0 <= k < i ==> es[k].hi <= lo) && (forall k :: i <= k < |es| ==> lo < es[k].hi)
    && (forall k :: 0 <= k < j ==> es[k].lo < hi) && (forall k :: j <= k < |es| ==> hi <= es[k].lo)
  }

  function Open(es: seq<Entry>, lo: int, hi: int, i: nat, j: nat): Cut
    requires i <= j <= |es|
  {
    Cut(es[..i], es[i..j], es[j..], lo, hi)
  }

  /** The parts of a merged sequence, before the range meets them. */
  ghost predicate Loose(c: Cut) {
    Merged(c.below) && Merged(c.mid) && Merged(c.above) && Fits(c.below, c.mid) && Fits(c.mid, c.above)
  }

  lemma OpenShape(es: seq<Entry>, lo: int, hi: int, i: nat, j: nat)
    requires Sorted(es) && lo < hi && EqualRange(es, lo, hi, i, j)
    ensures Shape(Open(es, lo, hi, i, j))
  {
    SortedSlice(es, 0, i);
    SortedSlice(es, i, j);
    SortedSlice(es, j, |es|);
    var c := Open(es, lo, hi, i, j);
    assert c.below == es[0..i] && c.mid == es[i..j] && c.above == es[j..|es|];
    assert Overlap(c.mid, lo, hi) && EndBy(c.below, lo) && StartFrom(c.above, hi);
  }

  lemma SortedSlice(es: seq<Entry>, i: nat, j: nat)
    requires Sorted(es) && i <= j <= |es|
    ensures Sorted(es[i..j])
  {}

  lemma OpenLoose(es: seq<Entry>, lo: int, hi: int, i: nat, j: nat)
    requires Merged(es) && i <= j <= |es|
    ensures Loose(Open(es, lo, hi, i, j))
  {}

  lemma FitsAt(es: seq<Entry>, i: nat)
    requires Merged(es) && i <= |es|
    ensures Fits(es[..i], es[i..])
  {}

  lemma MergedSlice(es: seq<Entry>, i: nat, j: nat)
    requires Merged(es) && i <= j <= |es|
    ensures Merged(es[i..j])
  {}

  lemma OpenMeaning(es: seq<Entry>, lo: int, hi: int, i: nat, j: nat, x: int)
    requires i <= j <= |es|
    ensures Look(Open(es, lo, hi, i, j), x) == At(es, x)
  {
    assert es[i..j] + es[j..] == es[i..];
    AtConcat(es[i..j], es[j..], x);
    assert es[..i] + es[i..] == es;
    AtConcat(es[..i], es[i..], x);
  }

  /** An entry that ends where the range starts, with the same slot, becomes part of the range. */
  function MergePrev(c: Cut, slot: int): Cut {
    var k := |c.below| - 1;
    if k >= 0 && c.below[k].hi == c.lo && c.below[k].slot == slot then c.(below := c.below[..k], lo := c.below[k].lo)
    else c
  }

  function MergeNext(c: Cut, slot: int): Cut {
    if c.above != [] && c.above[0].lo == c.hi && c.above[0].slot == slot
    then c.(above := c.above[1..], hi := c.above[0].hi)
    else c
  }

  lemma MergePrevShape(c: Cut, slot: int)
    requires Shape(c) && c.lo < c.hi
    ensures Shape(MergePrev(c, slot)) && MergePrev(c, slot).lo < MergePrev(c, slot).hi
  {}

  lemma MergePrevFits(c: Cut, slot: int)
    requires Shape(c) && Loose(c) && c.lo < c.hi
    ensures var c' := MergePrev(c, slot); Loose(c') && Fits(c'.below, [Entry(c'.lo, c'.hi, slot)])
  {
    var k := |c.below| - 1;
    if MergePrev(c, slot) != c {
      MergedSlice(c.below, 0, k);
      FitsAt(c.below, k);
    }
  }

  lemma MergeNextShape(c: Cut, slot: int)
    requires Shape(c) && Loose(c) && c.lo < c.hi && Fits(c.below, [Entry(c.lo, c.hi, slot)])
    ensures var c' := MergeNext(c, slot); Shape(c') && Trim(c', slot) && c'.lo < c'.hi
  {
    if MergeNext(c, slot) != c {
      MergedTail(c.above);
    }
  }

  lemma MergePrevMeaning(c: Cut, slot: int, x: int)
    requires Shape(c) && c.lo < c.hi
    ensures Meaning(MergePrev(c, slot), slot, x) == Meaning(c, slot, x)
  {
    var k := |c.below| - 1;
    if MergePrev(c, slot) != c {
      var last := c.below[k];
      AtConcat(c.below[..k], [last], x);
      assert c.below == c.below[..k] + [last];
      if last.lo <= x < last.hi {
        AtBelow(c.below[..k], last.lo, x);
        if c.mid != [] { AtAbove(c.mid, c.lo, x); }
        AtAbove(c.above, c.lo, x);
      }
    }
  }

  lemma MergeNextMeaning(c: Cut, slot: int, x: int)
    requires Shape(c) && c.lo < c.hi
    ensures Meaning(MergeNext(c, slot), slot, x) == Meaning(c, slot, x)
  {
    if MergeNext(c, slot) != c {
      var next := c.above[0];
      AtConcat([next], c.above[1..], x);
      assert c.above == [next] + c.above[1..];
      if next.lo <= x < next.hi {
        AtBelow(c.below, c.hi, x);
        if c.mid != [] { AtBelow(c.mid, c.hi, x); }
        AtAbove(c.above[1..], next.hi, x);
      }
    }
  }

  /** The entries once nothing overlaps any more. */
  function Closed(c: Cut, slot: int): seq<Entry> {
    if c.lo < c.hi then c.below + [Entry(c.lo, c.hi, slot)] + c.above else c.below + c.above
  }

  lemma ClosedShape(c: Cut, slot: int)
    requires Shape(c) && Trim(c, slot) && c.mid == []
    ensures Sorted(Closed(c, slot)) && Merged(Closed(c, slot))
  {
    if c.lo < c.hi {
      var e := Entry(c.lo, c.hi, slot);
      MergedConcat(c.below, [e]);
      MergedConcat(c.below + [e], c.above);
    } else {
      MergedConcat(c.below, c.above);
    }
  }

  lemma ClosedMeaning(c: Cut, slot: int, x: int)
    requires Shape(c) && c.mid == []
    ensures At(Closed(c, slot), x) == Meaning(c, slot, x)
  {
    if c.lo < c.hi {
      var e := Entry(c.lo, c.hi, slot);
      AtConcat(c.below, [e], x);
      AtConcat(c.below + [e], c.above, x);
      if c.lo <= x < c.hi { InsideRange(c, x); }
    } else {
      AtConcat(c.below, c.above, x);
    }
  }

  // ---------------------------------------------------------------- the map

  predicate InWindow(es: seq<Entry>, base: int) { forall i :: 0 <= i < |es| ==> base <= es[i].slot < base + TWO_63 }

  /** An update of `slot` in progress. */
  ghost predicate Progress(c: Cut, slot: int, base: int) {
    && Shape(c) && Trim(c, slot) && base <= slot < base + TWO_63
    && InWindow(c.below, base) && InWindow(c.mid, base) && InWindow(c.above, base)
  }

  ghost predicate SameMeaning(a: Cut, b: Cut, slot: int) { forall x :: Meaning(a, slot, x) == Meaning(b, slot, x) }

  lemma AbsorbKeeps(c: Cut, slot: int, base: int)
    requires Progress(c, slot, base) && c.mid != [] && c.lo < c.hi && c.mid[0].slot == slot
    ensures Progress(Absorb(c), slot, base) && SameMeaning(Absorb(c), c, slot)
  {
    AbsorbShape(c);
    AbsorbTrim(c, slot);
    forall x ensures Meaning(Absorb(c), slot, x) == Meaning(c, slot, x) { AbsorbMeaning(c, slot, x); }
  }

  lemma DisplaceKeeps(c: Cut, slot: int, base: int)
    requires Progress(c, slot, base) && c.mid != [] && c.lo < c.hi && c.mid[0].slot < slot
    ensures Progress(Displace(c), slot, base) && SameMeaning(Displace(c), c, slot)
  {
    DisplaceShape(c);
    DisplaceTrim(c, slot);
    DisplaceSame(c, slot);
    DisplaceWindow(c, base);
  }

  lemma DisplaceWindow(c: Cut, base: int)
    requires InWindow(c.below, base) && InWindow(c.mid, base) && InWindow(c.above, base) && c.mid != []
    ensures var c' := Displace(c); InWindow(c'.below, base) && InWindow(c'.mid, base) && InWindow(c'.above, base)
  {}

  lemma DisplaceSame(c: Cut, slot: int)
    requires Shape(c) && c.mid != [] && c.lo < c.hi && c.mid[0].slot < slot
    ensures SameMeaning(Displace(c), c, slot)
  {
    forall x ensures Meaning(Displace(c), slot, x) == Meaning(c, slot, x) { DisplaceMeaning(c, slot, x); }
  }

  lemma YieldKeeps(c: Cut, slot: int, base: int)
    requires Progress(c, slot, base) && c.mid != [] && c.lo < c.hi && slot < c.mid[0].slot
    ensures Progress(Yield(c, slot), slot, base) && SameMeaning(Yield(c, slot), c, slot)
  {
    YieldShape(c, slot);
    YieldTrim(c, slot);
    forall x ensures Meaning(Yield(c, slot), slot, x) == Meaning(c, slot, x) { YieldMeaning(c, slot, x); }
  }

  /** The state in which the loop of `update` starts. */
  function Begun(es: seq<Entry>, lo: int, hi: int, slot: int, i: nat, j: nat): Cut
    requires i <= j <= |es|
  {
    MergeNext(MergePrev(Open(es, lo, hi, i, j), slot), slot)
  }

  ghost predicate Good(es: seq<Entry>, base: int) { Sorted(es) && Merged(es) && InWindow(es, base) }

  lemma BeginShape(es: seq<Entry>, lo: int, hi: int, slot: int, i: nat, j: nat)
    requires Sorted(es) && Merged(es) && lo < hi && EqualRange(es, lo, hi, i, j)
    ensures Shape(Begun(es, lo, hi, slot, i, j)) && Trim(Begun(es, lo, hi, slot, i, j), slot)
  {
    var c := Open(es, lo, hi, i, j);
    assert Shape(c) by { OpenShape(es, lo, hi, i, j); }
    assert Loose(c) by { OpenLoose(es, lo, hi, i, j); }
    var c1 := MergePrev(c, slot);
    assert Shape(c1) && c1.lo < c1.hi by { MergePrevShape(c, slot); }
    assert Loose(c1) && Fits(c1.below, [Entry(c1.lo, c1.hi, slot)]) by { MergePrevFits(c, slot); }
    MergeNextShape(c1, slot);
  }

  lemma BeginWindow(es: seq<Entry>, lo: int, hi: int, slot: int, i: nat, j: nat, base: int)
    requires InWindow(es, base) && i <= j <= |es|
    ensures var c := Begun(es, lo, hi, slot, i, j);
            InWindow(c.below, base) && InWindow(c.mid, base) && InWindow(c.above, base)
  {}

  lemma BeginKeeps(es: seq<Entry>, lo: int, hi: int, slot: int, i: nat, j: nat, base: int)
    requires Good(es, base) && lo < hi && EqualRange(es, lo, hi, i, j) && base <= slot < base + TWO_63
    ensures Progress(Begun(es, lo, hi, slot, i, j), slot, base)
  {
    BeginShape(es, lo, hi, slot, i, j);
    BeginWindow(es, lo, hi, slot, i, j, base);
  }

  lemma BeginMeaning(es: seq<Entry>, lo: int, hi: int, slot: int, i: nat, j: nat, x: int)
    requires Sorted(es) && lo < hi && EqualRange(es, lo, hi, i, j)
    ensures Meaning(Begun(es, lo, hi, slot, i, j), slot, x) == Join(At(es, x), Piece(lo, hi, slot, x))
  {
    var c := Open(es, lo, hi, i, j);
    OpenShape(es, lo, hi, i, j);
    OpenMeaning(es, lo, hi, i, j, x);
    MergePrevShape(c, slot);
    MergePrevMeaning(c, slot, x);
    MergeNextMeaning(MergePrev(c, slot), slot, x);
  }

  /** What an update promises. */
  ghost predicate Updated(was: seq<Entry>, lo: int, hi: int, slot: int, es: seq<Entry>) {
    forall x :: At(es, x) == Join(At(was, x), Piece(lo, hi, slot, x))
  }

  lemma EndKeeps(was: seq<Entry>, lo: int, hi: int, slot: int, i: nat, j: nat, c: Cut, base: int)
    requires Sorted(was) && lo < hi && EqualRange(was, lo, hi, i, j)
    requires Progress(c, slot, base) && c.mid == [] && SameMeaning(c, Begun(was, lo, hi, slot, i, j), slot)
    ensures Good(Closed(c, slot), base) && Updated(was, lo, hi, slot, Closed(c, slot))
  {
    ClosedShape(c, slot);
    forall x ensures At(Closed(c, slot), x) == Join(At(was, x), Piece(lo, hi, slot, x)) {
      ClosedMeaning(c, slot, x);
      BeginMeaning(was, lo, hi, slot, i, j, x);
      assert Meaning(c, slot, x) == Meaning(Begun(was, lo, hi, slot, i, j), slot, x);
    }
  }

  /** The loop of `update`: the overlapping entries in order, each absorbed, displaced or kept. The check
      that slots which are neither equal nor greater are less never fails. */
  method WriteOver(start: Cut, slot: int, ghost base: int) returns (c: Cut)
    requires Progress(start, slot, base)
    ensures Progress(c, slot, base) && c.mid == [] && SameMeaning(c, start, slot)
  {
    c := start;
    while c.lo < c.hi && c.mid != []
      invariant Progress(c, slot, base) && SameMeaning(c, start, slot)
      decreases |c.mid|
    {
      var current := c.mid[0].slot;
      SlotLessIsLess(current, slot);
      SlotLessIsLess(slot, current);
      if slot == current {
        AbsorbKeeps(c, slot, base);
        c := Absorb(c);
      } else if SlotLess(current, slot) {
        DisplaceKeeps(c, slot, base);
        c := Displace(c);
      } else {
        assert SlotLess(slot, current);
        YieldKeeps(c, slot, base);
        c := Yield(c, slot);
      }
    }
  }

  function ClipOne(e: Entry, lo: int, hi: int): Entry {
    Entry(if e.lo < lo then lo else e.lo, if hi < e.hi then hi else e.hi, e.slot)
  }

  function Clip(es: seq<Entry>, lo: int, hi: int): (r: seq<Entry>)
    ensures |r| == |es|
  {
    seq(|es|, i requires 0 <= i < |es| => ClipOne(es[i], lo, hi))
  }

  lemma ClipNext(es: seq<Entry>, i: nat, k: nat, lo: int, hi: int)
    requires i <= k < |es|
    ensures Clip(es[i..k + 1], lo, hi) == Clip(es[i..k], lo, hi) + [ClipOne(es[k], lo, hi)]
  {
    assert es[i..k + 1] == es[i..k] + [es[k]];
  }

  lemma ClipShape(es: seq<Entry>, lo: int, hi: int)
    requires Sorted(es) && Merged(es) && Overlap(es, lo, hi) && lo < hi
    ensures Sorted(Clip(es, lo, hi)) && Merged(Clip(es, lo, hi))
  {}

  lemma {:induction false} ClipAt(es: seq<Entry>, lo: int, hi: int, x: int)
    ensures At(Clip(es, lo, hi), x) == if lo <= x < hi then At(es, x) else None
  {
    if es != [] {
      ClipAt(es[1..], lo, hi, x);
      assert Clip(es, lo, hi)[1..] == Clip(es[1..], lo, hi);
    }
  }

  /** What a query promises. */
  ghost predicate Queried(es: seq<Entry>, lo: int, hi: int, r: seq<Entry>) {
    && Sorted(r) && Merged(r)
    && (forall k :: 0 <= k < |r| ==> lo <= r[k].lo && r[k].hi <= hi)
    && forall x :: At(r, x) == if lo <= x < hi then At(es, x) else None
  }

  lemma QueryKeeps(es: seq<Entry>, lo: int, hi: int, i: nat, j: nat)
    requires Sorted(es) && Merged(es) && lo < hi && EqualRange(es, lo, hi, i, j)
    ensures Queried(es, lo, hi, Clip(es[i..j], lo, hi))
  {
    var c := Open(es, lo, hi, i, j);
    OpenShape(es, lo, hi, i, j);
    OpenLoose(es, lo, hi, i, j);
    ClipShape(c.mid, lo, hi);
    forall x ensures At(Clip(c.mid, lo, hi), x) == if lo <= x < hi then At(es, x) else None {
      ClipAt(c.mid, lo, hi, x);
      OpenMeaning(es, lo, hi, i, j, x);
      if lo <= x < hi { InsideRange(c, x); }
    }
  }

  class SlotIntervalMap {
    var entries: seq<Entry>
    /** All slots lie in the window of 2^63 offsets from here, so that comparing them modulo 2^64 is
        comparing them. */
    ghost var base: int

    ghost predicate Valid()
      reads this
    {
      Good(entries, base)
    }

    constructor (ghost from: int)
      ensures Valid() && entries == [] && base == from
    {
      entries := [];
      base := from;
    }

    /** `std::map::equal_range` with intervals that overlap taken as equal. */
    method FindOverlap(lo: int, hi: int) returns (i: nat, j: nat)
      requires Valid() && lo < hi
      ensures EqualRange(entries, lo, hi, i, j)
    {
      i := 0;
      while i < |entries| && entries[i].hi <= lo
        invariant i <= |entries| && forall k :: 0 <= k < i ==> entries[k].hi <= lo
      {
        i := i + 1;
      }
      j := i;
      while j < |entries| && entries[j].lo < hi
        invariant i <= j <= |entries| && forall k :: 0 <= k < j ==> entries[k].lo < hi
      {
        j := j + 1;
      }
    }

    /** Every offset of the range gets the greater of its slot and the given one, every other offset keeps
        its slot, and touching entries with equal slots are always combined. */
    method Update(lo: int, hi: int, slot: int)
      requires Valid() && base <= slot < base + TWO_63
      modifies this`entries
      ensures Valid() && Updated(old(entries), lo, hi, slot, entries)
    {
      if lo >= hi {
        return;
      }
      var i, j := FindOverlap(lo, hi);
      BeginKeeps(entries, lo, hi, slot, i, j, base);
      var c := WriteOver(Begun(entries, lo, hi, slot, i, j), slot, base);
      EndKeeps(entries, lo, hi, slot, i, j, c, base);
      entries := Closed(c, slot);
    }

    /** The entries that overlap a range, clipped to it. */
    method Query(lo: int, hi: int) returns (r: seq<Entry>)
      requires Valid() && lo < hi
      ensures Queried(entries, lo, hi, r)
    {
      var i, j := FindOverlap(lo, hi);
      r := [];
      var k := i;
      while k < j
        invariant i <= k <= j && r == Clip(entries[i..k], lo, hi)
      {
        ClipNext(entries, i, k, lo, hi);
        r := r + [ClipOne(entries[k], lo, hi)];
        k := k + 1;
      }
      QueryKeeps(entries, lo, hi, i, j);
    }
  }
}
