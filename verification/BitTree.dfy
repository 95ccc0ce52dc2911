/** The 64-ary summary tree behind `LatchingBitSet`: level 0 holds one bit per integer, a bit of any
    higher level says that the matching word one level down is all ones, and the top level is one word. */
module BitTree {

  /** Sixty-four bits, bit k at index k. */
  type Word = w: seq<bool> | |w| == 64 witness seq(64, _ => false)

  predicate Full(w: Word) { forall k :: 0 <= k < 64 ==> w[k] }

  /** `n` integers; level d occupies `sizes[d]` words from word `starts[d]` on. */
  datatype Shape = Shape(n: nat, starts: seq<nat>, sizes: seq<nat>)

  function Height(sh: Shape): nat { |sh.sizes| }

  /** The number of meaningful bits of level d: the rest of its last word is padding. */
  function BitsAt(sh: Shape, d: nat): nat
    requires d <= Height(sh)
  {
    if d == 0 then sh.n else sh.sizes[d - 1]
  }

  ghost predicate ValidLevel(sh: Shape, d: nat)
    requires d < Height(sh) == |sh.starts|
  {
    && sh.sizes[d] == (BitsAt(sh, d) + 63) / 64
    && sh.starts[d] == (if d == 0 then 0 else sh.starts[d - 1] + sh.sizes[d - 1])
    && (d < Height(sh) - 1 <==> sh.sizes[d] > 1)
  }

  ghost predicate ValidShape(sh: Shape) {
    && |sh.starts| == |sh.sizes| >= 1
    && forall d: nat :: d < Height(sh) ==> ValidLevel(sh, d)
  }

  function WordCount(sh: Shape): nat
    requires |sh.starts| == |sh.sizes| >= 1
  {
    sh.starts[|sh.sizes| - 1] + sh.sizes[|sh.sizes| - 1]
  }

  ghost predicate Fits(sh: Shape, data: seq<Word>) {
    ValidShape(sh) && |data| == WordCount(sh)
  }

  lemma {:induction false} LevelsInOrder(sh: Shape, d: nat, e: nat)
    requires ValidShape(sh) && d < e < Height(sh)
    ensures sh.starts[d] + sh.sizes[d] <= sh.starts[e]
    decreases e
  {
    assert ValidLevel(sh, e);
    if d + 1 < e {
      LevelsInOrder(sh, d, e - 1);
    }
  }

  lemma InBounds(sh: Shape, d: nat, j: nat)
    requires ValidShape(sh) && d < Height(sh) && j < sh.sizes[d]
    ensures sh.starts[d] + j < WordCount(sh)
  {
    if d < Height(sh) - 1 {
      LevelsInOrder(sh, d, Height(sh) - 1);
    }
  }

  lemma TopIsOneWord(sh: Shape)
    requires ValidShape(sh)
    ensures sh.sizes[Height(sh) - 1] == (if WordCount(sh) == 0 then 0 else 1)
    ensures WordCount(sh) == 0 <==> sh.n == 0
  {
    var top := Height(sh) - 1;
    assert ValidLevel(sh, top) && ValidLevel(sh, 0);
    if top > 0 {
      assert ValidLevel(sh, top - 1);
      LevelsInOrder(sh, 0, top);
    }
  }

  /** Distinct words of the tree are distinct words of the flat array. */
  lemma FlatIsInjective(sh: Shape, d: nat, j: nat, e: nat, k: nat)
    requires ValidShape(sh) && d < Height(sh) && j < sh.sizes[d] && e < Height(sh) && k < sh.sizes[e]
    requires sh.starts[d] + j == sh.starts[e] + k
    ensures d == e && j == k
  {
    if d < e {
      LevelsInOrder(sh, d, e);
    } else if e < d {
      LevelsInOrder(sh, e, d);
    }
  }

  function WordAt(sh: Shape, data: seq<Word>, d: nat, j: nat): Word
    requires Fits(sh, data) && d < Height(sh) && j < sh.sizes[d]
  {
    InBounds(sh, d, j);
    data[sh.starts[d] + j]
  }

  function Bit(sh: Shape, data: seq<Word>, d: nat, i: nat): bool
    requires Fits(sh, data) && d < Height(sh) && i < BitsAt(sh, d)
  {
    assert ValidLevel(sh, d);
    WordAt(sh, data, d, i / 64)[i % 64]
  }

  ghost function Contents(sh: Shape, data: seq<Word>): set<nat>
    requires Fits(sh, data)
  {
    set i: nat | 0 <= i < sh.n && Bit(sh, data, 0, i)
  }

  // ---------------------------------------------------------------- invariants

  ghost predicate PaddingSet(sh: Shape, data: seq<Word>)
    requires Fits(sh, data)
  {
    forall d, j, k ::
      0 <= d < Height(sh) && 0 <= j < sh.sizes[d] && 0 <= k < 64 && j * 64 + k >= BitsAt(sh, d)
      ==> WordAt(sh, data, d, j)[k]
  }

  /** A summary bit is set only over a full word. */
  ghost predicate SummaryTrue(sh: Shape, data: seq<Word>)
    requires Fits(sh, data)
  {
    forall d, j :: 1 <= d < Height(sh) && 0 <= j < sh.sizes[d - 1] && Bit(sh, data, d, j)
                   ==> Full(WordAt(sh, data, d - 1, j))
  }

  /** A full word has its summary bit set, or the bit is about to be set: (level, bit) is in `due`. */
  ghost predicate SummaryDue(sh: Shape, data: seq<Word>, due: set<(nat, nat)>)
    requires Fits(sh, data)
  {
    forall d, j :: 1 <= d < Height(sh) && 0 <= j < sh.sizes[d - 1] && Full(WordAt(sh, data, d - 1, j))
                   ==> Bit(sh, data, d, j) || (d, j) in due
  }

  ghost predicate TreeInv(sh: Shape, data: seq<Word>, due: set<(nat, nat)>) {
    Fits(sh, data) && PaddingSet(sh, data) && SummaryTrue(sh, data) && SummaryDue(sh, data, due)
  }

  // ---------------------------------------------------------------- one fetch_or

  function SetBit(sh: Shape, data: seq<Word>, d: nat, i: nat): (r: seq<Word>)
    requires Fits(sh, data) && d < Height(sh) && i < BitsAt(sh, d)
    ensures Fits(sh, r)
  {
    assert ValidLevel(sh, d);
    InBounds(sh, d, i / 64);
    var at := sh.starts[d] + i / 64;
    data[at := data[at][i % 64 := true]]
  }

  lemma SetBitWords(sh: Shape, data: seq<Word>, d: nat, i: nat, e: nat, j: nat)
    requires Fits(sh, data) && d < Height(sh) && i < BitsAt(sh, d) && e < Height(sh) && j < sh.sizes[e]
    ensures WordAt(sh, SetBit(sh, data, d, i), e, j) ==
            if e == d && j == i / 64 then WordAt(sh, data, d, j)[i % 64 := true] else WordAt(sh, data, e, j)
  {
    assert ValidLevel(sh, d);
    InBounds(sh, d, i / 64);
    InBounds(sh, e, j);
    if sh.starts[e] + j == sh.starts[d] + i / 64 {
      FlatIsInjective(sh, e, j, d, i / 64);
    }
  }

  lemma SetBitBits(sh: Shape, data: seq<Word>, d: nat, i: nat, e: nat, j: nat)
    requires Fits(sh, data) && d < Height(sh) && i < BitsAt(sh, d) && e < Height(sh) && j < BitsAt(sh, e)
    ensures Bit(sh, SetBit(sh, data, d, i), e, j) <==> Bit(sh, data, e, j) || (e == d && j == i)
  {
    assert ValidLevel(sh, e) && ValidLevel(sh, d);
    SetBitWords(sh, data, d, i, e, j / 64);
    assert j == j / 64 * 64 + j % 64 && i == i / 64 * 64 + i % 64;
  }

  lemma SetBitContents(sh: Shape, data: seq<Word>, d: nat, i: nat)
    requires Fits(sh, data) && d < Height(sh) && i < BitsAt(sh, d)
    ensures Contents(sh, SetBit(sh, data, d, i)) == Contents(sh, data) + (if d == 0 then {i} else {})
  {
    forall j: nat | j < sh.n
      ensures Bit(sh, SetBit(sh, data, d, i), 0, j) <==> Bit(sh, data, 0, j) || (d == 0 && j == i)
    {
      SetBitBits(sh, data, d, i, 0, j);
    }
  }

  /** What is left to do after bit (d, i) is set: its own duty is met, and a word it fills becomes due
      one level up. */
  ghost function DueAfter(sh: Shape, data: seq<Word>, d: nat, i: nat, due: set<(nat, nat)>): set<(nat, nat)>
    requires Fits(sh, data) && d < Height(sh) && i < BitsAt(sh, d)
  {
    assert ValidLevel(sh, d);
    due - {(d, i)} +
    (if Full(WordAt(sh, SetBit(sh, data, d, i), d, i / 64)) && d + 1 < Height(sh) then {(d + 1, i / 64)} else {})
  }

  /** The one step of `insert` keeps the tree sound, for any other duties outstanding. */
  lemma SetBitKeepsTree(sh: Shape, data: seq<Word>, d: nat, i: nat, due: set<(nat, nat)>)
    requires TreeInv(sh, data, due) && d < Height(sh) && i < BitsAt(sh, d)
    requires d > 0 ==> Full(WordAt(sh, data, d - 1, i))
    ensures TreeInv(sh, SetBit(sh, data, d, i), DueAfter(sh, data, d, i, due))
  {
    var data' := SetBit(sh, data, d, i);
    var due' := DueAfter(sh, data, d, i, due);
    forall e, j, k | 0 <= e < Height(sh) && 0 <= j < sh.sizes[e] && 0 <= k < 64 && j * 64 + k >= BitsAt(sh, e)
      ensures WordAt(sh, data', e, j)[k]
    {
      SetBitWords(sh, data, d, i, e, j);
    }
    forall e, j | 1 <= e < Height(sh) && 0 <= j < sh.sizes[e - 1]
      ensures Bit(sh, data', e, j) ==> Full(WordAt(sh, data', e - 1, j))
      ensures Full(WordAt(sh, data', e - 1, j)) ==> Bit(sh, data', e, j) || (e, j) in due'
    {
      SetBitWords(sh, data, d, i, e - 1, j);
      SetBitBits(sh, data, d, i, e, j);
    }
  }

  /** `Bit`, with bits that do not exist counted as set. */
  ghost predicate Bit0(sh: Shape, data: seq<Word>, d: nat, j: nat)
    requires Fits(sh, data)
  {
    d < Height(sh) && j < BitsAt(sh, d) ==> Bit(sh, data, d, j)
  }

  lemma MoreDue(sh: Shape, data: seq<Word>, due: set<(nat, nat)>, due': set<(nat, nat)>)
    requires TreeInv(sh, data, due)
    requires forall d, j :: 1 <= d < Height(sh) && (d, j) in due && !Bit0(sh, data, d, j) ==> (d, j) in due'
    ensures TreeInv(sh, data, due')
  {}

  // ---------------------------------------------------------------- what the top word says

  ghost predicate LevelFull(sh: Shape, data: seq<Word>, d: nat)
    requires Fits(sh, data) && d < Height(sh)
  {
    forall j :: 0 <= j < sh.sizes[d] ==> Full(WordAt(sh, data, d, j))
  }

  lemma {:induction false} FullDownwards(sh: Shape, data: seq<Word>, due: set<(nat, nat)>, d: nat)
    requires TreeInv(sh, data, due) && d < Height(sh) && LevelFull(sh, data, d)
    ensures LevelFull(sh, data, 0)
  {
    if d > 0 {
      var below := d - 1;
      forall j | 0 <= j < sh.sizes[below] ensures Full(WordAt(sh, data, below, j)) {
        assert ValidLevel(sh, d);
        assert Full(WordAt(sh, data, d, j / 64));
        assert Bit(sh, data, d, j);
      }
      FullDownwards(sh, data, due, d - 1);
    }
  }

  lemma {:induction false} FullUpwards(sh: Shape, data: seq<Word>, d: nat)
    requires TreeInv(sh, data, {}) && d < Height(sh) && LevelFull(sh, data, 0)
    ensures LevelFull(sh, data, d)
  {
    if d > 0 {
      FullUpwards(sh, data, d - 1);
      forall j | 0 <= j < sh.sizes[d] ensures Full(WordAt(sh, data, d, j)) {
        WordFromBits(sh, data, {}, d, j);
      }
    }
  }

  /** A word is full once all its meaningful bits are set. */
  lemma WordFromBits(sh: Shape, data: seq<Word>, due: set<(nat, nat)>, d: nat, j: nat)
    requires TreeInv(sh, data, due) && d < Height(sh) && j < sh.sizes[d]
    requires forall i :: j * 64 <= i < j * 64 + 64 && i < BitsAt(sh, d) ==> Bit(sh, data, d, i)
    ensures Full(WordAt(sh, data, d, j))
  {
    forall k | 0 <= k < 64 ensures WordAt(sh, data, d, j)[k] {
      var i := j * 64 + k;
      assert i / 64 == j && i % 64 == k;
      if i < BitsAt(sh, d) {
        assert Bit(sh, data, d, i);
      }
    }
  }

  ghost predicate TopFull(sh: Shape, data: seq<Word>)
    requires Fits(sh, data)
  {
    sh.n == 0 || (assert ValidLevel(sh, 0); LevelFull(sh, data, Height(sh) - 1))
  }

  ghost predicate HasAll(sh: Shape, data: seq<Word>)
    requires Fits(sh, data)
  {
    forall i: nat :: i < sh.n ==> i in Contents(sh, data)
  }

  /** A full top word is proof that every integer is present, whatever inserts are under way; without
      inserts under way it is also implied. */
  lemma TopFullMeansAll(sh: Shape, data: seq<Word>, due: set<(nat, nat)>)
    requires TreeInv(sh, data, due)
    ensures TopFull(sh, data) ==> HasAll(sh, data)
    ensures due == {} && HasAll(sh, data) ==> TopFull(sh, data)
  {
    assert ValidLevel(sh, 0);
    if sh.n > 0 && LevelFull(sh, data, Height(sh) - 1) {
      FullDownwards(sh, data, due, Height(sh) - 1);
      forall i: nat | i < sh.n ensures Bit(sh, data, 0, i) {
        assert Full(WordAt(sh, data, 0, i / 64));
      }
    }
    if due == {} && HasAll(sh, data) {
      forall j | 0 <= j < sh.sizes[0] ensures Full(WordAt(sh, data, 0, j)) {
        forall i | j * 64 <= i < j * 64 + 64 && i < BitsAt(sh, 0) ensures Bit(sh, data, 0, i) {
          assert i in Contents(sh, data);
        }
        WordFromBits(sh, data, due, 0, j);
      }
      FullUpwards(sh, data, Height(sh) - 1);
    }
  }

  // ---------------------------------------------------------------- the search for the first gap

  /** Word j of level d is the first one of its level that is not full. */
  ghost predicate FirstOpen(sh: Shape, data: seq<Word>, d: nat, j: nat)
    requires Fits(sh, data)
  {
    && d < Height(sh) && j < sh.sizes[d]
    && !Full(WordAt(sh, data, d, j))
    && forall k :: 0 <= k < j ==> Full(WordAt(sh, data, d, k))
  }

  ghost predicate IsFirstZero(w: Word, b: nat) {
    b < 64 && !w[b] && forall k :: 0 <= k < b ==> w[k]
  }

  /** The first zero bit of that word is a meaningful bit, and leads to the first open word below. */
  lemma DescendOne(sh: Shape, data: seq<Word>, d: nat, j: nat, b: nat)
    requires TreeInv(sh, data, {}) && FirstOpen(sh, data, d, j) && IsFirstZero(WordAt(sh, data, d, j), b)
    ensures j * 64 + b < BitsAt(sh, d)
    ensures d > 0 ==> FirstOpen(sh, data, d - 1, j * 64 + b)
    ensures d == 0 ==> !Bit(sh, data, 0, j * 64 + b) && forall i: nat :: i < j * 64 + b ==> Bit(sh, data, 0, i)
  {
    var i := j * 64 + b;
    assert ValidLevel(sh, d);
    assert i < BitsAt(sh, d);
    assert i / 64 == j && i % 64 == b;
    forall k | 0 <= k < i ensures Bit(sh, data, d, k) {
      if k / 64 < j {
        assert Full(WordAt(sh, data, d, k / 64));
      }
    }
    assert !Bit(sh, data, d, i);
    if d > 0 {
      var below := d - 1;
      forall k | 0 <= k < i ensures Full(WordAt(sh, data, below, k)) {
        assert Bit(sh, data, d, k);
      }
    }
  }
}
