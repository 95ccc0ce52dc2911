/** The bit set used by one thread at a time: construction, `insert`, `contains`, `is_full` and
    `first_missing` against a plain set of integers. */
module LatchingBitSet {
  import opened BitTree

  function ZeroWord(): Word { seq(64, _ => false) }

  /** The last word of a level of `bits` bits as the constructor writes it. */
  function LastWord(bits: nat): Word {
    var leftover := bits % 64;
    if leftover == 0 then ZeroWord() else seq(64, k => k >= leftover)
  }

  function FirstZeroFrom(w: Word, k: nat): (b: nat)
    requires k < 64 && !Full(w) && forall m :: 0 <= m < k ==> w[m]
    ensures IsFirstZero(w, b)
    decreases 64 - k
  {
    if !w[k] then k else FirstZeroFrom(w, k + 1)
  }

  function LevelSize(bits: nat): nat { (bits + 63) / 64 }

  /** The levels laid out so far, before the last one is known to be the last. */
  ghost predicate Laid(n: nat, starts: seq<nat>, sizes: seq<nat>, d: nat) {
    && d < |sizes| && d < |starts|
    && sizes[d] == LevelSize(if d == 0 then n else sizes[d - 1])
    && starts[d] == (if d == 0 then 0 else starts[d - 1] + sizes[d - 1])
  }

  /** Word (d, j) of a new set, once the padding of the first `levels` levels is in place. */
  ghost predicate FreshWord(sh: Shape, data: seq<Word>, d: nat, j: nat, levels: nat)
    requires Fits(sh, data) && d < Height(sh) && j < sh.sizes[d]
  {
    WordAt(sh, data, d, j) ==
    if d < levels && j == sh.sizes[d] - 1 then LastWord(BitsAt(sh, d)) else ZeroWord()
  }

  ghost predicate FreshUpTo(sh: Shape, data: seq<Word>, levels: nat)
    requires Fits(sh, data)
  {
    forall d: nat, j: nat :: d < Height(sh) && j < sh.sizes[d] ==> FreshWord(sh, data, d, j, levels)
  }

  lemma FreshWordBit(sh: Shape, data: seq<Word>, d: nat, j: nat, k: nat)
    requires Fits(sh, data) && FreshUpTo(sh, data, Height(sh)) && d < Height(sh) && j < sh.sizes[d] && k < 64
    ensures WordAt(sh, data, d, j)[k] <==> j * 64 + k >= BitsAt(sh, d)
  {
    assert ValidLevel(sh, d);
    assert FreshWord(sh, data, d, j, Height(sh));
    var bits := BitsAt(sh, d);
    assert sh.sizes[d] == (bits + 63) / 64;
    if j == sh.sizes[d] - 1 {
      assert bits % 64 == 0 ==> j * 64 + 64 == bits;
      assert bits % 64 != 0 ==> j * 64 + bits % 64 == bits;
    }
  }

  lemma FreshIsEmpty(sh: Shape, data: seq<Word>)
    requires Fits(sh, data) && FreshUpTo(sh, data, Height(sh))
    ensures TreeInv(sh, data, {}) && Contents(sh, data) == {}
  {
    forall d: nat, i: nat | d < Height(sh) && i < BitsAt(sh, d) ensures !Bit(sh, data, d, i) {
      assert ValidLevel(sh, d);
      FreshWordBit(sh, data, d, i / 64, i % 64);
    }
    forall d: nat, j: nat | d < Height(sh) && j < sh.sizes[d]
      ensures !Full(WordAt(sh, data, d, j))
      ensures forall k :: 0 <= k < 64 && j * 64 + k >= BitsAt(sh, d) ==> WordAt(sh, data, d, j)[k]
    {
      assert ValidLevel(sh, d);
      FreshWordBit(sh, data, d, j, 0);
      forall k | 0 <= k < 64 && j * 64 + k >= BitsAt(sh, d) ensures WordAt(sh, data, d, j)[k] {
        FreshWordBit(sh, data, d, j, k);
      }
    }
  }

  lemma WriteLastWord(sh: Shape, data: seq<Word>, d: nat, at: nat)
    requires Fits(sh, data) && FreshUpTo(sh, data, d) && d < Height(sh) && sh.sizes[d] > 0
    requires at == sh.starts[d] + sh.sizes[d] - 1
    ensures at < |data| && FreshUpTo(sh, data[at := LastWord(BitsAt(sh, d))], d + 1)
  {
    InBounds(sh, d, sh.sizes[d] - 1);
    var data' := data[at := LastWord(BitsAt(sh, d))];
    var next := d + 1;
    forall e: nat, j: nat | e < Height(sh) && j < sh.sizes[e]
      ensures FreshWord(sh, data', e, j, next)
    {
      assert FreshWord(sh, data, e, j, d);
      InBounds(sh, e, j);
      if sh.starts[e] + j == at {
        FlatIsInjective(sh, e, j, d, sh.sizes[d] - 1);
      }
    }
  }

  /** The constructor's first loop: sizes and starts of the levels, and the padded last word of each. */
  method LayOut(n: nat)
    returns (starts: seq<nat>, lastWord: seq<Word>, totalSize: nat, ghost sh: Shape)
    ensures ValidShape(sh) && sh.n == n && sh.starts == starts && totalSize == WordCount(sh)
    ensures |lastWord| == Height(sh)
    ensures forall d: nat :: d < Height(sh) ==> lastWord[d] == LastWord(BitsAt(sh, d))
  {
    var levelSize := n;
    totalSize, starts, lastWord := 0, [0], [];
    ghost var sizes: seq<nat> := [];
    while true
      invariant |starts| == |sizes| + 1 && |lastWord| == |sizes|
      invariant levelSize == (if |sizes| == 0 then n else sizes[|sizes| - 1])
      invariant totalSize == starts[|sizes|] == (if |sizes| == 0 then 0 else starts[|sizes| - 1] + sizes[|sizes| - 1])
      invariant forall d: nat :: d < |sizes| ==> Laid(n, starts, sizes, d)
      invariant forall d :: 0 <= d < |sizes| ==> sizes[d] > 1
      invariant forall d :: 0 <= d < |sizes| ==> lastWord[d] == LastWord(if d == 0 then n else sizes[d - 1])
      decreases levelSize
    {
      lastWord := lastWord + [LastWord(levelSize)];
      ghost var before := sizes;
      levelSize := (levelSize + 63) / 64;
      totalSize := totalSize + levelSize;
      sizes := sizes + [levelSize];
      assert forall d: nat :: d < |before| ==> Laid(n, starts, before, d) ==> Laid(n, starts, sizes, d);
      assert Laid(n, starts, sizes, |before|);
      if levelSize <= 1 {
        break;
      }
      ghost var startsBefore := starts;
      starts := starts + [starts[|starts| - 1] + levelSize];
      assert forall d: nat :: d < |sizes| ==> Laid(n, startsBefore, sizes, d) ==> Laid(n, starts, sizes, d);
    }
    sh := Shape(n, starts, sizes);
    assert ValidShape(sh) by {
      forall d: nat | d < Height(sh) ensures ValidLevel(sh, d) {
        assert Laid(n, starts, sizes, d);
      }
    }
    assert totalSize == WordCount(sh);
  }

  /** The constructor's second loop. */
  method WritePadding(words: array<Word>, starts: seq<nat>, lastWord: seq<Word>, ghost sh: Shape)
    requires ValidShape(sh) && sh.starts == starts && words.Length == WordCount(sh) > 0
    requires |lastWord| == Height(sh)
    requires forall d: nat :: d < Height(sh) ==> lastWord[d] == LastWord(BitsAt(sh, d))
    requires FreshUpTo(sh, words[..], 0)
    modifies words
    ensures FreshUpTo(sh, words[..], Height(sh))
  {
    TopIsOneWord(sh);
    for i := 0 to |starts| - 1
      invariant FreshUpTo(sh, words[..], i)
    {
      assert ValidLevel(sh, i) && ValidLevel(sh, i + 1);
      WriteLastWord(sh, words[..], i, starts[i + 1] - 1);
      words[starts[i + 1] - 1] := lastWord[i];
    }
    WriteLastWord(sh, words[..], |starts| - 1, starts[|starts| - 1]);
    words[starts[|starts| - 1]] := lastWord[|lastWord| - 1];
  }

  /** One turn of the loop in `insert`, run alone: either the tree is sound again or one bit is due. */
  lemma OneFetchOr(sh: Shape, data: seq<Word>, d: nat, i: nat)
    requires d < Height(sh) && i < BitsAt(sh, d) && TreeInv(sh, data, {(d, i)})
    requires d > 0 ==> Full(WordAt(sh, data, d - 1, i))
    ensures i / 64 < sh.sizes[d] && sh.starts[d] + i / 64 < |data|
    ensures var after := SetBit(sh, data, d, i);
            && WordAt(sh, after, d, i / 64) == WordAt(sh, data, d, i / 64)[i % 64 := true]
            && Contents(sh, after) == Contents(sh, data) + (if d == 0 then {i} else {})
            && TreeInv(sh, after, if Full(WordAt(sh, after, d, i / 64)) && d + 1 < Height(sh)
                                  then {(d + 1, i / 64)} else {})
  {
    assert ValidLevel(sh, d);
    InBounds(sh, d, i / 64);
    SetBitKeepsTree(sh, data, d, i, {(d, i)});
    SetBitContents(sh, data, d, i);
    SetBitWords(sh, data, d, i, d, i / 64);
    var after := SetBit(sh, data, d, i);
    assert DueAfter(sh, data, d, i, {(d, i)}) ==
           if Full(WordAt(sh, after, d, i / 64)) && d + 1 < Height(sh) then {(d + 1, i / 64)} else {};
  }

  class LatchingBitSet {
    const upperBound: nat
    const startOfLevel: seq<nat>
    const data: array<Word>
    ghost const shape: Shape

    ghost predicate Valid()
      reads data
    {
      && shape.n == upperBound
      && shape.starts == startOfLevel
      && TreeInv(shape, data[..], {})
    }

    ghost function Items(): set<nat>
      requires Valid()
      reads data
    {
      Contents(shape, data[..])
    }

    constructor (n: nat)
      ensures Valid() && fresh(data) && upperBound == n && Items() == {}
    {
      var starts, lastWord, totalSize, sh := LayOut(n);
      var words := new Word[totalSize](_ => ZeroWord());
      assert FreshUpTo(sh, words[..], 0) by {
        forall d: nat, j: nat | d < Height(sh) && j < sh.sizes[d] ensures FreshWord(sh, words[..], d, j, 0) {
          InBounds(sh, d, j);
        }
      }
      TopIsOneWord(sh);
      assert ValidLevel(sh, 0);
      if totalSize > 0 {
        WritePadding(words, starts, lastWord, sh);
      }
      assert FreshUpTo(sh, words[..], Height(sh));
      FreshIsEmpty(sh, words[..]);
      upperBound := n;
      startOfLevel := starts;
      data := words;
      shape := sh;
    }

    /** Index arithmetic shared by the readers: the first word of the top level. */
    lemma TopWord()
      requires Valid() && upperBound > 0
      ensures |startOfLevel| == Height(shape) >= 1 && shape.sizes[Height(shape) - 1] == 1
      ensures startOfLevel[|startOfLevel| - 1] < data.Length
      ensures data[startOfLevel[|startOfLevel| - 1]] == WordAt(shape, data[..], Height(shape) - 1, 0)
    {
      var top := Height(shape) - 1;
      TopIsOneWord(shape);
      InBounds(shape, top, 0);
    }

    method IsFull() returns (full: bool)
      requires Valid()
      ensures full <==> forall i: nat :: i < upperBound ==> i in Items()
    {
      TopFullMeansAll(shape, data[..], {});
      if upperBound == 0 {
        return true;
      }
      TopWord();
      full := Full(data[startOfLevel[|startOfLevel| - 1]]);
      assert full <==> TopFull(shape, data[..]);
      assert full <==> HasAll(shape, data[..]);
      assert Items() == Contents(shape, data[..]);
    }

    method Contains(i: nat) returns (present: bool)
      requires Valid() && i < upperBound
      ensures present <==> i in Items()
    {
      ghost var at := ValidLevel(shape, 0);
      InBounds(shape, 0, i / 64);
      present := data[i / 64][i % 64];
    }

    /** `insert`: one `fetch_or` per level, going up for as long as the word just written is all ones. */
    method Insert(i: nat) returns (changed: bool)
      requires Valid() && i < upperBound
      modifies data
      ensures Valid()
      ensures Items() == old(Items()) + {i}
      ensures changed <==> i !in old(Items())
    {
      changed := false;
      var depth: nat, index: nat := 0, i;
      MoreDue(shape, data[..], {}, {(0, i)});
      while true
        invariant depth < Height(shape) && index < BitsAt(shape, depth)
        invariant depth == 0 ==> index == i && !changed && data[..] == old(data[..])
        invariant depth > 0 ==> changed && i !in old(Items()) && Full(WordAt(shape, data[..], depth - 1, index))
        invariant TreeInv(shape, data[..], {(depth, index)})
        invariant Contents(shape, data[..]) == old(Items()) + (if depth == 0 then {} else {i})
        decreases Height(shape) - depth
      {
        ghost var before := data[..];
        OneFetchOr(shape, before, depth, index);
        var at := index / 64 + startOfLevel[depth];
        var oldValue := data[at];
        var newValue := oldValue[index % 64 := true];
        data[at] := newValue;
        assert data[..] == SetBit(shape, before, depth, index);
        changed := changed || oldValue != newValue;
        if !changed || !Full(newValue) {
          break;
        }
        depth := depth + 1;
        if depth == |startOfLevel| {
          break;
        }
        index := index / 64;
      }
    }

    /** `first_missing`: walk down from the top word, taking the first zero bit at each level. */
    method FirstMissing() returns (first: nat)
      requires Valid()
      ensures first <= upperBound
      ensures forall i: nat :: i < first ==> i in Items()
      ensures first < upperBound ==> first !in Items()
    {
      var full := IsFull();
      if full {
        return upperBound;
      }
      TopWord();
      TopFullMeansAll(shape, data[..], {});
      var depth: nat, lower: nat := |startOfLevel|, 0;
      while depth > 0
        invariant depth <= |startOfLevel|
        invariant depth > 0 ==> FirstOpen(shape, data[..], depth - 1, lower)
        invariant depth == 0 ==> lower < upperBound && !Bit(shape, data[..], 0, lower)
                                 && forall i: nat :: i < lower ==> Bit(shape, data[..], 0, i)
      {
        depth := depth - 1;
        var index := startOfLevel[depth] + lower;
        InBounds(shape, depth, lower);
        // The early return for a word past the end of its level is never taken.
        assert depth + 1 == |startOfLevel| || index < startOfLevel[depth + 1] by {
          if depth + 1 < |startOfLevel| {
            LevelsInOrder(shape, depth, depth + 1);
          }
        }
        var value := data[index];
        var firstZero := FirstZeroFrom(value, 0);
        DescendOne(shape, data[..], depth, lower, firstZero);
        lower := lower * 64 + firstZero;
      }
      return lower;
    }
  }
}
