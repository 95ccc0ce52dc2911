/** Slices of shared buffers, and the queue of slices that stands for a byte string without copying. */
module StreamBuffer {
  import opened Common
  import opened ArrayCopy

  /** The contents of every buffer allocated so far, by allocation. */
  type Memory = seq<seq<Byte>>

  datatype View = View(buffer: nat, start: nat, len: nat)

  predicate InBounds(mem: Memory, v: View) { v.buffer < |mem| && v.start + v.len <= |mem[v.buffer]| }

  function Bytes(mem: Memory, v: View): (r: seq<Byte>)
    requires InBounds(mem, v)
    ensures |r| == v.len
  {
    mem[v.buffer][v.start..v.start + v.len]
  }

  predicate AllInBounds(mem: Memory, views: seq<View>) { forall i :: 0 <= i < |views| ==> InBounds(mem, views[i]) }

  /** The byte string a queue of views stands for. */
  function Content(mem: Memory, views: seq<View>): seq<Byte>
    requires AllInBounds(mem, views)
  {
    if views == [] then [] else Content(mem, views[..|views| - 1]) + Bytes(mem, views[|views| - 1])
  }

  lemma {:induction false} ContentAppend(mem: Memory, a: seq<View>, b: seq<View>)
    requires AllInBounds(mem, a) && AllInBounds(mem, b)
    ensures AllInBounds(mem, a + b) && Content(mem, a + b) == Content(mem, a) + Content(mem, b)
    decreases |b|
  {
    if b == [] {
      assert a + b == a;
    } else {
      var k := |b| - 1;
      ContentAppend(mem, a, b[..k]);
      assert (a + b)[..|a + b| - 1] == a + b[..k] && (a + b)[|a + b| - 1] == b[k];
      Assoc(Content(mem, a), Content(mem, b[..k]), Bytes(mem, b[k]));
    }
  }

  lemma ContentFront(mem: Memory, views: seq<View>)
    requires AllInBounds(mem, views) && views != []
    ensures Content(mem, views) == Bytes(mem, views[0]) + Content(mem, views[1..])
  {
    assert views == [views[0]] + views[1..];
    ContentAppend(mem, [views[0]], views[1..]);
    assert Content(mem, [views[0]]) == Bytes(mem, views[0]);
  }

  // ---------------------------------------------------------------- one view

  function Min(a: nat, b: nat): nat { if a < b then a else b }

  /** `split`: the prefix returned and what is left of the view. */
  function Split(v: View, offset: nat): (View, View) {
    var n := Min(offset, v.len);
    (View(v.buffer, v.start, n), View(v.buffer, v.start + n, v.len - n))
  }

  lemma SplitBytes(mem: Memory, v: View, offset: nat)
    requires InBounds(mem, v)
    ensures var (a, b) := Split(v, offset); var n := Min(offset, v.len);
            && InBounds(mem, a) && InBounds(mem, b)
            && Bytes(mem, a) == Bytes(mem, v)[..n] && Bytes(mem, b) == Bytes(mem, v)[n..]
            && Bytes(mem, a) + Bytes(mem, b) == Bytes(mem, v)
  {
    var n, s := Min(offset, v.len), mem[v.buffer];
    SliceOfSlice(s, v.start, v.start + v.len, 0, n);
    SliceOfSlice(s, v.start, v.start + v.len, n, v.len);
    assert Bytes(mem, v) == Bytes(mem, v)[0..n] + Bytes(mem, v)[n..v.len];
  }

  lemma SliceOfSlice(s: seq<Byte>, a: nat, b: nat, i: nat, j: nat)
    requires a <= b <= |s| && i <= j <= b - a
    ensures s[a..b][i..j] == s[a + i..a + j]
  {
    forall k | 0 <= k < j - i ensures s[a..b][i..j][k] == s[a + i..a + j][k] {}
  }

  predicate CanMerge(v: View, other: View) { v.buffer == other.buffer && v.start + v.len == other.start }

  /** `merge_with`, which succeeds exactly on neighbours. */
  function Merge(v: View, other: View): View
    requires CanMerge(v, other)
  {
    View(v.buffer, v.start, v.len + other.len)
  }

  lemma MergeBytes(mem: Memory, v: View, other: View)
    requires CanMerge(v, other) && InBounds(mem, v) && InBounds(mem, other)
    ensures InBounds(mem, Merge(v, other)) && Bytes(mem, Merge(v, other)) == Bytes(mem, v) + Bytes(mem, other)
  {}

  /** Splitting a view and merging the parts gives the view back. */
  lemma SplitThenMerge(v: View, offset: nat)
    ensures var (a, b) := Split(v, offset); CanMerge(a, b) && Merge(a, b) == v
  {}

  /** What is left of the front of a queue after one step of `pop`. */
  function Rest(views: seq<View>, m: nat): seq<View>
    requires views != []
  {
    var left := Split(views[0], m).1;
    if left.len == 0 then views[1..] else [left] + views[1..]
  }

  lemma RestContent(mem: Memory, views: seq<View>, m: nat)
    requires AllInBounds(mem, views) && views != []
    ensures AllInBounds(mem, Rest(views, m))
    ensures Bytes(mem, Split(views[0], m).0) + Content(mem, Rest(views, m)) == Content(mem, views)
  {
    ContentFront(mem, views);
    SplitBytes(mem, views[0], m);
    var (part, left) := Split(views[0], m);
    if left.len == 0 {
      assert part == views[0];
    } else {
      var rest := [left] + views[1..];
      assert AllInBounds(mem, rest) && rest[1..] == views[1..];
      ContentFront(mem, rest);
      Assoc(Bytes(mem, part), Bytes(mem, left), Content(mem, views[1..]));
    }
  }

  lemma Assoc(x: seq<Byte>, y: seq<Byte>, z: seq<Byte>)
    ensures x + y + z == x + (y + z)
  {}

  /** Part way through `pop`: what has been taken and what is left make up the whole. */
  predicate Popping(mem: Memory, all: seq<Byte>, taken: seq<View>, rest: seq<View>, popped: nat) {
    && AllInBounds(mem, taken) && AllInBounds(mem, rest)
    && Content(mem, taken) + Content(mem, rest) == all && |Content(mem, taken)| == popped
  }

  /** One step of `pop` moves bytes from the front of the queue to the end of the result. */
  lemma PopStep(mem: Memory, all: seq<Byte>, taken: seq<View>, rest: seq<View>, popped: nat, m: nat)
    requires Popping(mem, all, taken, rest, popped) && rest != [] && m > 0
    ensures var part := Split(rest[0], m).0;
            Popping(mem, all, taken + [part], Rest(rest, m), popped + part.len) && part.len <= m
    ensures |Rest(rest, m)| < |rest| || (|Rest(rest, m)| == |rest| && Split(rest[0], m).0.len > 0)
  {
    RestContent(mem, rest, m);
    SplitBytes(mem, rest[0], m);
    var part := Split(rest[0], m).0;
    var taken' := taken + [part];
    assert taken'[..|taken'| - 1] == taken;
    Assoc(Content(mem, taken), Bytes(mem, part), Content(mem, Rest(rest, m)));
  }

  lemma CutAt(a: seq<Byte>, b: seq<Byte>, n: nat)
    requires |a| <= n && (|a| < n ==> b == [])
    ensures var all := a + b; a == all[..Min(n, |all|)] && b == all[Min(n, |all|)..]
  {}

  lemma PoppedAll(mem: Memory, all: seq<Byte>, taken: seq<View>, rest: seq<View>, popped: nat, n: nat)
    requires Popping(mem, all, taken, rest, popped) && popped <= n && (rest == [] || popped == n)
    ensures var k := Min(n, |all|); Content(mem, taken) == all[..k] && Content(mem, rest) == all[k..]
  {
    CutAt(Content(mem, taken), Content(mem, rest), n);
  }

  /** The loop of `pop`: views are taken whole or in part until `n` bytes are reached. */
  method PopViews(ghost mem: Memory, views: seq<View>, n: nat) returns (taken: seq<View>, rest: seq<View>)
    requires AllInBounds(mem, views)
    ensures AllInBounds(mem, taken) && AllInBounds(mem, rest)
    ensures var all := Content(mem, views); var k := Min(n, |all|);
            Content(mem, taken) == all[..k] && Content(mem, rest) == all[k..]
  {
    var popped: nat := 0;
    taken, rest := [], views;
    ghost var all := Content(mem, views);
    while rest != [] && popped < n
      invariant Popping(mem, all, taken, rest, popped) && popped <= n
      decreases |rest|, n - popped
    {
      PopStep(mem, all, taken, rest, popped, n - popped);
      var part, left := Split(rest[0], n - popped).0, Rest(rest, n - popped);
      assert |left| < |rest| || (|left| == |rest| && part.len > 0);
      taken, rest, popped := taken + [part], left, popped + part.len;
    }
    PoppedAll(mem, all, taken, rest, popped, n);
  }

  // ---------------------------------------------------------------- fragments

  class Fragment {
    var views: seq<View>

    constructor ()
      ensures views == []
    {
      views := [];
    }

    ghost predicate Valid(mem: Memory)
      reads this
    {
      AllInBounds(mem, views)
    }

    ghost function Value(mem: Memory): seq<Byte>
      requires Valid(mem)
      reads this
    {
      Content(mem, views)
    }

    /** Appends the bytes of `view`, merging it into the last view when they are neighbours. */
    method Push(ghost mem: Memory, view: View)
      requires Valid(mem) && InBounds(mem, view)
      modifies this
      ensures Valid(mem) && Value(mem) == old(Value(mem)) + Bytes(mem, view)
      ensures var last := |old(views)| - 1;
              |views| == if old(views) != [] && old(views)[last].buffer == view.buffer
                            && old(views)[last].start + old(views)[last].len == view.start
                         then |old(views)| else |old(views)| + 1
    {
      var k := |views| - 1;
      if views != [] && CanMerge(views[k], view) {
        MergeBytes(mem, views[k], view);
        views := views[k := Merge(views[k], view)];
        assert views[..k] == old(views)[..k];
      } else {
        views := views + [view];
        assert views[..|views| - 1] == old(views);
      }
    }

    /** Moves the bytes of another fragment to the end of this one. */
    method PushAll(ghost mem: Memory, other: Fragment)
      requires other != this && Valid(mem) && other.Valid(mem)
      modifies this, other
      ensures Valid(mem) && Value(mem) == old(Value(mem)) + old(other.Value(mem)) && other.views == []
    {
      var parts := other.views;
      var i := 0;
      while i < |parts|
        invariant i <= |parts| && parts == old(other.views) == other.views && Valid(mem)
        invariant Value(mem) == old(Value(mem)) + Content(mem, parts[..i])
      {
        Push(mem, parts[i]);
        assert parts[..i + 1][..i] == parts[..i];
        i := i + 1;
      }
      assert parts[..i] == parts;
      other.views := [];
    }

    /** Splits the byte string at `n`, or at its end: the first part is returned, the rest stays. */
    method Pop(ghost mem: Memory, n: nat) returns (result: Fragment)
      requires Valid(mem)
      modifies this
      ensures fresh(result) && Valid(mem) && result.Valid(mem)
      ensures result.Value(mem) == old(Value(mem))[..Min(n, |old(Value(mem))|)]
      ensures Value(mem) == old(Value(mem))[Min(n, |old(Value(mem))|)..]
    {
      var taken: seq<View>;
      taken, views := PopViews(mem, views, n);
      result := new Fragment();
      result.views := taken;
    }

    method ByteSize(ghost mem: Memory) returns (n: nat)
      requires Valid(mem)
      ensures n == |Value(mem)|
    {
      n := 0;
      var i := 0;
      while i < |views|
        invariant i <= |views| && n == |Content(mem, views[..i])|
      {
        assert views[..i + 1][..i] == views[..i];
        n := n + views[i].len;
        i := i + 1;
      }
      assert views[..i] == views;
    }

    /** Copies as much of the byte string as fits to the front of `dst`; the rest of `dst` stays. */
    method Gather(mem: Memory, dst: array<Byte>) returns (copied: nat)
      requires Valid(mem)
      modifies dst
      ensures copied == Min(dst.Length, |Value(mem)|)
      ensures dst[..] == Gathered(Value(mem), old(dst[..]))
    {
      copied := 0;
      var i := 0;
      ghost var was := dst[..];
      while i < |views|
        invariant i <= |views| && copied == Min(dst.Length, |Content(mem, views[..i])|)
        invariant dst[..] == Gathered(Content(mem, views[..i]), was)
      {
        var part := Bytes(mem, views[i])[..Min(views[i].len, dst.Length - copied)];
        GatherStep(mem, views, i, was);
        CopyInto(dst, copied, part);
        copied := copied + |part|;
        i := i + 1;
      }
      assert views[..i] == views;
    }
  }

  /** `was` with as much of `bytes` as fits written over its front. */
  function Gathered(bytes: seq<Byte>, was: seq<Byte>): (r: seq<Byte>)
    ensures |r| == |was|
  {
    var k := Min(|was|, |bytes|);
    bytes[..k] + was[k..]
  }

  /** One more view copied behind the bytes already gathered. */
  lemma GatherStep(mem: Memory, views: seq<View>, i: nat, was: seq<Byte>)
    requires AllInBounds(mem, views) && i < |views|
    ensures var bytes, more := Content(mem, views[..i]), Bytes(mem, views[i]);
            var k := Min(|was|, |bytes|); var n := Min(|more|, |was| - k);
            && k + n == Min(|was|, |Content(mem, views[..i + 1])|)
            && Overwrite(Gathered(bytes, was), k, more[..n]) == Gathered(Content(mem, views[..i + 1]), was)
  {
    assert views[..i + 1][..i] == views[..i];
    GatherMore(Content(mem, views[..i]), Bytes(mem, views[i]), was);
  }

  lemma GatherMore(bytes: seq<Byte>, more: seq<Byte>, was: seq<Byte>)
    ensures var k := Min(|was|, |bytes|); var n := Min(|more|, |was| - k);
            Overwrite(Gathered(bytes, was), k, more[..n]) == Gathered(bytes + more, was)
  {}
}
