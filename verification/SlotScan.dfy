/** Finding the end of the last whole slot in recovered log data: each slot is a variable-length size
    followed by that many bytes. */
module SlotScan {
  import opened Common
  import opened Varint

  // ---------------------------------------------------------------- what the data says

  /** The size that the header at `at` claims for its slot, header included. */
  function Claimed(bytes: seq<Byte>, at: nat): (r: Option<nat>)
    requires at <= |bytes|
    ensures r.Some? ==> r.value > 0
  {
    var header := Parse(bytes[at..]);
    if header.None? then None else Some(header.value.1 + header.value.0)
  }

  /** Header and body of the slot at `at` are all there. */
  predicate Whole(bytes: seq<Byte>, at: nat)
    requires at <= |bytes|
  {
    Claimed(bytes, at).Some? && at + Claimed(bytes, at).value <= |bytes|
  }

  /** The bytes from `at` to `end` are whole slots. */
  predicate WholeSlots(bytes: seq<Byte>, at: nat, end: nat)
    requires at <= |bytes|
    decreases |bytes| - at
  {
    at == end || (Whole(bytes, at) && WholeSlots(bytes, at + Claimed(bytes, at).value, end))
  }

  /** The end of the last whole slot. */
  function LastWhole(bytes: seq<Byte>, at: nat): (r: nat)
    requires at <= |bytes|
    ensures at <= r <= |bytes|
    decreases |bytes| - at
  {
    if Whole(bytes, at) then LastWhole(bytes, at + Claimed(bytes, at).value) else at
  }

  /** It ends the longest run of whole slots. */
  lemma {:induction false} LastWholeIsLongest(bytes: seq<Byte>, at: nat)
    requires at <= |bytes|
    ensures WholeSlots(bytes, at, LastWhole(bytes, at)) && !Whole(bytes, LastWhole(bytes, at))
    ensures forall k: nat :: WholeSlots(bytes, at, k) ==> at <= k <= LastWhole(bytes, at)
    decreases |bytes| - at
  {
    if Whole(bytes, at) {
      LastWholeIsLongest(bytes, at + Claimed(bytes, at).value);
    }
  }

  // ---------------------------------------------------------------- what the loop does

  /** The size of the slot at `at` as the loop computes it, a 64-bit word. */
  function SlotSize(bytes: seq<Byte>, at: nat): Option<nat>
    requires at <= |bytes|
  {
    if Claimed(bytes, at).None? then None else Some(Claimed(bytes, at).value % TWO_64)
  }

  datatype Loop = Running(at: nat) | Ended(at: nat)

  /** One turn of the loop of `recover_flush_pos`. */
  function Turn(bytes: seq<Byte>, at: nat): (r: Loop)
    requires at <= |bytes|
    ensures at <= r.at <= |bytes|
  {
    var size := SlotSize(bytes, at);
    if size.None? || size.value > |bytes| - at then Ended(at) else Running(at + size.value)
  }

  /** The loop after `n` turns. */
  function Turns(bytes: seq<Byte>, at: nat, n: nat): (r: Loop)
    requires at <= |bytes|
    ensures at <= r.at <= |bytes|
  {
    if n == 0 then Running(at)
    else
      var before := Turns(bytes, at, n - 1);
      if before.Ended? then before else Turn(bytes, before.at)
  }

  ghost predicate EndsAt(bytes: seq<Byte>, at: nat, end: nat)
    requires at <= |bytes|
  {
    exists n :: Turns(bytes, at, n) == Ended(end)
  }

  ghost predicate Ends(bytes: seq<Byte>, at: nat)
    requires at <= |bytes|
  {
    exists n :: Turns(bytes, at, n).Ended?
  }

  lemma {:induction false} FirstTurn(bytes: seq<Byte>, at: nat, n: nat)
    requires at <= |bytes|
    ensures Turns(bytes, at, n + 1) ==
            if Turn(bytes, at).Ended? then Turn(bytes, at) else Turns(bytes, Turn(bytes, at).at, n)
  {
    if n == 0 {
      assert Turns(bytes, at, 0) == Running(at);
    } else {
      FirstTurn(bytes, at, n - 1);
    }
  }

  lemma SameEnd(bytes: seq<Byte>, at: nat, end: nat)
    requires at <= |bytes| && Turn(bytes, at).Running?
    ensures EndsAt(bytes, at, end) <==> EndsAt(bytes, Turn(bytes, at).at, end)
    ensures Ends(bytes, at) <==> Ends(bytes, Turn(bytes, at).at)
  {
    var next := Turn(bytes, at).at;
    forall n: nat ensures Turns(bytes, at, n + 1) == Turns(bytes, next, n) { FirstTurn(bytes, at, n); }
    if m: nat :| Turns(bytes, at, m).Ended? {
      assert Turns(bytes, next, m - 1) == Turns(bytes, at, m);
    }
    if n: nat :| Turns(bytes, next, n).Ended? {
      assert Turns(bytes, at, n + 1) == Turns(bytes, next, n);
    }
    if m: nat :| Turns(bytes, at, m) == Ended(end) {
      assert Turns(bytes, next, m - 1) == Turns(bytes, at, m);
    }
    if n: nat :| Turns(bytes, next, n) == Ended(end) {
      assert Turns(bytes, at, n + 1) == Turns(bytes, next, n);
    }
  }

  // ---------------------------------------------------------------- when the loop finds the last whole slot

  /** The header at `at` claims 2^64 bytes or more, and what is left of that in a 64-bit word fits. */
  predicate Wraps(bytes: seq<Byte>, at: nat)
    requires at <= |bytes|
  {
    Claimed(bytes, at).Some? && Claimed(bytes, at).value >= TWO_64 && SlotSize(bytes, at).value <= |bytes| - at
  }

  /** No header at the end of a run of whole slots does that. */
  predicate NeverWraps(bytes: seq<Byte>, at: nat)
    requires at <= |bytes|
  {
    forall k :: at <= k <= |bytes| && WholeSlots(bytes, at, k) ==> !Wraps(bytes, k)
  }

  lemma WholeNeverWraps(bytes: seq<Byte>, at: nat)
    requires at <= |bytes| < TWO_64 && Whole(bytes, at)
    ensures NeverWraps(bytes, at) <==> NeverWraps(bytes, at + Claimed(bytes, at).value)
  {
    var next := at + Claimed(bytes, at).value;
    assert forall k :: next <= k <= |bytes| && WholeSlots(bytes, next, k) ==> WholeSlots(bytes, at, k);
    LastWholeIsLongest(bytes, next);
    forall k: nat | at < k <= |bytes| && WholeSlots(bytes, at, k) ensures WholeSlots(bytes, next, k) && next <= k {}
  }

  /** A slot that is not whole ends the loop, unless its size wraps and fits. */
  lemma EndsHere(bytes: seq<Byte>, at: nat)
    requires at <= |bytes| < TWO_64 && !Whole(bytes, at)
    ensures EndsAt(bytes, at, at) <==> !Wraps(bytes, at)
    ensures EndsAt(bytes, at, at) <==> NeverWraps(bytes, at)
  {
    if Wraps(bytes, at) {
      forall n: nat ensures Turns(bytes, at, n) != Ended(at) { Passes(bytes, at, n); }
    } else {
      assert Turns(bytes, at, 0) == Running(at);
      assert Turns(bytes, at, 1) == Ended(at);
    }
    assert WholeSlots(bytes, at, at);
  }

  lemma {:induction false} Passes(bytes: seq<Byte>, at: nat, n: nat)
    requires at <= |bytes| && Turn(bytes, at).Running?
    ensures Turns(bytes, at, n) != Ended(at)
  {
    if n > 0 {
      FirstTurn(bytes, at, n - 1);
      if Turn(bytes, at).at == at {
        Passes(bytes, at, n - 1);
      }
    }
  }

  /** The loop ends at the end of the last whole slot if and only if no header it meets there claims 2^64
      bytes or more in a way that wraps to a size that fits. */
  lemma {:induction false} ScanIsExact(bytes: seq<Byte>, at: nat)
    requires at <= |bytes| < TWO_64
    ensures EndsAt(bytes, at, LastWhole(bytes, at)) <==> NeverWraps(bytes, at)
    decreases |bytes| - at
  {
    if Whole(bytes, at) {
      var next := at + Claimed(bytes, at).value;
      SameEnd(bytes, at, LastWhole(bytes, at));
      ScanIsExact(bytes, next);
      WholeNeverWraps(bytes, at);
    } else {
      EndsHere(bytes, at);
    }
  }

  // ---------------------------------------------------------------- when the loop ends at all

  /** The loop, started at `at`, gets to `k` by sizes greater than zero. */
  predicate Meets(bytes: seq<Byte>, at: nat, k: nat)
    requires at <= |bytes|
    decreases |bytes| - at
  {
    at == k || (Turn(bytes, at).Running? && Turn(bytes, at).at > at && Meets(bytes, Turn(bytes, at).at, k))
  }

  /** The header at `k` claims a body of exactly 2^64 less its own size. */
  predicate ClaimsAll(bytes: seq<Byte>, k: nat)
    requires k <= |bytes|
  {
    var header := Unpack(bytes[k..]);
    header.Some? && header.value.0 + header.value.1 == TWO_64
  }

  /** No header met does that. */
  predicate NoneClaimsAll(bytes: seq<Byte>, at: nat)
    requires at <= |bytes|
  {
    forall k :: at <= k <= |bytes| && Meets(bytes, at, k) ==> !ClaimsAll(bytes, k)
  }

  /** The 64-bit size is the claim of a 64-bit body, reduced. */
  lemma SizeOfHeader(bytes: seq<Byte>, at: nat)
    requires at <= |bytes| && Unpack(bytes[at..]).Some?
    ensures var header := Unpack(bytes[at..]).value; SlotSize(bytes, at) == Some((header.1 + header.0) % TWO_64)
  {
    AddModulo(Parse(bytes[at..]).value.1, Parse(bytes[at..]).value.0, TWO_64);
  }

  /** A slot has size zero exactly when its body size is 2^64 less the size of its header. */
  lemma ZeroSize(bytes: seq<Byte>, at: nat)
    requires at <= |bytes| < TWO_64
    ensures SlotSize(bytes, at) == Some(0) <==> ClaimsAll(bytes, at)
  {
    if Unpack(bytes[at..]).Some? {
      SizeOfHeader(bytes, at);
      ParsePrefix(bytes[at..], []);
    }
  }

  lemma {:induction false} NeverEnds(bytes: seq<Byte>, at: nat, k: nat, n: nat)
    requires at <= |bytes| < TWO_64 && k <= |bytes| && Meets(bytes, at, k) && ClaimsAll(bytes, k)
    ensures Turns(bytes, at, n).Running?
    decreases n
  {
    if n > 0 {
      ZeroSize(bytes, k);
      FirstTurn(bytes, at, n - 1);
      NeverEnds(bytes, Turn(bytes, at).at, k, n - 1);
    }
  }

  lemma {:induction false} AlwaysEnds(bytes: seq<Byte>, at: nat)
    requires at <= |bytes| < TWO_64 && NoneClaimsAll(bytes, at)
    ensures Ends(bytes, at)
    decreases |bytes| - at
  {
    assert Meets(bytes, at, at);
    ZeroSize(bytes, at);
    if Turn(bytes, at).Running? {
      var next := Turn(bytes, at).at;
      forall k | next <= k <= |bytes| && Meets(bytes, next, k) ensures !ClaimsAll(bytes, k) {
        assert Meets(bytes, at, k);
      }
      AlwaysEnds(bytes, next);
      SameEnd(bytes, at, 0);
    } else {
      assert Turns(bytes, at, 0) == Running(at);
      assert Turns(bytes, at, 1).Ended?;
    }
  }

  /** The loop ends if and only if no header it meets claims a body of exactly 2^64 less its own size. */
  lemma EndsIff(bytes: seq<Byte>, at: nat)
    requires at <= |bytes| < TWO_64
    ensures Ends(bytes, at) <==> NoneClaimsAll(bytes, at)
  {
    if NoneClaimsAll(bytes, at) {
      AlwaysEnds(bytes, at);
    } else {
      var k :| at <= k <= |bytes| && Meets(bytes, at, k) && ClaimsAll(bytes, k);
      forall n: nat ensures Turns(bytes, at, n).Running? { NeverEnds(bytes, at, k, n); }
    }
  }

  // ---------------------------------------------------------------- the loop

  lemma {:induction false} MeetsNext(bytes: seq<Byte>, at: nat, k: nat)
    requires at <= |bytes| && k <= |bytes| && Meets(bytes, at, k) && Turn(bytes, k).Running? && Turn(bytes, k).at > k
    ensures Meets(bytes, at, Turn(bytes, k).at)
    decreases |bytes| - at
  {
    if at != k { MeetsNext(bytes, Turn(bytes, at).at, k); }
  }

  lemma {:induction false} StaysEnded(bytes: seq<Byte>, at: nat, n: nat, m: nat)
    requires at <= |bytes| && n <= m && Turns(bytes, at, n).Ended?
    ensures Turns(bytes, at, m) == Turns(bytes, at, n)
  {
    if n < m { StaysEnded(bytes, at, n, m - 1); }
  }

  lemma OneEnd(bytes: seq<Byte>, at: nat, e: nat, f: nat)
    requires at <= |bytes| && EndsAt(bytes, at, e)
    ensures EndsAt(bytes, at, f) <==> e == f
  {
    var n: nat :| Turns(bytes, at, n) == Ended(e);
    if m: nat :| Turns(bytes, at, m) == Ended(f) {
      if n <= m { StaysEnded(bytes, at, n, m); } else { StaysEnded(bytes, at, m, n); }
    }
  }

  /** What the loop knows when it ends after `n` turns and one more. */
  lemma EndsThere(bytes: seq<Byte>, at: nat, n: nat)
    requires at <= |bytes| < TWO_64 && Turns(bytes, 0, n) == Running(at) && Turn(bytes, at).Ended?
    ensures EndsAt(bytes, 0, at) && NoneClaimsAll(bytes, 0) && (at == LastWhole(bytes, 0) <==> NeverWraps(bytes, 0))
  {
    EndsIff(bytes, 0);
    ScanIsExact(bytes, 0);
    assert Turns(bytes, 0, n + 1) == Ended(at);
    OneEnd(bytes, 0, at, LastWhole(bytes, 0));
  }

  /** What it knows when it meets a slot of size zero. */
  lemma GoesRound(bytes: seq<Byte>, at: nat)
    requires at <= |bytes| < TWO_64 && Meets(bytes, 0, at) && SlotSize(bytes, at) == Some(0)
    ensures !Ends(bytes, 0) && !NoneClaimsAll(bytes, 0) && !NeverWraps(bytes, 0)
  {
    ZeroSize(bytes, at);
    EndsIff(bytes, 0);
    ScanIsExact(bytes, 0);
  }

  /** The loop of `recover_flush_pos`. The result is where it ends, or `None` where it would go round at the
      same place forever. */
  method Scan(bytes: seq<Byte>) returns (end: Option<nat>)
    requires |bytes| < TWO_64
    ensures end.Some? ==> EndsAt(bytes, 0, end.value)
    ensures end.None? ==> !Ends(bytes, 0)
    ensures end.Some? <==> NoneClaimsAll(bytes, 0)
    ensures end == Some(LastWhole(bytes, 0)) <==> NeverWraps(bytes, 0)
  {
    var at := 0;
    ghost var n := 0;
    while true
      invariant at <= |bytes| && Turns(bytes, 0, n) == Running(at) && Meets(bytes, 0, at)
      decreases |bytes| - at
    {
      var header := UnpackFrom(bytes[at..]);
      if header.None? {
        break;
      }
      SizeOfHeader(bytes, at);
      var size := (header.value.1 + header.value.0) % TWO_64;
      if size > |bytes| - at {
        break;
      }
      if size == 0 {
        GoesRound(bytes, at);
        return None;
      }
      MeetsNext(bytes, 0, at);
      at, n := at + size, n + 1;
    }
    EndsThere(bytes, at, n);
    return Some(at);
  }

  // ---------------------------------------------------------------- data on which the loop goes wrong

  lemma TenGroups()
    ensures Pow128(5) == 0x8_0000_0000 && Pow128(10) == 0x8_0000_0000 * 0x8_0000_0000
  {
    assert Pow128(2) == 16384;
    assert Pow128(4) == 16384 * 16384;
    assert Pow128(7) == 16384 * Pow128(5);
    assert Pow128(9) == 16384 * Pow128(7);
  }

  /** What a ten-byte header that claims nearly 2^64 bytes looks like to the loop. */
  lemma HugeHeader(body: nat)
    requires TWO_64 - 10 <= body < TWO_64
    ensures var bytes := PackAs(body, 10); Claimed(bytes, 0) == Some(body + 10) && LastWhole(bytes, 0) == 0
  {
    TenGroups();
    var bytes := PackAs(body, 10);
    ParsePacked(body, 10, []);
    assert bytes + [] == bytes && bytes[0..] == bytes;
  }

  lemma {:induction false} Stuck(bytes: seq<Byte>, at: nat, n: nat)
    requires at <= |bytes| && SlotSize(bytes, at) == Some(0)
    ensures Turns(bytes, at, n) == Running(at)
  {
    if n > 0 { Stuck(bytes, at, n - 1); }
  }

  /** Ten bytes that claim a body of 2^64 - 10 bytes: after any number of turns the loop is where it began. */
  lemma EndlessScan(n: nat)
    ensures Turns(PackAs(TWO_64 - 10, 10), 0, n) == Running(0)
  {
    HugeHeader(TWO_64 - 10);
    Stuck(PackAs(TWO_64 - 10, 10), 0, n);
  }

  /** The value without its `k` low groups. */
  function HighGroups(n: nat, k: nat): nat { if k == 0 then n else HighGroups(n / 128, k - 1) }

  lemma {:induction false} PackedTail(n: nat, size: nat, k: nat)
    requires k < size
    ensures PackAs(n, size)[k..] == PackAs(HighGroups(n, k), size - k)
  {
    if k > 0 {
      PackedTail(n / 128, size - 1, k - 1);
      assert PackAs(n, size)[k..] == PackAs(n / 128, size - 1)[k - 1..];
    }
  }

  lemma HighGroupsOfHuge()
    ensures HighGroups(TWO_64 - 5, 5) == 0x1FFF_FFFF
  {
    assert HighGroups(0xF_FFFF_FFFF, 1) == 0x1FFF_FFFF;
    assert HighGroups(0x7FF_FFFF_FFFF, 2) == 0x1FFF_FFFF;
    assert HighGroups(0x3_FFFF_FFFF_FFFF, 3) == 0x1FFF_FFFF;
    assert HighGroups(0x1FF_FFFF_FFFF_FFFF, 4) == 0x1FFF_FFFF;
  }

  /** Ten bytes that claim a body of 2^64 - 5 bytes: no slot there is whole, and the loop ends inside the
      header. */
  lemma FalseSlot()
    ensures var bytes := PackAs(TWO_64 - 5, 10); LastWhole(bytes, 0) == 0 && EndsAt(bytes, 0, 5)
  {
    TenGroups();
    HugeHeader(TWO_64 - 5);
    HighGroupsOfHuge();
    var bytes := PackAs(TWO_64 - 5, 10);
    PackedTail(TWO_64 - 5, 10, 5);
    ParsePacked(0x1FFF_FFFF, 5, []);
    assert bytes[5..] + [] == bytes[5..];
    assert Turns(bytes, 0, 0) == Running(0);
    assert Turns(bytes, 0, 1) == Running(5);
    assert Turns(bytes, 0, 2) == Ended(5);
  }

  // ---------------------------------------------------------------- data that the slot writer wrote

  /** What `SlotWriter` appends for a body: its size, then the body. */
  function Slot(body: seq<Byte>): seq<Byte> { PackAs(|body|, PackedSize(|body|)) + body }

  function Written(bodies: seq<seq<Byte>>): seq<Byte> {
    if bodies == [] then [] else Slot(bodies[0]) + Written(bodies[1..])
  }

  lemma {:induction false} HeaderCut(n: nat, size: nat, cut: nat)
    requires cut < size
    ensures Parse(PackAs(n, size)[..cut]).None?
  {
    if cut > 0 {
      HeaderCut(n / 128, size - 1, cut - 1);
      assert PackAs(n, size)[..cut][1..] == PackAs(n / 128, size - 1)[..cut - 1];
    }
  }

  /** The front slot as the scan sees it, if it is all there or cut off. */
  lemma FrontSlot(bytes: seq<Byte>, at: nat, body: seq<Byte>, after: seq<Byte>)
    requires at <= |bytes| && bytes[at..] <= Slot(body) + after
    ensures Claimed(bytes, at).None? || Claimed(bytes, at) == Some(|Slot(body)|)
    ensures |bytes| - at >= |Slot(body)| ==> Claimed(bytes, at) == Some(|Slot(body)|)
  {
    var n, size := |body|, PackedSize(|body|);
    var cut := |bytes| - at;
    PackedSizeExact(n);
    if cut < size {
      HeaderCut(n, size, cut);
      assert bytes[at..] == PackAs(n, size)[..cut];
    } else {
      var rest := (body + after)[..cut - size];
      ParsePacked(n, size, rest);
      assert bytes[at..] == PackAs(n, size) + rest;
    }
  }

  /** The data from `at` is what the writer wrote, cut off behind `j` whole slots. */
  predicate Torn(bytes: seq<Byte>, at: nat, bodies: seq<seq<Byte>>, j: nat) {
    && at <= |bytes| < TWO_64 && |Written(bodies)| < TWO_64 && j <= |bodies| && bytes[at..] <= Written(bodies)
    && |Written(bodies[..j])| <= |bytes| - at && (j < |bodies| ==> |bytes| - at < |Written(bodies[..j + 1])|)
  }

  lemma TornHere(bytes: seq<Byte>, at: nat, bodies: seq<seq<Byte>>)
    requires Torn(bytes, at, bodies, 0)
    ensures !Whole(bytes, at) && !Wraps(bytes, at)
  {
    if bodies != [] {
      assert bodies[..1][1..] == [];
      FrontSlot(bytes, at, bodies[0], Written(bodies[1..]));
    }
  }

  lemma TornNext(bytes: seq<Byte>, at: nat, bodies: seq<seq<Byte>>, j: nat)
    requires Torn(bytes, at, bodies, j) && j > 0
    ensures var size := |Slot(bodies[0])|;
            && Whole(bytes, at) && Claimed(bytes, at) == Some(size) && Torn(bytes, at + size, bodies[1..], j - 1)
            && |Written(bodies[..j])| == size + |Written(bodies[1..][..j - 1])|
  {
    var size := |Slot(bodies[0])|;
    assert bodies[..j][0] == bodies[0] && bodies[..j][1..] == bodies[1..][..j - 1];
    assert j < |bodies| ==> bodies[..j + 1][0] == bodies[0] && bodies[..j + 1][1..] == bodies[1..][..j];
    FrontSlot(bytes, at, bodies[0], Written(bodies[1..]));
    assert bytes[at + size..] == bytes[at..][size..];
  }

  lemma {:induction false} TornFrom(bytes: seq<Byte>, at: nat, bodies: seq<seq<Byte>>, j: nat)
    requires Torn(bytes, at, bodies, j)
    ensures LastWhole(bytes, at) == at + |Written(bodies[..j])| && NeverWraps(bytes, at)
    decreases j
  {
    if j == 0 {
      TornHere(bytes, at, bodies);
      EndsHere(bytes, at);
    } else {
      TornNext(bytes, at, bodies, j);
      TornFrom(bytes, at + |Slot(bodies[0])|, bodies[1..], j - 1);
      WholeNeverWraps(bytes, at);
    }
  }

  /** Of slots that the writer wrote and that were cut off anywhere, the scan ends behind the last one that is
      whole. */
  lemma TornLogIsScanned(bodies: seq<seq<Byte>>, cut: nat, j: nat)
    requires cut <= |Written(bodies)| < TWO_64 && j <= |bodies| && |Written(bodies[..j])| <= cut
    requires j < |bodies| ==> cut < |Written(bodies[..j + 1])|
    ensures EndsAt(Written(bodies)[..cut], 0, |Written(bodies[..j])|)
  {
    var bytes := Written(bodies)[..cut];
    assert bytes[0..] == bytes;
    TornFrom(bytes, 0, bodies, j);
    ScanIsExact(bytes, 0);
  }
}
