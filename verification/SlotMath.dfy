/** Slot offsets: 64-bit words compared modulo 2^64, so that a log may outlive the range of its offsets. */
module SlotMath {
  import opened Common

  function U64(x: int): (r: nat)
    ensures r < TWO_64
  {
    x % TWO_64
  }

  /** Conversion of a 64-bit word to a signed integer. */
  function I64(x: nat): int
    requires x < TWO_64
  {
    if x < TWO_63 then x else x - TWO_64
  }

  /** `slot_less_than`. */
  predicate SlotLess(first: int, second: int) { U64(second - first - 1) < TWO_63 }

  function SlotMin(first: int, second: int): int { if SlotLess(first, second) then first else second }

  function SlotMax(first: int, second: int): int { if SlotLess(first, second) then second else first }

  /** `slot_distance`, which calls itself with its arguments exchanged when `y` is less than `x`; at
      distance 2^63 it would do so without end. */
  function SlotDistance(x: int, y: int): nat
    requires U64(x - y) != TWO_63
    decreases SlotLess(y, x)
  {
    if SlotLess(y, x) then SlotDistance(y, x) else U64(y - x)
  }

  /** Below 2^63 apart, the comparison is the order of the integers, whatever the words wrapped to. */
  lemma SlotLessIsLess(a: int, b: int)
    requires -TWO_63 < b - a <= TWO_63
    ensures SlotLess(a, b) <==> a < b
    ensures SlotLess(U64(a), U64(b)) <==> a < b
  {
    assert U64(U64(b) - U64(a) - 1) == U64(b - a - 1) by {
      assert (b - a - 1) - (U64(b) - U64(a) - 1) == TWO_64 * (b / TWO_64 - a / TWO_64);
    }
  }

  /** And only then: for offsets that fit in a word the comparison agrees with the integers if and only if
      the second is less than 2^63 below and at most 2^63 above the first. */
  lemma SlotLessExact(a: int, b: int)
    requires 0 <= a < TWO_64 && 0 <= b < TWO_64
    ensures (SlotLess(a, b) <==> a < b) <==> -TWO_63 < b - a <= TWO_63
  {}

  lemma SlotDistanceIsDistance(a: int, b: int)
    requires 0 <= b - a < TWO_63
    ensures SlotDistance(a, b) == b - a && SlotDistance(b, a) == b - a
  {}

  /** The comparison is a strict order on any window of at most 2^63 offsets, and at distance exactly 2^63
      each of two offsets is less than the other. */
  lemma SlotLessAntisymmetric(a: int, b: int)
    requires 0 <= a < TWO_64 && 0 <= b < TWO_64
    ensures SlotLess(a, b) && SlotLess(b, a) <==> a - b == TWO_63 || b - a == TWO_63
  {}

  function Clamp(x: int, low: int, high: int): int { if x < low then low else if high < x then high else x }

  /** The arithmetic of `advance_flush_pos`: the delta is clamped with slot comparisons on its 64-bit
      pattern. */
  function ClampBySlots(delta: int, unflushed: nat): int
    requires -TWO_63 <= delta < TWO_63 && unflushed < TWO_63
  {
    var positive := I64(U64(SlotMax(0, U64(delta))));
    I64(U64(SlotMin(U64(positive), unflushed)))
  }

  /** That is the clamp to `[0, unflushed]` for every delta but the least 64-bit integer. */
  lemma ClampBySlotsExact(delta: int, unflushed: nat)
    requires -TWO_63 <= delta < TWO_63 && unflushed < TWO_63
    ensures ClampBySlots(delta, unflushed) == Clamp(delta, 0, unflushed) <==> delta != -TWO_63
  {}

  /** For the least one it flushes everything, or moves the position by 2^63. */
  lemma ClampBySlotsAtMinimum(unflushed: nat)
    requires unflushed < TWO_63
    ensures ClampBySlots(-TWO_63, unflushed) == if unflushed > 0 then unflushed else -TWO_63
  {}
}
