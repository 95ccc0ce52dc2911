/** A run of elements of a ring, going round at its end. */
module RingWindow {
  function Window<T>(ring: seq<T>, from: nat, n: nat): (r: seq<T>)
    requires |ring| > 0
    ensures |r| == n
  {
    seq(n, i requires 0 <= i => ring[(from + i) % |ring|])
  }
}
