/** Variable-length integers: seven bits to a byte, least significant first, the high bit set on every byte
    but the last. */
module Varint {
  import opened Arith
  import opened Common

  function Pow128(k: nat): (r: nat)
    ensures r >= 1
  {
    if k == 0 then 1 else 128 * Pow128(k - 1)
  }

  /** The number of bits up to the highest one set, 64 less the leading zeros. */
  function BitLength(n: nat): nat { if n == 0 then 0 else 1 + BitLength(n / 2) }

  /** `packed_sizeof_varint`. */
  function PackedSize(n: nat): nat { if n == 0 then 1 else (BitLength(n) + 6) / 7 }

  /** The bytes written for a value that takes `size` of them. */
  function PackAs(n: nat, size: nat): (r: seq<Byte>)
    requires size > 0
    ensures |r| == size
  {
    if size == 1 then [n % 128] else [n % 128 + 128] + PackAs(n / 128, size - 1)
  }

  /** `pack_varint_to`, which fails when there is not enough room. */
  function Pack(n: nat, room: nat): Option<seq<Byte>> {
    if room < PackedSize(n) then None else Some(PackAs(n, PackedSize(n)))
  }

  /** The value of a byte sequence up to its first byte without the high bit, and the number of bytes read. */
  function Parse(bytes: seq<Byte>): Option<(nat, nat)> {
    if bytes == [] then None
    else if bytes[0] < 128 then Some((bytes[0], 1))
    else
      var rest := Parse(bytes[1..]);
      if rest.None? then None else Some((bytes[0] % 128 + 128 * rest.value.0, rest.value.1 + 1))
  }

  /** `unpack_varint_from`: the value keeps its low 64 bits. */
  function Unpack(bytes: seq<Byte>): Option<(nat, nat)> {
    var r := Parse(bytes);
    if r.None? then None else Some((r.value.0 % TWO_64, r.value.1))
  }

  lemma HalfLength(n: nat)
    requires n > 0
    ensures PackedSize(n) > 0
    ensures n >= 128 ==> PackedSize(n) == PackedSize(n / 128) + 1
    ensures n < 128 ==> PackedSize(n) == 1
  {
    if n >= 128 {
      SevenHalves(n);
    } else {
      SmallLength(n);
    }
  }

  lemma SmallLength(n: nat)
    requires 0 < n < 128
    ensures 1 <= BitLength(n) <= 7
  {}

  lemma SevenHalves(n: nat)
    requires n >= 128
    ensures BitLength(n) == 7 + BitLength(n / 128) && n / 128 > 0
  {
    var a := n / 2;
    var b := a / 2;
    var c := b / 2;
    var d := c / 2;
    var e := d / 2;
    var f := e / 2;
    assert f / 2 == n / 128;
    assert BitLength(f) == 1 + BitLength(n / 128);
    assert BitLength(e) == 2 + BitLength(n / 128);
    assert BitLength(d) == 3 + BitLength(n / 128);
    assert BitLength(c) == 4 + BitLength(n / 128);
    assert BitLength(b) == 5 + BitLength(n / 128);
    assert BitLength(a) == 6 + BitLength(n / 128);
  }

  /** The packed size is the least number of seven-bit groups that holds the value. */
  lemma {:induction false} PackedSizeExact(n: nat)
    ensures PackedSize(n) > 0 && n < Pow128(PackedSize(n)) && (n > 0 ==> Pow128(PackedSize(n) - 1) <= n)
  {
    if n > 0 { HalfLength(n); }
    if n >= 128 {
      PackedSizeExact(n / 128);
    }
  }

  lemma {:induction false} ParsePacked(n: nat, size: nat, rest: seq<Byte>)
    requires size > 0 && n < Pow128(size)
    ensures Parse(PackAs(n, size) + rest) == Some((n, size))
  {
    var bytes := PackAs(n, size) + rest;
    if size > 1 {
      ParsePacked(n / 128, size - 1, rest);
      assert bytes[1..] == PackAs(n / 128, size - 1) + rest;
      assert (n % 128 + 128) % 128 == n % 128;
    }
  }

  /** Reading what was packed gives the value back and consumes exactly its bytes, whatever follows. */
  lemma RoundTrip(n: nat, room: nat, rest: seq<Byte>)
    requires n < TWO_64 && Pack(n, room).Some?
    ensures |Pack(n, room).value| <= room
    ensures Unpack(Pack(n, room).value + rest) == Some((n, |Pack(n, room).value|))
  {
    PackedSizeExact(n);
    ParsePacked(n, PackedSize(n), rest);
  }

  /** Seven bits to a byte, the low ones first: 300 is packed as two bytes. */
  lemma PackedBytesOf300()
    ensures Pack(300, 2) == Some([0xAC, 0x02]) && Pack(300, 1) == None && Pack(0, 1) == Some([0x00])
    ensures Unpack([0xAC, 0x02, 0xFF]) == Some((300, 2))
  {
    HalfLength(300);
    HalfLength(2);
    assert 300 / 128 == 2 && PackedSize(300) == 2;
    assert PackAs(300, 2) == [0xAC] + PackAs(2, 1) == [0xAC, 0x02];
    assert [0xAC, 0x02, 0xFF][1..] == [0x02, 0xFF];
  }

  /** A read consumes at least one byte and no more than there are; it fails exactly when no byte ends the
      value; and bytes that follow make no difference. */
  lemma {:induction false} ParsePrefix(bytes: seq<Byte>, more: seq<Byte>)
    ensures Parse(bytes).Some? ==> 1 <= Parse(bytes).value.1 <= |bytes| && Parse(bytes + more) == Parse(bytes)
    ensures Parse(bytes).None? <==> forall i :: 0 <= i < |bytes| ==> bytes[i] >= 128
  {
    if bytes != [] {
      ParsePrefix(bytes[1..], more);
      assert (bytes + more)[1..] == bytes[1..] + more;
      assert forall i :: 0 <= i < |bytes[1..]| ==> bytes[1..][i] == bytes[i + 1];
    }
  }

  /** The result, a 64-bit word, when `n` and `i` bytes are already read and the bytes after them parse as
      `rest`. */
  function Continue(n: nat, scale: nat, i: nat, rest: Option<(nat, nat)>): Option<(nat, nat)> {
    if rest.None? then None else Some(((n + scale * rest.value.0) % TWO_64, i + rest.value.1))
  }

  lemma AddModulo(a: nat, b: nat, m: nat)
    requires m > 0
    ensures (a + b % m) % m == (a + b) % m
  {
    var r := (a + b % m) % m;
    assert a + b == ((a + b % m) / m + b / m) * m + r;
    DivModUnique(a + b, m, (a + b % m) / m + b / m, r);
  }

  lemma MulModulo(a: nat, b: nat, m: nat)
    requires m > 0
    ensures (a % m * b) % m == (a * b) % m
  {
    var r := (a % m * b) % m;
    var q := (a % m * b) / m + a / m * b;
    assert a * b == q * m + r by {
      assert a == a / m * m + a % m;
      assert a * b == a / m * m * b + a % m * b;
      assert a / m * m * b == a / m * b * m;
    }
    DivModUnique(a * b, m, q, r);
  }

  /** The loop may keep only 64 bits of the value so far and of the weight of the next group. */
  lemma Reduced(n: nat, scale: nat, i: nat, rest: Option<(nat, nat)>)
    ensures Continue(n % TWO_64, scale % TWO_64, i, rest) == Continue(n, scale, i, rest)
  {
    if rest.Some? {
      var high := rest.value.0;
      AddModulo(scale % TWO_64 * high, n, TWO_64);
      AddModulo(n, scale % TWO_64 * high, TWO_64);
      MulModulo(scale, high, TWO_64);
      AddModulo(n, scale * high, TWO_64);
    }
  }

  lemma OneMore(n: nat, scale: nat, i: nat, bytes: seq<Byte>)
    requires i < |bytes|
    ensures Continue(n, scale, i, Parse(bytes[i..])) ==
            if bytes[i] < 128 then Some(((n + bytes[i] % 128 * scale) % TWO_64, i + 1))
            else Continue(n + bytes[i] % 128 * scale, scale * 128, i + 1, Parse(bytes[i + 1..]))
  {
    assert bytes[i..][1..] == bytes[i + 1..];
    var rest := Parse(bytes[i + 1..]);
    if bytes[i] >= 128 && rest.Some? {
      Regroup(n, scale, bytes[i] % 128, rest.value.0);
    } else if bytes[i] < 128 {
      Regroup(n, scale, bytes[i], 0);
    }
  }

  lemma Regroup(n: nat, scale: nat, low: nat, high: nat)
    ensures n + scale * (low + 128 * high) == n + low * scale + scale * 128 * high
  {}

  lemma OneMoreReduced(n: nat, scale: nat, i: nat, bytes: seq<Byte>)
    requires i < |bytes|
    ensures var n' := (n + bytes[i] % 128 * scale) % TWO_64;
            Continue(n, scale, i, Parse(bytes[i..])) ==
            if bytes[i] < 128 then Some((n', i + 1))
            else Continue(n', scale * 128 % TWO_64, i + 1, Parse(bytes[i + 1..]))
  {
    OneMore(n, scale, i, bytes);
    Reduced(n + bytes[i] % 128 * scale, scale * 128, i + 1, Parse(bytes[i + 1..]));
  }

  /** One, shifted by a multiple of seven bits in a 64-bit word. */
  predicate IsShift(scale: nat) {
    || scale == 0x1 || scale == 0x80 || scale == 0x4000 || scale == 0x20_0000 || scale == 0x1000_0000
    || scale == 0x8_0000_0000 || scale == 0x400_0000_0000 || scale == 0x2_0000_0000_0000
    || scale == 0x100_0000_0000_0000 || scale == 0x8000_0000_0000_0000 || scale == 0
  }

  /** The value so far lies below the next group. */
  predicate Below(n: nat, scale: nat) { IsShift(scale) && n < TWO_64 && (scale == 0 || n < scale) }

  /** So the next group adds no carry: combining the two words bit by bit is adding them. */
  lemma NoCarry(n: nat, scale: nat, low: nat)
    requires Below(n, scale) && low < 128
    ensures n + low * scale % TWO_64 < TWO_64 && Below(n + low * scale % TWO_64, scale * 128 % TWO_64)
  {}

  /** After `i` bytes the loop has the value `n` and the weight `scale` for the next group. */
  predicate ReadSoFar(bytes: seq<Byte>, n: nat, scale: nat, i: nat) {
    i <= |bytes| && Below(n, scale) && Unpack(bytes) == Continue(n, scale, i, Parse(bytes[i..]))
  }

  lemma ReadGroup(bytes: seq<Byte>, n: nat, scale: nat, i: nat)
    requires ReadSoFar(bytes, n, scale, i) && i < |bytes|
    ensures var n' := n + bytes[i] % 128 * scale % TWO_64;
            if bytes[i] < 128 then Unpack(bytes) == Some((n', i + 1))
            else ReadSoFar(bytes, n', scale * 128 % TWO_64, i + 1)
  {
    var group := bytes[i] % 128 * scale;
    NoCarry(n, scale, bytes[i] % 128);
    assert (n + group) % TWO_64 == n + group % TWO_64 by { AddModulo(n, group, TWO_64); }
    OneMoreReduced(n, scale, i, bytes);
  }

  /** The loop of `unpack_varint_from`, accumulating from the low bits up in 64-bit words. `scale` is one
      shifted by seven bits a byte, zero from the eleventh byte on. */
  method UnpackFrom(bytes: seq<Byte>) returns (r: Option<(nat, nat)>)
    ensures r == Unpack(bytes)
  {
    var n: nat, scale: nat, i: nat := 0, 1, 0;
    assert bytes[0..] == bytes;
    while true
      invariant ReadSoFar(bytes, n, scale, i)
      decreases |bytes| - i
    {
      if i == |bytes| {
        return None;
      }
      ReadGroup(bytes, n, scale, i);
      var next := bytes[i];
      n, i := n + next % 128 * scale % TWO_64, i + 1;
      if next < 128 {
        return Some((n, i));
      }
      scale := scale * 128 % TWO_64;
    }
  }
}
