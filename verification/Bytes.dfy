/** Byte strings and big-endian fields, as encoding/binary reads and writes them. */
module Bytes {
  type byte = x: int | 0 <= x < 256

  type Bytes = seq<byte>

  function U16(b: Bytes, i: nat): (r: nat)
    requires i + 2 <= |b|
    ensures r < 0x1_0000
  {
    b[i] as int * 256 + b[i + 1] as int
  }

  function U32(b: Bytes, i: nat): (r: nat)
    requires i + 4 <= |b|
    ensures r < 0x1_0000_0000
  {
    U16(b, i) * 0x1_0000 + U16(b, i + 2)
  }

  function Be16(v: nat): (r: Bytes)
    requires v < 0x1_0000
    ensures |r| == 2 && U16(r, 0) == v
  {
    [v / 256, v % 256]
  }

  function Be32(v: nat): (r: Bytes)
    requires v < 0x1_0000_0000
    ensures |r| == 4 && U32(r, 0) == v
  {
    var hi, lo := Be16(v / 0x1_0000), Be16(v % 0x1_0000);
    [hi[0], hi[1], lo[0], lo[1]]
  }

  /** Copying `x` into `b` at `at`. */
  function Put(b: Bytes, at: nat, x: Bytes): (r: Bytes)
    requires at + |x| <= |b|
    ensures |r| == |b| && r[at..at + |x|] == x
    ensures forall i :: 0 <= i < |b| ==> r[i] == if at <= i < at + |x| then x[i - at] else b[i]
  {
    b[..at] + x + b[at + |x|..]
  }

  predicate Bit(v: nat, bit: nat)
    requires bit > 0
  {
    v / bit % 2 == 1
  }

  function Zeros(n: nat): (r: Bytes)
    ensures |r| == n && forall i :: 0 <= i < n ==> r[i] == 0
  {
    seq(n, _ => 0)
  }
}
