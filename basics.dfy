/**
 * Bytes, little-endian 16-bit words and fixed-size buffers as the C code uses them.
 * Every byte is an `int` in 0..255; a C `unsigned char` store of a wider value is `Truncate`.
 */
module Basics {

  type byte = x: int | 0 <= x < 256
  type u16 = x: int | 0 <= x < 0x1_0000

  datatype Option<T> = None | Some(value: T)

  /**
   * Which reading of the code a model object follows: the code as written, or the code with
   * the defects listed under Findings in the README corrected.
   */
  datatype Build = AsWritten | Corrected

  /** The byte a C assignment `unsigned char b = v` keeps (two's complement for negative `v`). */
  function Truncate(v: int): (b: byte)
    ensures (v - b) % 256 == 0
  {
    v % 256
  }

  /** C's `b & mask != 0` for a mask with a single bit set (0x01, 0x02, ..., 0x80). */
  predicate BitSet(b: int, mask: int)
    requires mask > 0
  {
    (b / mask) % 2 == 1
  }

  /** `hi << 8 | lo`: the 16-bit word whose low byte is `lo` and high byte is `hi`. */
  function Le16(lo: byte, hi: byte): (w: u16)
    ensures w % 256 == lo && w / 256 == hi
  {
    hi * 256 + lo
  }

  /** `w & 0xff` */
  function LowByte(w: u16): byte { w % 256 }

  /** `w >> 8` */
  function HighByte(w: u16): byte { w / 256 }

  lemma WordRoundTrip(w: u16)
    ensures Le16(LowByte(w), HighByte(w)) == w
  {
  }

  lemma WordsDiffer(lo: byte, hi: byte, lo': byte, hi': byte)
    requires lo != lo' || hi != hi'
    ensures Le16(lo, hi) != Le16(lo', hi')
  {
  }

  /** A `memset(buf, 0, n)` buffer. */
  function Zeros(n: nat): (z: seq<byte>)
    ensures |z| == n && forall i :: 0 <= i < n ==> z[i] == 0
  {
    seq(n, _ => 0)
  }

  /** `data` copied over the head of `buf` (a `memcpy` into a buffer of fixed size). */
  function Overlay(buf: seq<byte>, data: seq<byte>): (r: seq<byte>)
    requires |data| <= |buf|
    ensures |r| == |buf|
    ensures forall i :: 0 <= i < |data| ==> r[i] == data[i]
    ensures forall i :: |data| <= i < |buf| ==> r[i] == buf[i]
  {
    data + buf[|data|..]
  }

  /** A zeroed buffer of `n` bytes whose first bytes are then set to `prefix`. */
  function Filled(prefix: seq<byte>, n: nat): (r: seq<byte>)
    requires |prefix| <= n
    ensures |r| == n && r[..|prefix|] == prefix
    ensures forall i :: |prefix| <= i < n ==> r[i] == 0
  {
    Overlay(Zeros(n), prefix)
  }

  function Min(a: int, b: int): int { if a < b then a else b }

  /** The character of a decimal digit, as `%d` prints it. */
  function Digit(n: nat): char
    requires n < 10
  {
    (48 + n) as char
  }

  // Linux errno values the drivers return negated.
  const ENOENT := 2
  const EIO := 5
  const EOVERFLOW := 75
  const ECONNRESET := 104
  const ESHUTDOWN := 108
  const ETIMEDOUT := 110
  /** What an interruptible wait returns when a signal ends it; kernel-internal, never seen by a user. */
  const ERESTARTSYS := 512
}
