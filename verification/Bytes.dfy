/** Unsigned bytes and the little-endian integers of the Ethernet wire format.
    `uint8_t` is the subset type `byte`; wider unsigned integers are `int`s whose range
    and wrap-around are written out where they matter. */
module Bytes {

  type byte = x: int | 0 <= x < 256
  type u16 = x: int | 0 <= x < 0x1_0000
  type u32 = x: int | 0 <= x < 0x1_0000_0000

  function Pow2(n: nat): nat {
    if n == 0 then 1 else 2 * Pow2(n - 1)
  }

  /** 32-bit addition and subtraction, wrapping as in C. */
  function Add32(a: u32, b: u32): u32 {
    if a + b < 0x1_0000_0000 then a + b else a + b - 0x1_0000_0000
  }

  function Sub32(a: u32, b: u32): u32 {
    if a >= b then a - b else a - b + 0x1_0000_0000
  }

  /** The time from `since` to `now` on a clock that counts modulo 2^32. */
  function Elapsed(now: u32, since: u32): nat {
    (now - since) % 0x1_0000_0000
  }

  /** A difference of ticks is the time gone by, also across the wrap. */
  lemma TicksWrap(now: u32, since: u32)
    ensures Sub32(now, since) == Elapsed(now, since)
  {
  }

  /** The bytes the C code stores with `(uint8_t)v`, `(uint8_t)(v >> 8)`. */
  function Le16(v: u16): (s: seq<byte>)
    ensures |s| == 2 && s[0] as int + 256 * s[1] as int == v
  {
    [v % 256, v / 256]
  }

  function Le32(v: u32): (s: seq<byte>)
    ensures |s| == 4
    ensures s[0] as int + 256 * s[1] as int + 0x1_0000 * s[2] as int + 0x100_0000 * s[3] as int == v
  {
    var q1, q2, q3 := v / 256, v / 0x1_0000, v / 0x100_0000;
    assert q2 == q1 / 256 && q3 == q2 / 256;
    [v % 256, q1 % 256, q2 % 256, q3]
  }

  function FromLe16(s: seq<byte>): u16
    requires |s| == 2
  {
    s[0] as int + 256 * (s[1] as int)
  }

  /** `p[0] | p[1] << 8 | p[2] << 16 | p[3] << 24`. */
  function FromLe32(s: seq<byte>): u32
    requires |s| == 4
  {
    s[0] as int + 256 * (s[1] as int) + 0x1_0000 * (s[2] as int) + 0x100_0000 * (s[3] as int)
  }

  lemma Le16RoundTrip(v: u16)
    ensures FromLe16(Le16(v)) == v
  {
  }

  lemma Le32RoundTrip(v: u32)
    ensures FromLe32(Le32(v)) == v
  {
    var q1, q2, q3 := v / 256, v / 0x1_0000, v / 0x100_0000;
    assert q2 == q1 / 256 && q3 == q2 / 256;
  }

  lemma Associative<T>(a: seq<T>, b: seq<T>, c: seq<T>)
    ensures a + b + c == a + (b + c)
  {
  }
}
