/** The byte type shared by every module, and the fixed-width integer ranges of the C++ source. */
module Bytes {
  type byte = b: int | 0 <= b < 256

  const TWO_31: int := 0x8000_0000
  const TWO_32: int := 0x1_0000_0000
  const TWO_64: int := 0x1_0000_0000_0000_0000

  type u32 = x: int | 0 <= x < TWO_32
  type u64 = x: int | 0 <= x < TWO_64
  type i32 = x: int | -TWO_31 <= x < TWO_31

  /** static_cast<int32> of a 32-bit pattern. */
  function ToI32(x: u32): (r: i32)
    ensures (r - x) % TWO_32 == 0
  {
    if x < TWO_31 then x else x - TWO_32
  }

  /** Four bytes, the lowest first. */
  function Word(e: seq<byte>): u32
    requires |e| == 4
  {
    e[0] as int + 0x100 * (e[1] as int) + 0x1_0000 * (e[2] as int) + 0x100_0000 * (e[3] as int)
  }

  lemma Regrouped<T>(a: seq<T>, b: seq<T>, c: seq<T>)
    ensures a + b + c == a + (b + c)
  {
  }

  lemma SplitBack<T>(a: seq<T>, b: seq<T>)
    ensures (a + b)[..|a|] == a && (a + b)[|a|..] == b
  {
  }

  function Min(a: int, b: int): int { if a <= b then a else b }

  function Max(a: int, b: int): int { if a <= b then b else a }
}
