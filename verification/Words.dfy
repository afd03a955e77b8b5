/** Fixed-width machine words, as C reads them, 16-bit serial order, and what else all modules share. */
module Words {

  datatype Option<+T> = None | Some(value: T)

  type u16 = x: int | 0 <= x < 0x1_0000
  type u32 = x: int | 0 <= x < 0x1_0000_0000
  type u64 = x: int | 0 <= x < 0x1_0000_0000_0000_0000
  type s32 = x: int | -0x8000_0000 <= x < 0x8000_0000

  /** Conversions to unsigned words drop the high bits. */
  function W16(x: int): u16 { x % 0x1_0000 }
  function W32(x: int): u32 { x % 0x1_0000_0000 }
  function W64(x: int): u64 { x % 0x1_0000_0000_0000_0000 }

  /** Conversions to signed words are two's complement. */
  function S16(x: int): int {
    if x % 0x1_0000 < 0x8000 then x % 0x1_0000 else x % 0x1_0000 - 0x1_0000
  }
  function S32(x: int): s32 {
    if x % 0x1_0000_0000 < 0x8000_0000 then x % 0x1_0000_0000 else x % 0x1_0000_0000 - 0x1_0000_0000
  }

  /** C division truncates towards zero; Dafny's does not. */
  function TruncDiv(a: int, b: int): int
    requires b > 0
  {
    if a >= 0 then a / b else -((-a) / b)
  }

  function Abs(x: int): nat { if x < 0 then -x else x }

  function Min(a: int, b: int): int { if a <= b then a else b }

  /** `rtp_seq_less(x, y)`: the 16-bit difference is negative. */
  predicate SeqLess(x: u16, y: u16) { S16(x - y) < 0 }

  /**
   * Serial order is integer order on numbers less than half the cycle apart.
   * The one point further down (a == b - 2^15) still compares correctly; the
   * one point further up does not.
   */
  lemma SeqLessUnwrapped(a: int, b: int)
    requires -0x8000 <= a - b < 0x8000
    ensures SeqLess(W16(a), W16(b)) <==> a < b
    ensures W16(a) == W16(b) <==> a == b
  {
    assert (W16(a) - W16(b)) % 0x1_0000 == (a - b) % 0x1_0000;
  }

  lemma W16Succ(x: int)
    ensures W16(W16(x) + 1) == W16(x + 1)
  {
  }

  /** Inner reductions can be dropped. */
  lemma W32Absorb(a: int, b: int)
    ensures W32(W32(a) + b) == W32(a + b)
  {
  }

  /** A number is its own residue up to a multiple of the cycle. */
  lemma W32Residue(x: int, r: int, k: int)
    requires x == r + 0x1_0000_0000 * k && 0 <= r < 0x1_0000_0000
    ensures W32(x) == r
  {
  }

  lemma W32Quotient(x: int) returns (k: int)
    ensures x == W32(x) + 0x1_0000_0000 * k
  {
    k := x / 0x1_0000_0000;
  }

  lemma W16Absorb(a: int, b: int)
    ensures W16(W16(a) + b) == W16(a + b)
  {
  }

  lemma W64Exact(x: int)
    requires 0 <= x < 0x1_0000_0000_0000_0000
    ensures W64(x) == x
  {
  }

  lemma S32Residue(x: int, d: s32, k: int)
    requires x == d + 0x1_0000_0000 * k
    ensures S32(x) == d
  {
  }

  lemma W32Negative(x: int)
    requires -0x1_0000_0000 < x < 0
    ensures W32(x) == x + 0x1_0000_0000
  {
  }
}
