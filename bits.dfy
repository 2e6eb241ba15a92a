/** Single-bit views of the 8-bit AVR port registers and of C `int` values. */
module Bits {

  /** `1 << k` for an 8-bit register, as a table so that facts about one bit stay ground. */
  function Mask(k: nat): (m: bv8)
    requires k < 8
  {
    match k
    case 0 => 0x01
    case 1 => 0x02
    case 2 => 0x04
    case 3 => 0x08
    case 4 => 0x10
    case 5 => 0x20
    case 6 => 0x40
    case 7 => 0x80
  }

  /** The table is the C shift `1 << k`. */
  lemma ShiftIsMask(k: nat)
    requires k < 8
    ensures (1 as bv8) << k == Mask(k)
  {
  }

  /** Bit `k` of an 8-bit register, i.e. `(p & (1 << k)) != 0`. */
  predicate Bit(p: bv8, k: nat)
    requires k < 8
  {
    p & Mask(k) != 0
  }

  /** The read-modify-write `p |= (1 << k)` when `on`, else `p &= ~(1 << k)`:
      bit `k` becomes `on` and every other bit keeps its value. */
  function SetBit(p: bv8, k: nat, on: bool): (r: bv8)
    requires k < 8
    ensures Bit(r, k) == on
    ensures r & !Mask(k) == p & !Mask(k)
  {
    if on then p | Mask(k) else p & !Mask(k)
  }

  /** Bit `k` of a C `int` in two's complement, i.e. `(v & (1 << k)) != 0`:
      the low bit after `k` arithmetic right shifts. Dafny's `/` by 2 rounds
      towards minus infinity, which is that shift for negative values too. */
  predicate IntBit(v: int, k: nat)
    decreases k
  {
    if k == 0 then v % 2 == 1 else IntBit(v / 2, k - 1)
  }

  function Pow2(k: nat): (r: nat)
    ensures r >= 1
  {
    if k == 0 then 1 else 2 * Pow2(k - 1)
  }

  /** The value spelled by the low `n` bits of `v`: the sum of 2^k over the set bits k < n. */
  function BitsValue(v: int, n: nat): int
    decreases n
  {
    if n == 0 then 0 else (if IntBit(v, 0) then 1 else 0) + 2 * BitsValue(v / 2, n - 1)
  }

  /** A value in [0, 2^n) is exactly what its low `n` bits spell, so the bits lose nothing. */
  lemma {:induction false} BitsValueExact(v: int, n: nat)
    requires 0 <= v < Pow2(n)
    ensures BitsValue(v, n) == v
  {
    if n > 0 {
      BitsValueExact(v / 2, n - 1);
    }
  }
}
