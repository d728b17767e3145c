/** Machine integers, bytes and the result types that the other modules share. */
module Base {

  const TWO_31: int := 0x8000_0000
  const TWO_32: int := 0x1_0000_0000
  const TWO_63: int := 0x8000_0000_0000_0000
  const TWO_64: int := 0x1_0000_0000_0000_0000

  type byte = x: int | 0 <= x < 256
  type u32 = x: int | 0 <= x < TWO_32
  type u64 = x: int | 0 <= x < TWO_64
  type i64 = x: int | -TWO_63 <= x < TWO_63

  datatype Option<+T> = None | Some(value: T)

  datatype Result<+T, +E> = Ok(value: T) | Err(error: E)

  function Min(x: int, y: int): int {
    if x < y then x else y
  }

  // ----- Atomic fetch-add and fetch-sub of one on 32-bit counters, with their wrap-around -----

  function Inc32(x: u32): u32 {
    if x == TWO_32 - 1 then 0 else x + 1
  }

  function Dec32(x: u32): u32 {
    if x == 0 then TWO_32 - 1 else x - 1
  }

  function IncSigned32(x: int): int {
    if x == TWO_31 - 1 then -TWO_31 else x + 1
  }

  function DecSigned32(x: int): int {
    if x == -TWO_31 then TWO_31 - 1 else x - 1
  }

  /** The counters step by one modulo 2^32; the signed one stays within its 32 bits. */
  lemma CountersWrap(x: u32, y: int)
    requires -0x8000_0000 <= y < 0x8000_0000
    ensures Inc32(x) == (x + 1) % 0x1_0000_0000 && Dec32(x) == (x - 1) % 0x1_0000_0000
    ensures -0x8000_0000 <= IncSigned32(y) < 0x8000_0000 && (IncSigned32(y) - (y + 1)) % 0x1_0000_0000 == 0
    ensures -0x8000_0000 <= DecSigned32(y) < 0x8000_0000 && (DecSigned32(y) - (y - 1)) % 0x1_0000_0000 == 0
  {
  }

  lemma NothingToWrap(x: nat)
    requires x < 0x1_0000_0000_0000_0000
    ensures x % 0x1_0000_0000_0000_0000 == x
  {
  }

  /** A 64-bit counter moved on by one. */
  lemma WrapsOn(x: nat, counter: nat, next: nat)
    requires counter == x % 0x1_0000_0000_0000_0000
    requires next == if counter == 0xFFFF_FFFF_FFFF_FFFF then 0 else counter + 1
    ensures next == (x + 1) % 0x1_0000_0000_0000_0000
  {
  }
}
