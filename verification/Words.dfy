/** Fixed-width unsigned arithmetic, written out because Dafny's integers are unbounded. */
module Words {
  const TWO_32: nat := 0x1_0000_0000
  const TWO_64: nat := 0x1_0000_0000_0000_0000

  type u32 = x: int | 0 <= x < 0x1_0000_0000
  type u64 = x: int | 0 <= x < 0x1_0000_0000_0000_0000

  /** The 32-bit word an exact result is stored as (natural_t, DWORD). */
  function Wrap32(x: int): (w: u32)
    ensures 0 <= x < TWO_32 ==> w == x
  {
    x % 0x1_0000_0000
  }

  /** The 64-bit word an exact result is stored as (vm_size_t, size_t on LP64). */
  function Wrap64(x: int): (w: u64)
    ensures 0 <= x < TWO_64 ==> w == x
  {
    x % 0x1_0000_0000_0000_0000
  }
}
