/** Machine words.  Guest registers and addresses are 32-bit and wrap around; every
    wrap-around of the Go code is written out with `Add32`/`Sub32`. */
module Words {
  type u8 = x: int | 0 <= x < 0x100
  type u16 = x: int | 0 <= x < 0x1_0000
  type u32 = x: int | 0 <= x < 0x1_0000_0000
  type u64 = x: int | 0 <= x < 0x1_0000_0000_0000_0000

  datatype Option<+T> = None | Some(value: T)

  function Add32(x: int, y: int): u32 { (x + y) % 0x1_0000_0000 }

  function Sub32(x: int, y: int): u32 { (x - y) % 0x1_0000_0000 }

  /** `x & mask != 0`, for a mask of one bit. */
  predicate HasFlag(x: nat, mask: nat)
    requires mask > 0
  {
    x / mask % 2 == 1
  }

  /** `v &^ 0xfff` */
  function PageDown(v: u32): u32 { v - v % 0x1000 }

  /** Rounding up to a page; saturates at 0xffffffff instead of wrapping. */
  function PageAlignUp(v: u32): (r: u32)
    ensures v <= r
    ensures v <= 0xffff_f000 ==> r % 0x1000 == 0 && r < v + 0x1000
  {
    if v > 0xffff_ffff - 0xfff then 0xffff_ffff else PageDown(v + 0xfff)
  }

  lemma PageAlignMonotone(x: u32, y: u32)
    requires x <= y <= 0xffff_f000
    ensures PageAlignUp(x) <= PageAlignUp(y)
    ensures x % 0x1000 == 0 ==> PageAlignUp(x) == x
    ensures y % 0x1000 == 0 ==> PageAlignUp(x) <= y
  {
  }

  lemma Add32Swap(x: u32, y: int, z: int)
    requires 0 <= y < 0x1_0000_0000 && 0 <= z < 0x1_0000_0000
    ensures Add32(Add32(x, y), z) == Add32(Add32(x, z), y)
  {
    assert Add32(Add32(x, y), z) == (x + y + z) % 0x1_0000_0000;
    assert Add32(Add32(x, z), y) == (x + y + z) % 0x1_0000_0000;
  }
}
