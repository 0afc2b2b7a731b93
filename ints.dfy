/**
  Rust's fixed-width integer types as ranges of mathematical integers.
  `usize` and `isize` are taken 64 bits wide; no property of this model
  depends on that width (a positive `isize` keeps its value under
  `as usize`, and `usize::from(u16)` is lossless, whatever the width).
 */
module Ints {

  newtype u8 = x: int | 0 <= x < 0x100
  newtype u16 = x: int | 0 <= x < 0x1_0000
  newtype u32 = x: int | 0 <= x < 0x1_0000_0000
  newtype u64 = x: int | 0 <= x < 0x1_0000_0000_0000_0000
  newtype usize = x: int | 0 <= x < 0x1_0000_0000_0000_0000

  newtype i16 = x: int | -0x8000 <= x < 0x8000
  newtype i32 = x: int | -0x8000_0000 <= x < 0x8000_0000
  newtype i64 = x: int | -0x8000_0000_0000_0000 <= x < 0x8000_0000_0000_0000
  newtype isize = x: int | -0x8000_0000_0000_0000 <= x < 0x8000_0000_0000_0000

  newtype NonZeroU16 = x: int | 0 < x < 0x1_0000 witness 1
  newtype NonZeroU32 = x: int | 0 < x < 0x1_0000_0000 witness 1
  newtype NonZeroU64 = x: int | 0 < x < 0x1_0000_0000_0000_0000 witness 1
  newtype NonZeroI32 = x: int | -0x8000_0000 <= x < 0x8000_0000 && x != 0 witness 1
  newtype NonZeroI64 = x: int | -0x8000_0000_0000_0000 <= x < 0x8000_0000_0000_0000 && x != 0 witness 1

  /** Rust's `x as u16` on an `i16`: the same bits, read as unsigned. */
  function I16AsU16(x: i16): (r: u16)
    ensures r as int % 0x1_0000 == x as int % 0x1_0000
    ensures x >= 0 ==> r as int == x as int
  {
    if x < 0 then (x as int + 0x1_0000) as u16 else x as int as u16
  }

  /** Rust's `x as usize` on an `isize`: the same bits, read as unsigned. */
  function IsizeAsUsize(x: isize): (r: usize)
    ensures r as int % 0x1_0000_0000_0000_0000 == x as int % 0x1_0000_0000_0000_0000
    ensures x >= 0 ==> r as int == x as int
  {
    if x < 0 then (x as int + 0x1_0000_0000_0000_0000) as usize else x as int as usize
  }
}
