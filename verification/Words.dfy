/** Fixed-width unsigned integers, with the truncation C applies on assignment. */
module Words {
  type u8 = x: int | 0 <= x < 0x100
  type u16 = x: int | 0 <= x < 0x1_0000
  type u32 = x: int | 0 <= x < 0x1_0000_0000

  function U8(x: int): u8 { if 0 <= x < 0x100 then x else x % 0x100 }
  function U16(x: int): u16 { if 0 <= x < 0x1_0000 then x else x % 0x1_0000 }
  function U32(x: int): u32 { if 0 <= x < 0x1_0000_0000 then x else x % 0x1_0000_0000 }
}
