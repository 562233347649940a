/** The fixed-width unsigned and signed integers of the C++ sources. An operation on one of these types
    is accepted only when its exact result fits the type, so every sum and product
    below carries a proof that it does not overflow. */
module Words {
  newtype uint8 = x: int | 0 <= x < 0x100
  newtype uint32 = x: int | 0 <= x < 0x1_0000_0000
  newtype uint64 = x: int | 0 <= x < 0x1_0000_0000_0000_0000
  newtype int64 = x: int | -0x8000_0000_0000_0000 <= x < 0x8000_0000_0000_0000

  type byte = uint8

  const LIMB: int := 0x1_0000_0000

  /** `static_cast<std::uint32_t>(v)`, equally `v & 0xFFFFFFFF`. */
  function Low32(v: uint64): uint32 {
    (v % 0x1_0000_0000) as uint32
  }

  /** `v >> 32`. */
  function High32(v: uint64): uint64 {
    v / 0x1_0000_0000
  }
}
