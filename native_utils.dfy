/** The 64-bit address helpers of the native code: a 64-bit address
    packs a trunk id in its high half and an offset in its low half. */
module NativeUtils {

  /** `uint32_t` and `uint64_t`, as bit-vectors. */
  type u32 = bv32
  type u64 = bv64

  /** `low32(x)`: `x & ((1 << 32) - 1)`, cut to 32 bits: the remainder
      modulo 2^32. */
  function Low32(x: u64): (r: u32)
    ensures r as u64 == x % 0x1_0000_0000
  {
    (x & ((1 as u64 << 32) - 1)) as u32
  }

  /** `high32(x)`: `x >> 32`, cut to 32 bits: the quotient by 2^32. */
  function High32(x: u64): (r: u32)
    ensures r as u64 == x / 0x1_0000_0000
  {
    (x >> 32) as u32
  }

  /** `(uint64_t(h) << 32) | uint64_t(l)`: the packing the native trunk
      controller uses for the address it returns from `append`; its value
      is `h * 2^32 + l`. */
  function Pack(h: u32, l: u32): (r: u64)
    ensures r == h as u64 * 0x1_0000_0000 + l as u64
  {
    (h as u64 << 32) | l as u64
  }

  /** Together the two halves make up the value; every operation here
      stays below 2^64, so this 64-bit equation holds over the integers
      too. */
  lemma Halves(x: u64)
    ensures x == High32(x) as u64 * 0x1_0000_0000 + Low32(x) as u64
  {
  }

  /** Unpacking a packed address gives back both halves. */
  lemma Unpack(h: u32, l: u32)
    ensures High32(Pack(h, l)) == h && Low32(Pack(h, l)) == l
  {
  }

  /** Every 64-bit value is the packing of its two halves. */
  lemma Repack(x: u64)
    ensures Pack(High32(x), Low32(x)) == x
  {
  }
}
