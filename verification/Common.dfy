/** Value types and saturating arithmetic shared by the other modules. */
module Common {
  const U16_MAX: int := 0xffff
  const U32_MAX: int := 0xffff_ffff
  const U64_MAX: int := 0xffff_ffff_ffff_ffff

  type u8 = x: int | 0 <= x <= 0xff
  type u16 = x: int | 0 <= x <= U16_MAX
  type u32 = x: int | 0 <= x <= U32_MAX
  type u64 = x: int | 0 <= x <= U64_MAX

  datatype Option<+T> = None | Some(value: T)

  datatype Result<+T, +E> = Ok(value: T) | Err(error: E)

  /** A file: filesystem device, inode, and what tells reused inodes and mounts apart if known. */
  datatype Identity = Identity(
    major: u32, minor: u32, inode: u64, generation: Option<u32>, mount: Option<u64>)

  function Min(a: int, b: int): int { if a <= b then a else b }

  function Max(a: int, b: int): int { if a <= b then b else a }

  /** `u64::saturating_add`. */
  function SatAdd(a: u64, b: u64): u64 { Min(a + b, U64_MAX) }

  /** `u64::saturating_sub`. */
  function SatSub(a: u64, b: u64): u64 { Max(a - b, 0) }

  /** `(major << 20) | (minor & 0xfffff)` in 32 bits. */
  function EncodeDevice(d: (u32, u32)): u32 {
    d.0 * 0x10_0000 % 0x1_0000_0000 + d.1 % 0x10_0000
  }

  function DecodeDevice(device: u32): (u32, u32) {
    (device / 0x10_0000, device % 0x10_0000)
  }

  lemma DeviceRoundTrip(device: u32, d: (u32, u32))
    ensures EncodeDevice(DecodeDevice(device)) == device
    ensures d.0 < 0x1000 && d.1 < 0x10_0000 ==> DecodeDevice(EncodeDevice(d)) == d
  {
  }
}
