/** Integers, words and addresses of the execution layer, and the u64 arithmetic the block
    executor uses: Rust's unchecked operators wrap, its saturating ones clamp. */
module Primitives {
  datatype Option<+T> = None | Some(value: T)

  datatype Result<+T, +E> = Ok(value: T) | Err(error: E)

  const U64_MAX: int := 0xffff_ffff_ffff_ffff
  const TWO_136: int := 0x1_00000000_00000000_00000000_00000000_00
  const TWO_160: int := 0x1_00000000_00000000_00000000_00000000_00000000
  const TWO_256: int := 0x1_00000000_00000000_00000000_00000000_00000000_00000000_00000000_00000000

  type Byte = x: int | 0 <= x < 256
  type Bytes = seq<Byte>
  type U64 = x: int | 0 <= x <= U64_MAX
  type Word = x: int | 0 <= x < TWO_256
  type Address = x: int | 0 <= x < TWO_160

  // A code hash is a 256-bit word.
  type Hash = Word

  function SaturatingSub(a: U64, b: U64): U64 {
    if a < b then 0 else a - b
  }

  function SaturatingAdd(a: U64, b: U64): U64 {
    if a + b > U64_MAX then U64_MAX else a + b
  }

  function SaturatingMul(a: U64, b: U64): U64 {
    var product := a * b;
    if product > U64_MAX then U64_MAX else product
  }

  // The unchecked operators, as a release build runs them.
  function WrappingSub(a: U64, b: U64): U64 {
    if a < b then a - b + U64_MAX + 1 else a - b
  }

  function WrappingAdd(a: U64, b: U64): U64 {
    if a + b > U64_MAX then a + b - U64_MAX - 1 else a + b
  }

  function SaturatingToU64(w: Word): U64 {
    if w > U64_MAX then U64_MAX else w
  }
}
