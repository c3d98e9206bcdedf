/** Fixed-width integers and their little-endian images, as `struct.pack` with a
    `<` format produces them. */
module Bytes {

  datatype Option<T> = None | Some(value: T)

  type byte = x: int | 0 <= x < 0x100
  type u16 = x: int | 0 <= x < 0x1_0000
  /** The number of values a UInt32 can hold. */
  const MAX32: nat := 0x1_0000_0000

  type u32 = x: int | 0 <= x < 0x1_0000_0000
  type i32 = x: int | -0x8000_0000 <= x < 0x8000_0000

  /** The image `struct.pack('<f', v)` gives a Float32 field. Float values are
      kept as these four bytes and never computed with. */
  type F32 = b: seq<byte> | |b| == 4 witness [0, 0, 0, 0]

  /** 256 to the power n: the number of values n bytes can hold. */
  function Radix(n: nat): (r: nat)
    ensures r >= 1
  {
    if n == 0 then 1 else 0x100 * Radix(n - 1)
  }

  /** The n-byte little-endian image of x (least significant byte first). */
  function LittleEndian(x: nat, n: nat): (r: seq<byte>)
    requires x < Radix(n)
    ensures |r| == n
    ensures Unsigned(r) == x
  {
    if n == 0 then [] else [x % 0x100] + LittleEndian(x / 0x100, n - 1)
  }

  /** The unsigned number a little-endian byte string stands for. */
  function Unsigned(b: seq<byte>): (r: nat)
    ensures r < Radix(|b|)
  {
    if b == [] then 0 else b[0] + 0x100 * Unsigned(b[1..])
  }

  /** `struct.pack('B', x)`; a bool packs as 1 or 0. */
  function Bool(b: bool): byte { if b then 1 else 0 }

  /** `struct.pack('<H', x)`. */
  function LE16(x: u16): (r: seq<byte>)
    ensures |r| == 2 && Unsigned(r) == x
  {
    LittleEndian(x, 2)
  }

  /** `struct.pack('<I', x)`. */
  function LE32(x: u32): (r: seq<byte>)
    ensures |r| == 4 && Unsigned(r) == x
  {
    LittleEndian(x, 4)
  }

  /** `struct.pack('<i', x)`: two's complement in four bytes. */
  function I32(x: i32): (r: seq<byte>)
    ensures |r| == 4
    ensures Signed(r) == x
  {
    LittleEndian(if x < 0 then x + 0x1_0000_0000 else x, 4)
  }

  /** `struct.pack('<h', x)` for -32768 <= x < 32768. */
  function I16(x: int): (r: seq<byte>)
    requires -0x8000 <= x < 0x8000
    ensures |r| == 2
    ensures Signed(r) == x
  {
    LittleEndian(if x < 0 then x + 0x1_0000 else x, 2)
  }

  /** `struct.pack('<b', x)` for -128 <= x < 128. */
  function I8(x: int): (r: seq<byte>)
    requires -0x80 <= x < 0x80
    ensures |r| == 1
    ensures Signed(r) == x
  {
    LittleEndian(if x < 0 then x + 0x100 else x, 1)
  }

  /** The two's-complement value of a little-endian byte string. */
  function Signed(b: seq<byte>): int
  {
    var u := Unsigned(b);
    if 2 * u >= Radix(|b|) then u - Radix(|b|) else u
  }
}
