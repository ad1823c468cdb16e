/** Small shared vocabulary: an optional value (the source's nullable pointers)
    and the 32-bit signed integers the engine's event payloads carry. */
module Common {

  /** A value that may be absent, standing for a pointer that may be null. */
  datatype Option<+T> = None | Some(value: T)

  /** The range of the engine's `int` event payloads. */
  type Int32 = x: int | -0x8000_0000 <= x < 0x8000_0000

  /** An unsigned 32-bit value, such as a packed vertex colour. */
  type UInt32 = x: int | 0 <= x < 0x1_0000_0000

  /** Two's-complement wrap-around of an integer into the signed 32-bit range:
      the one value of that range congruent to `x` modulo 2^32. */
  function Wrap32(x: int): (r: Int32)
    ensures (r - x) % 0x1_0000_0000 == 0
    ensures -0x8000_0000 <= x < 0x8000_0000 ==> r == x
  {
    var m := x % 0x1_0000_0000;
    if m < 0x8000_0000 then m else m - 0x1_0000_0000
  }
}
