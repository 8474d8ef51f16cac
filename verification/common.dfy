/** Vocabulary shared by every module: optional values, wire bytes,
    16-bit VCP values, display identifiers and the unit-interval clamp. */
module Common {

  /** Swift's `T?`. */
  datatype Option<+T> = None | Some(value: T)

  /** One byte on the I2C wire (Swift `UInt8`). */
  const ByteLimit: nat := 0x100
  type Byte = x: nat | x < ByteLimit

  /** Swift's `UInt16`: every VCP value and every VCP maximum has this width. */
  const U16Limit: nat := 0x1_0000
  type U16 = x: nat | x < U16Limit

  /** Swift's `CGDirectDisplayID`; only equality is ever used. */
  type DisplayId = nat

  function Min(a: real, b: real): real { if a <= b then a else b }

  /** `min(max(x, 0), 1)`, the clamp the brightness code applies before use. */
  function Clamp01(x: real): (r: real)
    ensures 0.0 <= r <= 1.0
    ensures 0.0 <= x <= 1.0 ==> r == x
    ensures x < 0.0 ==> r == 0.0
    ensures 1.0 < x ==> r == 1.0
  {
    if x < 0.0 then 0.0 else if 1.0 < x then 1.0 else x
  }
}
