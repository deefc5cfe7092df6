/** Value types shared by the layer-settings utilities and the setting registry. */
module Types {

  /** The conventional optional value, standing for a nullable pointer. */
  datatype Option<T> = None | Some(value: T)

  const Uint32Modulus: int := 0x1_0000_0000

  /** `std::uint32_t`. */
  newtype uint32 = x: int | 0 <= x < 0x1_0000_0000

  /** `static_cast<std::uint32_t>` of a (64-bit) integer: two's-complement wrap-around. */
  function Truncate32(x: int): (r: uint32)
    ensures r as int % Uint32Modulus == x % Uint32Modulus
    ensures 0 <= x < Uint32Modulus ==> r as int == x
  {
    (x % Uint32Modulus) as uint32
  }

  /** `VkFrameset`: a range of frame indices. */
  datatype Frameset = Frameset(first: uint32, count: uint32, step: uint32)

  /** The compile-time platform selection of the `#if` branches. */
  datatype Os = Windows | Android | OtherOs

  /**
   * `TrimMode`: how much of the layer name is kept in an environment key
   * (TRIM_NONE, TRIM_VENDOR, TRIM_NAMESPACE).
   */
  datatype TrimMode = NoTrim | VendorTrim | NamespaceTrim
}
