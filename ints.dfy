/** The fixed-width integer types of the source that the model needs. */
module Ints {
  /** uint16_t */
  type uint16 = x: int | 0 <= x < 0x1_0000
}
