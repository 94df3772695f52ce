/** The C scalar types the firmware's data passes through. */
module CTypes {

  /** `uint8_t`. */
  newtype byte = x: int | 0 <= x < 0x100

  /** `uint16_t`. */
  newtype u16 = x: int | 0 <= x < 0x1_0000

  /** A C `float` that is only stored and passed on: NaN (the initial value
      of the readings) or a number. */
  datatype Float = NaN | Num(value: real)
}
