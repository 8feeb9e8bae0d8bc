/** Types that several modules share. */
module Common {

  datatype Option<+T> = None | Some(value: T)

  /** A character or byte of the C side. */
  type Byte = i: int | 0 <= i < 256
}
