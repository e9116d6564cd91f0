/** Types shared by every part of the model. */
module Common {

  /** One byte of a file or of a loaded image. */
  type Byte = b: int | 0 <= b < 256

  /** The conventional Some/None wrapper, used where the source returns a
      sentinel (BADADDR, a null pointer, a failed decode). */
  datatype Option<+T> = None | Some(value: T)
}
