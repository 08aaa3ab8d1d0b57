/** Value types shared by every component of the control plane. */
module Values {
  newtype byte = x: int | 0 <= x < 256

  type Bytes = seq<byte>

  datatype Option<+T> = None | Some(value: T)

  /** Go's zero `time.Time`; every reading of the clock is later than it. */
  const ZERO_TIME: int := 0
}
