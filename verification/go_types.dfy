/** Value types shared by the models of the multisignature container and of the
    event utilities: Go's bytes and strings, and the optional / fallible results
    that stand for Go's `nil`-able values and `(T, error)` returns. */
module GoTypes {

  /** A Go `byte`. */
  newtype uint8 = x: int | 0 <= x < 256

  /** A Go `[]byte` or `string`: both are plain byte sequences, so the
      conversions `[]byte(s)` and `string(b)` are the identity here. */
  type Bytes = seq<uint8>

  /** The byte of the character '.'. */
  const Dot: uint8 := 46

  datatype Option<+T> = None | Some(value: T)

  /** A Go `(T, error)` pair in which exactly one of the two is meaningful. */
  datatype Result<+T, +E> = Ok(value: T) | Err(error: E)
}
