/** Option and the Python runtime notions the scripts rely on: exceptions that
    escape a call, and the byte type of file and HTTP bodies. */
module Wrappers {

  datatype Option<+T> = None | Some(value: T)

  /** The Python exception classes that the modelled code can raise or catch. */
  datatype Exception =
    | KeyError            // a missing dictionary key
    | IndexError          // `[0]` of an empty list
    | ValueError          // `int()` of a non-integer, or a numpy broadcast failure
    | AttributeError      // `.group` called on the None of a failed regex match
    | RequestError        // any `requests` failure other than a timeout
    | FileNotFoundError
    | NotADirectoryError
    | IsADirectoryError
    | DirectoryNotEmpty   // OSError with ENOTEMPTY
    | FloatZoom           // `2 ** z` with a negative zoom; see README, Left out

  /** What a Python call yields: a value, or an exception that propagates. */
  datatype Result<+T> = Ok(value: T) | Raise(exc: Exception)

  type Byte = b: int | 0 <= b < 256
}
