/** What several parts of the relay share. */
module Common {

  datatype Option<+T> = None | Some(value: T)

  datatype Side = Input | Output

  /** The kind of the last error of a source or a sink. */
  datatype ErrorKind = NoError | Timeout | Disconnected | OtherError

  const INVALID_SOCK: int := -1
}
