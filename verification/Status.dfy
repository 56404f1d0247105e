/** The status codes of the node ABI. A plugin may hand back any integer, so a status is an integer. */
module Status {
  type Status = int

  const OK: Status := 0
  const FAILED: Status := 1
  const OOM: Status := 3
  const BAD_PRECISION: Status := 4
  const BAD_INDEX: Status := 5
  const UNSUPPORTED: Status := 8
  const NEED_METADATA: Status := 9
}

/** A value that may be absent. */
module Options {
  datatype Option<+T> = None | Some(value: T)
}
