/** Result codes shared by every part of the model, with the numeric values and aliases of the C enumeration. */
module Results {

  /** A C `int`-sized result code: callbacks may return any value of this range. */
  type Code = c: int | -0x8000_0000 <= c < 0x8000_0000

  const SUCCESS: Code := 0
  const POSIX_ENOMEM: Code := -12
  const INVALID_PARAM: Code := -22
  const NOT_SUPPORT: Code := -501
  const NO_EVENT_CONSUMER: Code := -502
  const TOO_MANY: Code := -503
  const CONFLICT: Code := -504
  const NOT_EXIST: Code := -505
  const NO_EVENT_PENDING: Code := NOT_EXIST
  const TIMEOUT: Code := -506
  const LINK_BROKEN: Code := -508
  const NO_CMD_EXECUTOR: Code := -510
  const BUFFER_FULL: Code := -511
  const NO_DATA: Code := -516
  const INCOMPATIBLE_USAGE: Code := -519
  const EVTDESC_QUEUE_EMPTY: Code := -520
  const TOO_LONG_EMPTYING_EVTDESC_QUEUE: Code := -521
  const BUG: Code := -999
  const FORBIDDEN: Code := -1000

  datatype Option<T> = None | Some(value: T)
}
