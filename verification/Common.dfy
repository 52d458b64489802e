/** Datatypes shared by the modules of this project. */
module Common {

  /** A value that may be absent: Python's `None` where the source uses it as "not set". */
  datatype Option<+T> = None | Some(value: T)

  type byte = x: int | 0 <= x < 256
  type bytes = seq<byte>

  /** What a message bound for the network is. */
  datatype Kind = Telemetry | CommandResponse | Health | Log

  const MAX_OUTBOUND_MESSAGE_BYTES: int := 16 * 1024
}
