/** The status codes of status.h and the result wrappers the model uses in
    place of C's status-plus-out-pointer convention. */
module Results {
  /** `status_t`: STATUS_SUCCESS (0) down to STATUS_ERROR_TIMEOUT (-5). */
  datatype Status = Success | InvalidParam | Overflow | MemoryError | HardwareError | Timeout {
    function Code(): int {
      match this
      case Success => 0
      case InvalidParam => -1
      case Overflow => -2
      case MemoryError => -3
      case HardwareError => -4
      case Timeout => -5
    }
  }

  /** A status a failing call returns: anything but STATUS_SUCCESS. */
  type Failure = s: Status | s != Success witness InvalidParam

  /** A status together with the value written through the out-pointer on success. */
  datatype Result<T> = Ok(value: T) | Err(status: Failure) {
    function StatusOf(): Status {
      if Ok? then Success else status
    }
  }

  /** A pointer that may be NULL, or a Python call that may raise. */
  datatype Option<T> = None | Some(value: T)
}
