/** Values shared by every part of the RFID service model. */
module Common {

  /** Python's `None` or a value. */
  datatype Option<+T> = None | Some(value: T)

  /** One byte of a smartcard APDU response. */
  newtype byte = x: int | 0 <= x < 256

  /**
   * What a `requests.post` call yields, as far as the service looks at it:
   * a response with an HTTP status code, or a raised request exception
   * (timeout, refused connection, DNS failure, ...).
   */
  datatype Outcome = Response(status: int) | RequestError {
    /** The service treats exactly HTTP 200 as success. */
    predicate IsOk() {
      Response? && status == 200
    }
  }
}
