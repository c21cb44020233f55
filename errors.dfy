/** Outcomes shared by every part of the model: the exceptions the S-Bus code
    raises, folded into one datatype, and the Result/Option wrappers that
    carry them. */
module SBusErrors {

  /** Why an `SBusProtocolError` was raised; stands for the message text. */
  datatype Reason =
    | TooShort          // fewer than MIN_TELEGRAM_SIZE bytes
    | LengthMismatch    // embedded length field differs from the byte count
    | SequenceMismatch  // header sequence differs from the expected one
    | InvalidAttribute  // attribute byte is neither RESPONSE nor ACK
    | UnexpectedLength  // payload length differs from 4 * count
    | NotConnected      // no transport / datagram endpoint

  datatype Error =
    | ValueError          // caller-supplied argument out of range
    | StructError         // `struct.pack` / `struct.unpack` refused a value
    | UnicodeError        // strict ASCII decoding met a byte >= 0x80
    | ProtocolError(reason: Reason)
    | CrcError
    | TimeoutError
    | ConnectionError     // opening the socket or stream failed (OSError)

  datatype Result<+T> = Ok(value: T) | Err(error: Error)

  datatype Option<+T> = None | Some(value: T)

  /** The outcome of an operation that returns nothing but may raise. */
  datatype Outcome = Pass | Fail(error: Error)
}
