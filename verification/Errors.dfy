/** The protocol, transport and flow errors the wire layer reports, without their display text. */
module Errors {
  import opened Bytes

  datatype LaicError =
    | InvalidMagic(magic: u32)
    | BufferTooShort(actual: nat, expected: nat)
    | UnsupportedVersion(version: u16)
    | InvalidPayloadFormat(format: byte)
    | InvalidQos(qos: byte)
    | PayloadLengthMismatch(headerLen: u32, actualLen: nat)
    | FramingError(payloadLen: nat)
    | SendFailed
    | ReceiveFailed
    | ShuttingDown
    | BackpressureFull
    | CreditExhausted
}
