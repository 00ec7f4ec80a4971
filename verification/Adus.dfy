/** The unit of exchange above the framing, and what framing can report. */
module Adus {
  import opened Bytes

  datatype Adu = Adu(transaction: Option<u16>, unit: byte, fc: byte, data: seq<byte>)

  datatype FramingError =
    | CrcCheckFailed
    | LrcCheckFailed
    | InsufficientData
    | InvalidData
    | InvalidHex
    | T15Exceeded
    | IncompleteFrame

  datatype Decoded = Ok(adu: Adu) | Err(error: FramingError)
}
