/** The error type shared by both codec generations (src/error.rs), with the
    two variants the decoders raise but the shown enum lacks. */
module Errors {
  import opened Bytes
  import Wrappers
  import Tags

  datatype Error =
    | WriterError
    | Message(text: string)
    | UnknownSeqLength
    | Eof
    | InvalidBool(byte: u8)
    | InvalidChar(code: nat)
    | InvalidStr
    | InvalidSize
    | InvalidOptionTag(byte: u8)
    | TrailingBytes(remaining: nat)
    | Unimplemented(name: string)
    | TagParsingError(tagError: Tags.TagParsingError)
    | SeqSizeMismatch(expected: nat, got: nat)
    /** Not an error value in the source: an abort (`todo!()`) of the whole
        decode, kept here so that the model can follow it as an outcome. */
    | Panic(reason: string)

  type Result<T> = Wrappers.Result<T, Error>

  /** `#[derive]`d field and variant visitors reject an index or a name they
      do not know with a custom message; only the fact is modelled. */
  const UnknownVariant: Error := Message("unknown variant")

  /** `TagParsingError::unexpected(expected, got)` converted into `Error`. */
  function Unexpected<T>(expected: string, got: Tags.Tag): Result<T>
  {
    Wrappers.Err(TagParsingError(Tags.UnexpectedTag(expected, got)))
  }
}
