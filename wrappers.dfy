/** Result and error vocabulary shared by the whole codec model.

    Python signals every failure with an exception; here each failure is a
    value `Failure(Error(cls, reason))`: `cls` is the Python exception class
    that the source raises (or that the interpreter or numpy would raise at
    that point), `reason` says which check fired. */
module Wrappers {

  datatype Option<+T> = None | Some(value: T)

  datatype Result<+T> = Success(value: T) | Failure(error: Error) {
    predicate IsFailure() { Failure? }

    function PropagateFailure<U>(): Result<U>
      requires Failure?
    {
      Failure(error)
    }

    function Extract(): T
      requires Success?
    {
      value
    }
  }

  /** The two generations of the codec in the repository. `Current` is the
      `metaimageio` package (reader.py, writer.py), `Legacy` is the older
      `pymetaio/io.py`. Where their policies differ the model takes the
      generation as a parameter. */
  datatype Generation = Current | Legacy

  datatype ErrorClass =
    | ValueError
    | IOError
    | TypeError
    | AttributeError
    | IndexError
    | KeyError
    | OverflowError
    | FileNotFoundError
    | ZlibError

  datatype Reason =
    // header parsing and typecasting
    | UnsupportedElementType
    | NotAnInteger
    | IntegerOutOfRange
    | NotAFloat
    | NotThreeByThree
    | PatternTooShort
    | ZeroStep
    | AppendToString
    | MissingTag
    | NegativeDimension
    | SizeOverflow
    | NegativeSize
    | EmptyShape
    | ShapeMismatch
    // memory-mapped reading
    | ByteOrderWithMemmap
    | CompressedWithMemmap
    | PerSliceHeaderWithMemmap
    | MultipleFilesWithMemmap
    | SlicesWithMemmap
    | MemmapBeyondFile
    // slice selection and payload
    | SlicesNotIncreasing
    | SlicesOutOfBounds
    | MissingCompressedDataSize
    | PerSliceHeaderWithCompression
    | SlicesWithCompression
    | ReshapeMismatch
    | NoDataFile
    | MissingFile
    | CorruptStream
    // writing
    | FileCountMismatch
    | UnrecognizedTag
    | DataFileNotAString
    | EmptyName
    | UnexpectedValue
    // transform helper
    | AmbiguousPosition
    | AmbiguousOrientation
    | PositionDefined
    | OrientationDefined

  datatype Error = Error(cls: ErrorClass, reason: Reason)

  /** The exception class each generation raises for the checks it makes
      itself: `ValueError` in metaimageio, `IOError` in pymetaio. */
  function CheckError(gen: Generation, reason: Reason): Error
  {
    Error(if gen == Current then ValueError else IOError, reason)
  }
}
