/** Option and Result for the data store, and the errors its operations raise. */
module Wrappers {

  /** Python's `None` or a value. */
  datatype Option<+T> = None | Some(value: T)

  /** The exceptions raised by the storage records and the data pool, one constructor
      per distinct failure the callers can observe. */
  datatype Error =
    | UnsupportedSampleType   // ValueError: sample tag outside float32/float64/int32/int64/str
    | MissingFolder           // ValueError: file-based storage without a folder
    | NotLoaded               // ValueError: chunked read of a RAM record holding no data
    | NotInFile               // ValueError: file access on a record that is not file-backed
    | FileNotFound            // OSError: open/getsize/remove of a file that does not exist
    | NoneValue               // TypeError: arithmetic, len() or append on Python's None
    | ZeroStep                // ValueError: range() with a zero step
    | NegativeSeek            // OSError: seek to a negative byte offset
    | FormatError             // struct.error: byte count not a whole number of samples
    | NoSuchMethod            // AttributeError: the record's class lacks the operation
    | UnknownMember           // AttributeError: an enumeration member name that does not exist
    | UnsupportedType         // ValueError: data type absent from the class table
    | InvalidArguments        // ValueError wrapping the constructor's TypeError (bad keyword arguments)
    | MissingDefinitions      // ValueError: signal without step or unit
    | NotFound                // ValueError/IndexError: unknown data identifier
    | Unauthorized            // PermissionError: wrong source, or subscriber not registered
    | NotSubscribed           // ValueError: acknowledgment from a subscriber with no binding
    | Locked                  // PermissionError/ValueError: read of a locked record
    | NotLocked               // PermissionError: store into an unlocked record
    | ExpectedString          // ValueError: a text record stored from a non-string object
    | NotFreqSignal           // ValueError: FFT collection member that is not a frequency signal
    | InvalidInterpolation    // ValueError: interpolation type other than 'linear' or 'log'
    | NoPoints                // ValueError: interpolation without limit points
    | InterpolationUnset      // ValueError: interpolation type not set
    | NonPositiveFrequency    // ValueError: logarithmic interpolation on a non-positive frequency
    | RangeNotFound           // ValueError: no bracketing pair of limit points
    | NotIncreasing           // ValueError: transparency time not strictly increasing
    | InvalidRange            // ValueError: range whose start lies after its end

  /** The value of a call that either returns or raises. */
  datatype Result<+R> = Ok(value: R) | Err(error: Error) {

    predicate IsFailure() {
      Err?
    }

    function PropagateFailure<U>(): Result<U>
      requires Err?
    {
      Err(error)
    }

    function Extract(): R
      requires Ok?
    {
      value
    }
  }
}
