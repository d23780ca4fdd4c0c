/** The status codes of libslas.h and the result wrappers of the model. */
module LasErrors {

  /** One constructor per negative LIBSLAS_*_ERROR code. */
  datatype Error =
    | AppendError | CloseError | HeaderReadError | HeaderReadFseekError
    | HeaderWriteError | HeaderWriteFseekError | IncorrectVersionError
    | InvalidFilenameError | InvalidGlobalEncodingError | InvalidModeError
    | InvalidPointFormatIdError | InvalidRecordNumberError
    | InvalidVlrRecordNumberError | LasCreateError | NotLasFileError
    | NotOpenForUpdateError | OpenReadonlyError | OpenUpdateError | ReadError
    | ReadFseekError | ReturnNumberOutOfRangeError | TooManyOpenFilesError
    | UpdateFseekError | UpdateReadError | VlrAppendError | VlrReadError
    | VlrReadFseekError | VlrWriteError | VlrWriteFseekError | WriteError

  /** The value the C function returns for the error. */
  function Code(e: Error): (c: int)
    ensures -30 <= c <= -1
  {
    match e
    case AppendError => -1
    case CloseError => -2
    case HeaderReadError => -3
    case HeaderReadFseekError => -4
    case HeaderWriteError => -5
    case HeaderWriteFseekError => -6
    case IncorrectVersionError => -7
    case InvalidFilenameError => -8
    case InvalidGlobalEncodingError => -9
    case InvalidModeError => -10
    case InvalidPointFormatIdError => -11
    case InvalidRecordNumberError => -12
    case InvalidVlrRecordNumberError => -13
    case LasCreateError => -14
    case NotLasFileError => -15
    case NotOpenForUpdateError => -16
    case OpenReadonlyError => -17
    case OpenUpdateError => -18
    case ReadError => -19
    case ReadFseekError => -20
    case ReturnNumberOutOfRangeError => -21
    case TooManyOpenFilesError => -22
    case UpdateFseekError => -23
    case UpdateReadError => -24
    case VlrAppendError => -25
    case VlrReadError => -26
    case VlrReadFseekError => -27
    case VlrWriteError => -28
    case VlrWriteFseekError => -29
    case WriteError => -30
  }

  /** Every code is negative, so `ret < 0` tells a failure from a handle or
      LIBSLAS_SUCCESS, and no two errors share a code. */
  lemma CodesAreDistinct(a: Error, b: Error)
    ensures Code(a) < 0
    ensures Code(a) == Code(b) <==> a == b
  {
  }

  const Success := 0

  /** The outcome of a call: a value (a handle, a record, a header) or the
      error it returned. */
  datatype Result<T> = Ok(value: T) | Err(error: Error)
  {
    /** The int32_t the C function returns, for a call whose success value
        is a handle or LIBSLAS_SUCCESS. */
    function Status(success: int): int
    {
      match this
      case Ok(_) => success
      case Err(e) => Code(e)
    }
  }

  datatype Option<T> = None | Some(value: T)
}
