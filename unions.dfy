/** The unions of the railway-oriented library: the failure hierarchy, the
    unit and value-carrying results, and the optional value, with their
    implicit conversions. */
module Unions {
  import opened CSharp

  /** An exception, of which only the message is read. */
  datatype Exception = Exception(message: string)

  /** The failures a result can carry. `InvalidError` and `NotFoundError` are
      the two the application layer adds to the hierarchy. */
  datatype ResultFailure =
    | Error(errorMessage: Nullable<string>)
    | AggregateError(aggregate: seq<ResultFailure>)
    | FromException(exception: Exception)
    | InvalidError(name: string, invalidMessage: string)
    | NotFoundError(notFoundMessage: string)
  {
    /** The message every failure passes to the base record. */
    function Message(): Nullable<string> {
      match this
      case Error(m) => m
      case AggregateError(_) => NonNull(AggregateMessage)
      case FromException(e) => NonNull(e.message)
      case InvalidError(_, m) => NonNull(m)
      case NotFoundError(m) => NonNull(m)
    }
  }

  const AggregateMessage := "One or more failures returned. Expand the aggregate to see all errors."

  /** A result without a value. */
  datatype Result = Success | Failure(error: ResultFailure)

  /** A result carrying a value on success. */
  datatype ResultOf<T> = Success(value: T) | Failure(error: ResultFailure)

  datatype Option<T> = Some(value: T) | None

  /** `ResultFailure` to `Result`. */
  function ResultFromFailure(failure: ResultFailure): Result {
    Result.Failure(failure)
  }

  /** `T` to `Result<T>`. */
  function FromValue<T>(value: T): ResultOf<T> {
    ResultOf.Success(value)
  }

  /** `ResultFailure` to `Result<T>`. */
  function FromFailure<T>(failure: ResultFailure): ResultOf<T> {
    ResultOf.Failure(failure)
  }

  /** `T` to `Option<T>`. */
  function OptionFromValue<T>(value: T): Option<T> {
    Some(value)
  }

  /** A failure's message is null only for an `Error` built with a null
      message; the wrapped exception's message and the aggregate's fixed text
      are what the other two base failures report. */
  lemma MessageCases(f: ResultFailure)
    ensures f.Message().Null? <==> f == Error(Null)
    ensures f.AggregateError? ==> f.Message() == NonNull(AggregateMessage)
    ensures f.FromException? ==> f.Message() == NonNull(f.exception.message)
    ensures f.Error? ==> f.Message() == f.errorMessage
  {
  }

  /** The two conversions into `Result<T>` never meet, and each keeps its argument. */
  lemma ConversionsDistinct<T>(v: T, w: T, f: ResultFailure, g: ResultFailure)
    ensures FromValue(v) != FromFailure<T>(f)
    ensures FromValue(v) == FromValue(w) ==> v == w
    ensures FromFailure<T>(f) == FromFailure<T>(g) ==> f == g
    ensures ResultFromFailure(f) == ResultFromFailure(g) ==> f == g
    ensures OptionFromValue(v) == OptionFromValue(w) ==> v == w
  {
  }
}
