/** The success/failure envelope every handler returns (`Result<T>` and `ResultError`),
    and the messages it can carry (`ErrorMessage`, `ValidatorMessage`). */
module Results {
  import opened Common

  /** Every message the service puts into a `ResultError`, one constructor per constant or
      formatter. The text they render to is not modelled. */
  datatype Message =
    // ErrorMessage
    | NotFound
    | InvalidUser
    | UnauthorizedAction
    | InvalidUserInputs
    | SomethingWentWrong
    // ValidatorMessage
    | InvalidGuid
    | MinValue(property: string, minValue: int16)
    | MaxValue(property: string, maxValue: int16)
    | MinLength(property: string, minLength: int16)
    | MaxLength(property: string, maxLength: int16)
    | MinCount(property: string, minCount: int16)
    | MaxCount(property: string, maxCount: int16)
    // ValidationDecorator.DefaultErrorMessage
    | ValidationFailed

  /** `record ResultError(string Message, string? InnerException = null)`: a value with
      structural equality on its two fields. */
  datatype ResultError = ResultError(message: Message, innerException: Option<string>)

  /** `Result<T>` with its two init-only properties. A datatype value cannot change after
      construction, as the init-only properties promise. A failure is recognised by its
      `Error`, never by its `Data`. */
  datatype Result<T> = Result(data: T, error: Option<ResultError>) {
    predicate IsSuccess() { error.None? }
  }

  /** `Result<T>.Success(value)`. */
  function Success<T>(value: T): (r: Result<T>)
    ensures r.IsSuccess() && r.data == value
  {
    Result(value, None)
  }

  /** `Result<T>.Failure(error, innerException = null)`. `zero` is C#'s `default(T)`
      (`false` for `bool`, `null` for a reference type). */
  function Failure<T>(zero: T, message: Message, innerException: Option<string> := None): (r: Result<T>)
    ensures !r.IsSuccess()
    ensures r.error == Some(ResultError(message, innerException))
    ensures r.data == zero
  {
    Result(zero, Some(ResultError(message, innerException)))
  }

  /** The public parameterless constructor kept for JSON deserialisation: both
      properties keep their defaults, so the value reads as a success. */
  function Deserialized<T>(zero: T): (r: Result<T>)
    ensures r.IsSuccess() && r.data == zero
  {
    Result(zero, None)
  }

  /** A failure built without an inner exception carries none. */
  lemma FailureWithoutInnerException<T>(zero: T, message: Message)
    ensures Failure(zero, message).error.value.innerException == None
    ensures Failure(zero, message) == Failure(zero, message, None)
  {
  }

  /** The two factories never produce the same value, and each is determined by its
      arguments: equal successes carry equal data, equal failures carry equal errors. */
  lemma FactoriesAreDistinct<T>(v: T, w: T, zero: T, m1: Message, m2: Message, i1: Option<string>, i2: Option<string>)
    ensures Success(v) != Failure(zero, m1, i1)
    ensures Success(v) == Success(w) <==> v == w
    ensures Failure(zero, m1, i1) == Failure(zero, m2, i2) <==> m1 == m2 && i1 == i2
  {
  }

  /** Every envelope whose `Error` is set is exactly the failure with that error and a
      default `Data`, and every other one is a success of its `Data`: the two factories
      and the JSON constructor produce all envelopes the handlers return. */
  lemma EveryResultIsAFactoryValue<T>(r: Result<T>, zero: T)
    requires r.error.Some? ==> r.data == zero
    ensures r.IsSuccess() ==> r == Success(r.data)
    ensures !r.IsSuccess() ==> r == Failure(zero, r.error.value.message, r.error.value.innerException)
  {
  }
}
