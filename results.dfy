/**
 * The `Result` / `Result<T>` kernel. Success and failure are two constructors, so a
 * success cannot carry an error and a failure cannot carry a value. The non-generic
 * `Result` of the source is `Outcome` here; `Result<T>` keeps its name.
 */
module Results {
  import opened Nullable
  import opened Errors

  /** The non-generic Result: SuccessResult or FailureResult(error). */
  datatype Outcome = Success | Failure(error: Error) {

    /** IsSuccess; also the implicit conversion to bool. */
    predicate IsSuccess()
    {
      Success?
    }

    /** The `Error` property: null on success, the failure's error otherwise. */
    function ErrorOrNull(): (e: Option<Error>)
      ensures e.None? <==> IsSuccess()
      ensures Failure? ==> e == Some(error)
    {
      if Success? then None else Some(error)
    }
  }

  /** Result<T>: SuccessResult<T>(value) or FailureResult<T>(error). */
  datatype Result<T> = Success(value: T) | Failure(error: Error) {

    predicate IsSuccess()
    {
      Success?
    }

    function ErrorOrNull(): (e: Option<Error>)
      ensures e.None? <==> IsSuccess()
      ensures Failure? ==> e == Some(error)
    {
      if Success? then None else Some(error)
    }

    /** The implicit conversion to `T?`: the value on success, default (null) on failure. */
    function ValueOrDefault(): (v: Option<T>)
      ensures v.Some? <==> IsSuccess()
      ensures Success? ==> v == Some(value)
    {
      if Success? then Some(value) else None
    }

    /** The same result seen as the base `Result` (Result<T> derives from Result). */
    function AsOutcome(): (o: Outcome)
      ensures o.IsSuccess() == IsSuccess() && o.ErrorOrNull() == ErrorOrNull()
    {
      if Success? then Outcome.Success else Outcome.Failure(error)
    }
  }

  /** `Result.Success()` has IsSuccess = true and no error. */
  lemma SuccessHasNoError()
    ensures Outcome.Success.IsSuccess() && Outcome.Success.ErrorOrNull() == None
  {
  }

  /** `Result.Failure(e)` is unsuccessful and keeps exactly e. */
  lemma FailureKeepsError(e: Error)
    ensures !Outcome.Failure(e).IsSuccess() && Outcome.Failure(e).ErrorOrNull() == Some(e)
  {
  }

  /** `Result<T>.Success(v)` and `Result<T>.Failure(e)`: value, error and flag as the constructors set them. */
  lemma GenericConstructors<T>(v: T, e: Error)
    ensures Result<T>.Success(v).IsSuccess() && Result<T>.Success(v).ValueOrDefault() == Some(v)
    ensures Result<T>.Success(v).ErrorOrNull() == None
    ensures !Result<T>.Failure(e).IsSuccess() && Result<T>.Failure(e).ValueOrDefault() == None
    ensures Result<T>.Failure(e).ErrorOrNull() == Some(e)
  {
  }
}
