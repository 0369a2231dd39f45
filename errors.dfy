/**
 * The `Error` record of the shared kernel: a (code, message) pair, and the four
 * factories that give the codes used across the application.
 */
module Errors {
  import opened Nullable

  /** Two errors are equal exactly when their codes and their messages are (record equality). */
  datatype Error = Error(code: string, message: string)

  const NotFoundCode: string := "NotFound"
  const ValidationCode: string := "ValidationError"
  const ConflictCode: string := "Conflict"
  const UnexpectedCode: string := "Unexpected"

  /** The kinds of failure the factories name; `Kind` recovers one from an error's code. */
  datatype ErrorKind = NotFoundKind | ValidationKind | ConflictKind | UnexpectedKind

  function CodeOf(kind: ErrorKind): string
  {
    match kind
    case NotFoundKind => NotFoundCode
    case ValidationKind => ValidationCode
    case ConflictKind => ConflictCode
    case UnexpectedKind => UnexpectedCode
  }

  /** The kind whose code `e` carries, or None for a code no factory produces. */
  function Kind(e: Error): (k: Option<ErrorKind>)
    ensures k.Some? ==> CodeOf(k.value) == e.code
    ensures k.None? ==> forall kind: ErrorKind :: CodeOf(kind) != e.code
  {
    if e.code == NotFoundCode then Some(NotFoundKind)
    else if e.code == ValidationCode then Some(ValidationKind)
    else if e.code == ConflictCode then Some(ConflictKind)
    else if e.code == UnexpectedCode then Some(UnexpectedKind)
    else None
  }

  function NotFound(message: string): (e: Error)
    ensures Kind(e) == Some(NotFoundKind) && e.message == message
  {
    Error(NotFoundCode, message)
  }

  function Validation(message: string): (e: Error)
    ensures Kind(e) == Some(ValidationKind) && e.message == message
  {
    Error(ValidationCode, message)
  }

  function Conflict(message: string): (e: Error)
    ensures Kind(e) == Some(ConflictKind) && e.message == message
  {
    Error(ConflictCode, message)
  }

  function Unexpected(message: string): (e: Error)
    ensures Kind(e) == Some(UnexpectedKind) && e.message == message
  {
    Error(UnexpectedCode, message)
  }

  /** The factory codes are pairwise distinct: an error's kind is determined by its code. */
  lemma CodesDistinct(k1: ErrorKind, k2: ErrorKind)
    ensures CodeOf(k1) == CodeOf(k2) <==> k1 == k2
  {
  }

  /** Errors from different factories never compare equal, whatever their messages. */
  lemma FactoriesDisjoint(m1: string, m2: string)
    ensures NotFound(m1) != Validation(m2) && NotFound(m1) != Conflict(m2) && NotFound(m1) != Unexpected(m2)
    ensures Validation(m1) != Conflict(m2) && Validation(m1) != Unexpected(m2)
    ensures Conflict(m1) != Unexpected(m2)
  {
  }
}
