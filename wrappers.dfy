/** Optional values and the failures a service call ends with. */
module Wrappers {

  /** A Java reference that may be null. */
  datatype Option<T> = None | Some(value: T)
  {
    function UnwrapOr(fallback: T): T
    {
      if Some? then value else fallback
    }
  }

  /** The exception a call ends with, by the class the source throws. */
  datatype Failure =
    | BusinessError(message: string)     // BusinessException
    | NotFound(message: string)          // ResourceNotFoundException
    | IllegalArgument(message: string)   // IllegalArgumentException
    | UsernameNotFound(message: string)  // UsernameNotFoundException
    | Internal(message: string)          // any other runtime failure (null dereference, bad index, a data-access exception)

  /** The value of a call that returns something, or the exception it throws. */
  datatype Result<T> = Ok(value: T) | Err(failure: Failure)

  /** The end of a call that returns nothing, or the exception it throws. */
  datatype Outcome = Pass | Fail(failure: Failure)

  /** A non-empty set has a member to pick. */
  lemma NonEmptyHasMember(s: set<int>)
    requires s != {}
    ensures exists x :: x in s
  {
    assert (forall x :: x !in s) ==> s == {};
  }
}
