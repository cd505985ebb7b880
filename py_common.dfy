// What the Python half of the service shares: the exceptions its code
// raises or lets through, the result of a call that may raise, and the
// user states of its schema.
module PyCommon {
  /** The exceptions the modelled Python code raises; the API errors carry their message. */
  datatype Exc =
    | ValueError
    | TypeError
    | IndexError
    | AttributeError
    | RecursionError
    | RuntimeError
    | DataError
    | FileNotFoundError
    | JWTValidationError
    | ManyGenAttemptsError
    | ManyConfirmAttemptsError
    | AlreadyGenError
    | NotGenError
    | InvalidCodeError
    | ExpiredCodeError
    | AccessDenied(message: string)
    | NotFound(message: string)
    | AlreadyExists(message: string)
    | BadRequest(message: string)

  /** A call that returns a value or raises. */
  datatype Py<T> = Return(value: T) | Raise(exc: Exc)

  /** The `UserState` enum, named as its members are. */
  datatype State = NOT_CONFIRMED | ACTIVE | BLOCKED | DELETED

  function StateValue(s: State): (v: int)
    ensures 0 <= v <= 3
  {
    match s
    case NOT_CONFIRMED => 0
    case ACTIVE => 1
    case BLOCKED => 2
    case DELETED => 3
  }

  /** `UserState(v)`: the member with that value, or ValueError. */
  function StateOf(v: int): (r: Py<State>)
    ensures r.Return? <==> 0 <= v <= 3
    ensures r.Return? ==> StateValue(r.value) == v
    ensures r.Raise? ==> r.exc == ValueError
  {
    if v == 0 then Return(NOT_CONFIRMED)
    else if v == 1 then Return(ACTIVE)
    else if v == 2 then Return(BLOCKED)
    else if v == 3 then Return(DELETED)
    else Raise(ValueError)
  }

  /** Looking a state up by its own value gives it back. */
  lemma StateOfValue(s: State)
    ensures StateOf(StateValue(s)) == Return(s)
  {
  }
}
