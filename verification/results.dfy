/** Failure-carrying values for the handful of Python exceptions the modelled
    endpoints can raise. A `Failure` stands for "an exception escaped this
    step"; the caller decides whether it is caught (history) or not (contacts). */
module Results {

  /** The exceptions the modelled code can raise, named by the step that raises them. */
  datatype Fault =
    | MissingAttribute(attr: string)  // AttributeError: the value has no method `attr`
    | NotIterable                     // TypeError: `' ' in v` on a value that is not a container
    | BadSubscript                    // a dict subscripted with a slice (TypeError or KeyError)
    | StoreUnavailable                // the store read itself raised (network, permission, timeout)

  datatype Option<+T> = None | Some(value: T)

  datatype Result<+T> = Success(value: T) | Failure(fault: Fault) {

    predicate IsFailure() {
      Failure?
    }

    function PropagateFailure<U>(): Result<U>
      requires Failure?
    {
      Failure(fault)
    }

    function Extract(): T
      requires Success?
    {
      value
    }

    /** The carried value, or `default` when an exception escaped. */
    function GetOr(default: T): T {
      match this
      case Success(v) => v
      case Failure(_) => default
    }
  }
}
