/** Python values as the information model uses them: the scalars that serve as
    graph keys and plain attribute values, the exceptions the modelled code
    raises, and a failure-compatible result type for operations that raise. */
module PyValues {

  /** A Python scalar: `None`, a `bool`, an `int` or a `str`. Graph keys and the
      values of plain attributes are Datums. */
  datatype Datum = DNone | DBool(b: bool) | DInt(i: int) | DStr(s: string)

  /** The Python exceptions raised by the modelled code. `LookupFailed` stands
      for whatever the dynamic class lookup of a `dtype` envelope raises. */
  datatype Error =
    | AttributeError
    | TypeError
    | ValueError
    | KeyError
    | IndexError
    | StopIteration
    | ZeroDivisionError
    | RecursionError
    | NotImplementedError
    | LookupFailed

  /** Either the value an operation returns or the exception it raises. */
  datatype Result<+T> = Ok(value: T) | Err(error: Error) {

    predicate IsFailure() {
      Err?
    }

    function PropagateFailure<U>(): Result<U>
      requires Err?
    {
      Err(error)
    }

    function Extract(): T
      requires Ok?
    {
      value
    }
  }

  datatype Option<+T> = None | Some(value: T) {

    function GetOr(default: T): T {
      match this
      case Some(v) => v
      case None => default
    }
  }

  /** A value together with whether the operation printed a warning. */
  datatype Warned<+T> = Warned(value: T, warned: bool)
}
