/** Results of operations that, in the source, may leave or panic. */
module Outcomes {

  datatype Option<+T> = None | Some(value: T)

  /** The leave codes the modelled code raises itself; KErrLibrary stands for whatever
      code the ASN.1 library leaves with on malformed input. */
  datatype LeaveCode = KErrArgument | KErrCorrupt | KErrNotFound | KErrNotSupported | KErrNoMemory | KErrLibrary

  /** Ok is a normal return, Leave is User::Leave, Panic ends the thread: an array
      index out of range, or an array created with granularity zero. */
  datatype Outcome<+T> = Ok(value: T) | Leave(code: LeaveCode) | Panic {

    predicate IsFailure() {
      !Ok?
    }

    function PropagateFailure<U>(): (r: Outcome<U>)
      requires IsFailure()
    {
      match this
      case Leave(code) => Leave(code)
      case Panic => Panic
    }

    function Extract(): T
      requires Ok?
    {
      value
    }
  }

  function LibraryValue<T>(o: Option<T>): Outcome<T> {
    match o
    case Some(v) => Ok(v)
    case None => Leave(KErrLibrary)
  }

  /** What a caller sees of an operation that keeps its result in the object. */
  function Status<T>(o: Outcome<T>): Outcome<()> {
    match o
    case Ok(_) => Ok(())
    case Leave(code) => Leave(code)
    case Panic => Panic
  }
}
