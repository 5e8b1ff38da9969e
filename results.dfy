/** Failure-compatible wrappers and the exceptions the WPath engine can raise. */
module Results {

  datatype Option<+T> = None | Some(value: T)

  /** The exceptions thrown by the finder, one constructor per distinct cause. */
  datatype Error =
    | BadPath             // ArgumentException: the full path does not start with '/'
    | InvalidUiPath       // ArgumentException "Invalid UI Path": a segment does not match the segment pattern
    | InvalidProperty     // ArgumentException "Invalid property": a predicate clause of type Invalid is converted
    | UnknownProperty     // ArgumentException "Unkown property": a name/value clause names no known attribute
    | UnknownControlType  // KeyNotFoundException: the type tag is not in the control-type table
    | NotBoolean          // FormatException: an `enabled` value is not a boolean literal
    | IndexOutOfRange     // IndexOutOfRangeException: empty path, dangling '/', or a positional index out of range
    | NoElements          // InvalidOperationException: First()/Last() of an empty match list
    | NullElement         // NullReferenceException: a step searched from a null element
    | NotSupported        // NotSupportedException "Invalid node": a selection clause of no positional kind

  datatype Result<+T> = Ok(value: T) | Err(error: Error) {
    predicate IsFailure() {
      Err?
    }

    function PropagateFailure<U>(): Result<U>
      requires Err?
    {
      Err(error)
    }

    function Extract(): T
      requires Ok?
    {
      value
    }
  }
}
