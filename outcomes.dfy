/**
 * Error taxonomy of the renderer and the failure-compatible result type.
 * Python exceptions that the modelled code raises or lets escape become
 * `Err` values; the exception hierarchy itself is not modelled.
 */
module Outcomes {

  /** The exceptions that can leave the rendering pipeline. */
  datatype Error =
    | ArgumentExpected(argument: string)  // ArgumentExpectedException
    | TemplateNotFound(path: string)      // TemplateNotFoundException
    | KeyError(key: string)               // a data key without a placeholder
    | RecursionLimit                      // import expansion ran out of fuel

  datatype Option<+T> = None | Some(value: T)

  datatype Result<+T> = Ok(value: T) | Err(error: Error) {
    predicate IsFailure() {
      Err?
    }

    function PropagateFailure<U>(): Result<U>
      requires Err?
    {
      Err(error)
    }

    function Extract(): T
      requires Ok?
    {
      value
    }
  }
}
