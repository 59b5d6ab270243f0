// Outcomes. The linker answers a failed assertion, an abort() or a fault by ending the process: Abort.
module Results {

  datatype Option<+T> = None | Some(value: T)

  datatype Result<+T> = Ok(value: T) | Abort {
    predicate IsFailure() { Abort? }

    function PropagateFailure<U>(): Result<U>
      requires Abort?
    {
      Abort
    }

    function Extract(): T
      requires Ok?
    {
      value
    }
  }
}
