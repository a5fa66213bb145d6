// The result of a compile step.

module Results {

  /** `Err` is a reported compile error; `Panic` would be a failed `expect`. */
  datatype Result<+T> = Ok(value: T) | Err | Panic
  {
    predicate IsFailure() { !Ok? }
    function PropagateFailure<U>(): Result<U>
      requires !Ok?
    {
      if Err? then Err else Panic
    }
    function Extract(): T
      requires Ok?
    {
      value
    }
  }
}
