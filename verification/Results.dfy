/** Optional values, and results carrying the engine's error kinds (messages are dropped). */
module Results {

  datatype Option<+T> = None | Some(value: T)

  /** `StorageError`, with `Panic` for the places where the program aborts instead of returning. */
  datatype Error = Io | Corruption | CorruptedData | InvalidFormat | Panic

  datatype Result<+T> = Ok(value: T) | Err(error: Error) {
    predicate IsFailure() {
      Err?
    }

    function PropagateFailure<U>(): Result<U>
      requires Err?
    {
      Err(error)
    }

    function Extract(): T
      requires Ok?
    {
      value
    }
  }

  /** Puts more elements before a successful list. */
  function Prepend<T>(front: seq<T>, r: Result<seq<T>>): Result<seq<T>> {
    match r case Ok(more) => Ok(front + more) case Err(e) => Err(e)
  }
}
