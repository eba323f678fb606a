/** Failure-carrying results shared by the screen's stages, and the error
    kinds the script can stop with. */
module Results {

  /** The ways the pipeline of main.py can stop before producing a table. */
  datatype Error =
    | MissingQuote(symbol: string)   // `data[stock]` raises KeyError
    | ZeroPrice(symbol: string)      // `position_size / price` raises ZeroDivisionError

  datatype Result<+T> = Success(value: T) | Failure(error: Error) {
    predicate IsFailure() {
      Failure?
    }

    function PropagateFailure<U>(): Result<U>
      requires Failure?
    {
      Failure(error)
    }

    function Extract(): T
      requires Success?
    {
      value
    }
  }
}
