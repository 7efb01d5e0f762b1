/**
 * The decoder's error taxonomy (`ParserError` in src/lib.rs) and the
 * result types every decoding step returns.
 *
 * The enum in src/lib.rs lists six kinds, yet the code raises two more
 * (`Ended` in `peek_type`, `NotEnoughEndpoints` in the grouping loop);
 * the model has the union of what is used. Three further kinds stand
 * for outcomes the source reaches without an error value:
 *   - `Truncated`: the source slices or reads past the end of the buffer
 *     (a panic, or an out-of-bounds read in the unchecked `cast`);
 *   - `TooManyEndpoints`: the `u8` endpoint counter of the grouping loop
 *     would be decremented below zero (a panic);
 *   - `NoProgress`: a module or an extension probe reports a consumed
 *     length of 0, so the cursor never advances (the source loops forever).
 */
module Errors {
  import opened Bytes

  datatype ParserError =
    | NotDeviceDescriptor
    | NotConfigDescriptor
    | NotFunction
    | NotEndpoint
    | NoSuitableModule
    | PeekFailed(code: u8)
    | Ended
    | NotEnoughEndpoints
    | Truncated
    | TooManyEndpoints
    | NoProgress

  datatype Option<T> = None | Some(value: T)

  /** A decoding outcome; failure-compatible, so `:-` propagates the error. */
  datatype Result<T> = Ok(value: T) | Err(error: ParserError) {
    predicate IsFailure() {
      Err?
    }

    function PropagateFailure<U>(): Result<U>
      requires Err?
    {
      Err(error)
    }

    function Extract(): T
      requires Ok?
    {
      value
    }
  }

  /**
   * `&input[..len]`, checked: Rust panics when `len` exceeds the slice,
   * the model reports `Truncated`.
   */
  function Prefix(input: seq<u8>, len: nat): (r: Result<seq<u8>>)
    ensures r.Ok? <==> len <= |input|
    ensures r.Ok? ==> r.value == input[..len]
    ensures r.Err? ==> r.error == Truncated
  {
    if len <= |input| then Ok(input[..len]) else Err(Truncated)
  }
}
