/** Results of operations that the library ends with ERREXIT, optional values, and sequences in pieces. */
module Wrappers {

  /** The ERREXIT codes that the modelled routines raise; NoLengthInUse is none of them, but a search that has no end. */
  datatype Error =
    | NoLengthInUse | BadHuffTable | MissingCode | BadDctCoef | CodeLengthOverflow | NoHuffTable
    | BadScanScript | BadProgScript | MissingData | ComponentCount
    | NoSoi | SoiDuplicate | SofUnsupported | UnknownMarker | NoQuantTable | ImageTooBig
    | BadLength | DqtIndex | DhtIndex | SofDuplicate | EmptyImage | SosNoSof | BadComponentId

  datatype Result<+T> = Ok(value: T) | Err(error: Error) {
    predicate IsFailure() {
      Err?
    }
    function PropagateFailure<U>(): Result<U>
      requires Err?
    {
      Err(error)
    }
    function Extract(): T
      requires Ok?
    {
      value
    }
  }

  datatype Option<+T> = None | Some(value: T)

  function Concat<T>(pieces: seq<seq<T>>): seq<T> {
    if pieces == [] then [] else pieces[0] + Concat(pieces[1..])
  }
}
