/** Option and Result: absence and failure as values rather than as exceptions. */
module Wrappers {

  /** A value that may be absent (Python's `None`). */
  datatype Option<+T> = None | Some(value: T)

  /** The value of `o` as a sequence of at most one element. */
  function AsSeq<T>(o: Option<T>): (r: seq<T>)
    ensures |r| <= 1 && (r == [] <==> o.None?)
    ensures forall k :: 0 <= k < |r| ==> o == Some(r[k])
  {
    if o.Some? then [o.value] else []
  }

  /** Either a successful value or an error describing why the operation was refused. */
  datatype Result<+R, +E> = Success(value: R) | Failure(error: E)
}
