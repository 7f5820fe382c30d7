/** Failure-carrying values used wherever the system catches an exception or
    reads an optional field: a data source either answers or fails. */
module Wrappers {

  /** A value that may be absent (Python `None`, JavaScript `null`/`undefined`). */
  datatype Option<+T> = None | Some(value: T) {
    function GetOr(default: T): T {
      match this
      case Some(v) => v
      case None => default
    }
  }

  /** The outcome of a call that may raise: the value, or the error message. */
  datatype Result<+T> = Ok(value: T) | Err(message: string) {
    predicate IsFailure() { Err? }
  }

  /** `items.map((q, index) => …)` for a mapping that may throw: the
      results in order, or the failure of the first entry that throws. */
  function MapIndexed<T, U>(f: (T, nat) -> Result<U>, items: seq<T>, start: nat): (r: Result<seq<U>>)
    ensures r.Ok? <==> forall k :: 0 <= k < |items| ==> f(items[k], start + k).Ok?
    ensures r.Ok? ==> (|r.value| == |items|
      && forall k :: 0 <= k < |items| ==> f(items[k], start + k) == Ok(r.value[k]))
    decreases |items|
  {
    if items == [] then Ok([])
    else
      match f(items[0], start)
      case Err(m) => Err(m)
      case Ok(x) =>
        match MapIndexed(f, items[1..], start + 1)
        case Err(m) =>
          ghost var k :| 0 <= k < |items[1..]| && f(items[1..][k], start + 1 + k).Err?;
          assert f(items[k + 1], start + (k + 1)).Err?;
          Err(m)
        case Ok(rest) =>
          assert forall k :: 1 <= k < |items| ==> items[k] == items[1..][k - 1];
          Ok([x] + rest)
  }
}
