/** Small value types shared by every module of the model. */
module Common {

  /** A value that may be absent: JavaScript's `null`/`undefined`, Python's `None`. */
  datatype Option<+T> = None | Some(value: T) {
    function GetOr(default: T): T {
      match this
      case Some(v) => v
      case None => default
    }
  }

  /** What a wizard step asks of the host page when the user leaves it:
      push data through the optional `setData` callback, or move on or back. */
  datatype HostCall<+T> = SetData(data: T) | OnNext | OnBack

  /** `setData?.(d); onNext()`: the optional callback fires first, and only when the host supplied one. */
  function SetDataThenNext<T>(hasSetData: bool, d: T): (calls: seq<HostCall<T>>)
    ensures |calls| == if hasSetData then 2 else 1
    ensures calls[|calls| - 1] == OnNext
    ensures hasSetData ==> calls[0] == SetData(d)
    ensures forall c | c in calls :: c == OnNext || c == SetData(d)
  {
    if hasSetData then [SetData(d), OnNext] else [OnNext]
  }
}
