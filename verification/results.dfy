/** Failure-compatible results for the Python code being modelled: every
    exception the modelled code can raise becomes an `Err` carrying the
    exception's class, so that error paths are part of each contract
    instead of being excluded by preconditions. */
module Results {

  /** The Python exception classes the modelled code can raise. */
  datatype Fault =
    | KeyError           // dictionary lookup of a missing key
    | IndexError         // list or string index out of range
    | ValueError         // int()/float() parse failure, unpacking, randint on an empty range, list.index miss
    | ZeroDivisionError  // division by zero
    | AssertionError     // a failed `assert`
    | RuntimeError       // a tensor operation rejecting its arguments
    | UnboundLocalError  // a local variable read on a path that never assigned it

  datatype Result<+T> = Ok(value: T) | Err(fault: Fault) {

    predicate IsFailure() {
      Err?
    }

    function PropagateFailure<U>(): Result<U>
      requires Err?
    {
      Err(fault)
    }

    function Extract(): T
      requires Ok?
    {
      value
    }
  }

  datatype Option<+T> = None | Some(value: T)

  predicate AllOk<T>(rs: seq<Result<T>>) {
    forall k :: 0 <= k < |rs| ==> rs[k].Ok?
  }

  /** A loop that computes each result in turn and stops at the first
      exception: the values in order, or the first failure's fault. */
  function Collect<T>(rs: seq<Result<T>>): (r: Result<seq<T>>)
    ensures r.Ok? <==> AllOk(rs)
    ensures r.Ok? ==> |r.value| == |rs| && forall k :: 0 <= k < |rs| ==> r.value[k] == rs[k].value
    ensures r.Err? ==> exists k :: 0 <= k < |rs| && AllOk(rs[..k]) && rs[k] == Err(r.fault)
    decreases |rs|
  {
    if |rs| == 0 then Ok([])
    else if rs[0].Err? then
      assert AllOk(rs[..0]);
      Err(rs[0].fault)
    else
      var tail := rs[1..];
      assert forall k :: 1 <= k < |rs| ==> rs[k] == tail[k - 1];
      var rest :- Collect(tail);
      var values := [rs[0].value] + rest;
      assert forall k :: 1 <= k < |rs| ==> values[k] == rest[k - 1];
      Ok(values)
  }
}
