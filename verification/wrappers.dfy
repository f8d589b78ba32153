/** Failure-carrying datatypes shared by the whole model. */
module Wrappers {

  /** A value that may be missing: pandas' NaN / NaT / None. */
  datatype Option<+T> = None | Some(value: T) {
    function GetOr(default: T): T
    {
      match this
      case Some(v) => v
      case None => default
    }
  }

  /** The outcome of a step that may raise. */
  datatype Result<+R, +E> = Success(value: R) | Failure(error: E) {
    predicate IsFailure() {
      Failure?
    }

    function PropagateFailure<U>(): Result<U, E>
      requires Failure?
    {
      Failure(this.error)
    }

    function Extract(): R
      requires Success?
    {
      value
    }
  }

  /** The first failure among `results`, or every value in order. */
  function Collect<T, E(==)>(results: seq<Result<T, E>>): (r: Result<seq<T>, E>)
    ensures r.Success? <==> forall i :: 0 <= i < |results| ==> results[i].Success?
    ensures r.Success? ==> |r.value| == |results|
    ensures r.Success? ==> forall i :: 0 <= i < |results| ==> r.value[i] == results[i].value
    ensures r.Failure? ==> exists i :: FailsFirstAt(results, i) && r.error == results[i].error
    decreases |results|
  {
    if |results| == 0 then Success([])
    else if results[0].Failure? then
      assert FailsFirstAt(results, 0);
      Failure(results[0].error)
    else
      var rest := Collect(results[1..]);
      if rest.Failure? then
        var i :| FailsFirstAt(results[1..], i) && rest.error == results[1..][i].error;
        assert FailsFirstAt(results, i + 1) by {
          forall j | 0 <= j < i + 1 ensures results[j].Success? {
            if j > 0 {
              assert results[j] == results[1..][j - 1];
            }
          }
        }
        Failure(rest.error)
      else
        assert forall i :: 0 < i < |results| ==> results[i] == results[1..][i - 1];
        Success([results[0].value] + rest.value)
  }

  /** `results[i]` is the first failure. */
  predicate FailsFirstAt<T, E>(results: seq<Result<T, E>>, i: int) {
    && 0 <= i < |results|
    && (forall j :: 0 <= j < i ==> results[j].Success?)
    && results[i].Failure?
  }
}
