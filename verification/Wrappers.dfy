/** Stock result types shared by every module of the model. */
module Wrappers {
  datatype Option<+T> = None | Some(value: T)

  datatype Result<+T, +E> = Ok(value: T) | Err(error: E) {
    predicate IsFailure() { Err? }

    function PropagateFailure<U>(): Result<U, E>
      requires Err?
    {
      Err(error)
    }

    function Extract(): T
      requires Ok?
    {
      value
    }
  }

  /** All the results, or the first error. */
  function Collect<T, E>(results: seq<Result<T, E>>): (all: Result<seq<T>, E>)
    ensures all.Ok? ==> |all.value| == |results|
    ensures all.Ok? <==> forall i :: 0 <= i < |results| ==> results[i].Ok?
    ensures all.Ok? ==> forall i :: 0 <= i < |results| ==> results[i] == Ok(all.value[i])
  {
    if results == [] then Ok([])
    else if results[0].Err? then Err(results[0].error)
    else
      var rest := Collect(results[1..]);
      if rest.Err? then Err(rest.error)
      else
        assert forall i :: 1 <= i < |results| ==> results[i] == results[1..][i - 1];
        Ok([results[0].value] + rest.value)
  }

  /** The error is that of the first result that failed. */
  lemma {:induction false} FirstError<T, E>(results: seq<Result<T, E>>) returns (i: nat)
    requires Collect(results).Err?
    ensures i < |results| && results[i].Err? && results[i].error == Collect(results).error
    ensures forall j :: 0 <= j < i ==> results[j].Ok?
  {
    if results[0].Err? {
      i := 0;
    } else {
      i := FirstError(results[1..]);
      i := i + 1;
    }
  }
}
