/** Small datatypes shared by every module. */
module Prelude {
  /** A value that may be missing. */
  datatype Option<+T> = None | Some(value: T)

  /** A value, or the error that replaced it (the C++ code throws or returns an error code). */
  datatype Result<+T, +E> = Ok(value: T) | Err(error: E) {
    predicate IsFailure() { Err? }

    function PropagateFailure<U>(): Result<U, E>
      requires Err?
    {
      Err(this.error)
    }

    function Extract(): T
      requires Ok?
    {
      value
    }
  }

  /** The numbers below n. */
  function Indices(n: nat): (r: set<nat>)
    ensures forall i: nat :: i in r <==> i < n
    ensures |r| == n
  {
    if n == 0 then {} else Indices(n - 1) + {n - 1}
  }

  /** One when the condition holds. */
  function One(b: bool): nat { if b then 1 else 0 }

  /** No element occurs twice. */
  ghost predicate Distinct<T>(s: seq<T>) {
    forall i, j :: 0 <= i < j < |s| ==> s[i] != s[j]
  }
}
