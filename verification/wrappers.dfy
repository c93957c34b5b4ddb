/** Nullable values and fallible results.

    `Option` stands for a C# nullable (`string?`, `int?`, a reference that may
    be `null`); `Result` stands for a call that either returns or throws.
 */
module Wrappers {

  datatype Option<+T> = None | Some(value: T) {

    /** The value, or `default` when absent. */
    function GetOr(default: T): T {
      match this
      case Some(v) => v
      case None => default
    }
  }

  datatype Result<+R, +E> = Success(value: R) | Failure(error: E) {

    predicate IsFailure() {
      Failure?
    }

    function PropagateFailure<U>(): Result<U, E>
      requires Failure?
    {
      Failure(error)
    }

    function Extract(): R
      requires Success?
    {
      value
    }
  }

  /** Applies `f` to each element in order and stops at the first failure:
      what enumerating a lazily mapped sequence does when the mapping throws. */
  function MapAll<A, B, E(==)>(xs: seq<A>, f: A -> Result<B, E>): (r: Result<seq<B>, E>)
    ensures r.Success? <==> forall k | 0 <= k < |xs| :: f(xs[k]).Success?
    ensures r.Success? ==> |r.value| == |xs|
    ensures r.Success? ==> forall k | 0 <= k < |xs| :: f(xs[k]) == Success(r.value[k])
    ensures r.Failure? ==> exists k | 0 <= k < |xs| :: f(xs[k]).Failure? && f(xs[k]).error == r.error
                                                     && forall j | 0 <= j < k :: f(xs[j]).Success?
    decreases |xs|
  {
    if xs == [] then Success([])
    else
      match f(xs[0])
      case Failure(e) => Failure(e)
      case Success(head) =>
        var rest := MapAll(xs[1..], f);
        assert forall k | 1 <= k < |xs| :: xs[k] == xs[1..][k - 1];
        if rest.Failure? then
          var k :| 0 <= k < |xs[1..]| && f(xs[1..][k]).Failure? && f(xs[1..][k]).error == rest.error
                   && forall j | 0 <= j < k :: f(xs[1..][j]).Success?;
          assert f(xs[k + 1]).Failure?;
          Failure(rest.error)
        else
          var r := [head] + rest.value;
          assert forall k | 1 <= k < |xs| :: r[k] == rest.value[k - 1];
          Success(r)
  }
}
