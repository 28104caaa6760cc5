/** Failure-compatible wrappers shared by every puzzle module: `Option` for a
    Ruby `nil` result and `Result` for a raised exception. */
module Wrappers {

  datatype Option<+T> = None | Some(value: T) {
    predicate IsFailure() {
      None?
    }

    function PropagateFailure<U>(): Option<U>
      requires None?
    {
      None
    }

    function Extract(): T
      requires Some?
    {
      value
    }
  }

  datatype Result<+R, +E> = Success(value: R) | Failure(error: E) {
    predicate IsFailure() {
      Failure?
    }

    function PropagateFailure<U>(): Result<U, E>
      requires Failure?
    {
      Failure(error)
    }

    function Extract(): R
      requires Success?
    {
      value
    }
  }

  /** All the values when every entry has one; `None` as soon as any entry
      lacks one, as a `map` whose block raises. */
  function AllSome<T>(os: seq<Option<T>>): (r: Option<seq<T>>)
    ensures r.Some? ==> |r.value| == |os| && forall k | 0 <= k < |os| :: os[k] == Some(r.value[k])
    ensures r.None? <==> exists k | 0 <= k < |os| :: os[k].None?
  {
    if os == [] then Some([])
    else
      var first := os[..|os| - 1];
      assert forall k | 0 <= k < |first| :: first[k] == os[k];
      var vs :- AllSome(first);
      var v :- os[|os| - 1];
      Some(vs + [v])
  }
}
