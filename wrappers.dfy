/** Failure-compatible wrappers and the Python exception kinds the library can raise. */
module Wrappers {

  datatype Option<+T> = None | Some(value: T)

  /** The exception classes that the modelled code raises. */
  datatype Error =
    | ValueError
    | KeyError
    | IndexError
    | TypeError
    | NotImplementedError
    | ReproducibilityError

  datatype Result<+T> = Success(value: T) | Failure(error: Error) {
    predicate IsFailure() { Failure? }

    function PropagateFailure<U>(): Result<U>
      requires Failure?
    {
      Failure(error)
    }

    function Extract(): T
      requires Success?
    {
      value
    }
  }

  /** The results of a list comprehension whose elements may raise: the first failure, or
      every value in order. */
  function Collect<T>(rs: seq<Result<T>>): (r: Result<seq<T>>)
    ensures r.Success? ==> |r.value| == |rs|
  {
    if rs == [] then Success([])
    else if rs[0].Failure? then Failure(rs[0].error)
    else
      var rest := Collect(rs[1..]);
      if rest.Failure? then Failure(rest.error) else Success([rs[0].value] + rest.value)
  }

  /** A successful collection holds each element's value at its position. */
  lemma {:induction false} CollectAt<T>(rs: seq<Result<T>>, k: nat)
    requires k < |rs| && Collect(rs).Success?
    ensures rs[k].Success? && Collect(rs).value[k] == rs[k].value
  {
    if k > 0 {
      CollectAt(rs[1..], k - 1);
      assert rs[k] == rs[1..][k - 1];
    }
  }

  /** A failed collection fails with the error of one of the elements. */
  lemma {:induction false} CollectFails<T>(rs: seq<Result<T>>)
    requires Collect(rs).Failure?
    ensures exists k :: 0 <= k < |rs| && rs[k] == Failure(Collect(rs).error)
  {
    if rs[0].Success? {
      CollectFails(rs[1..]);
      var k :| 0 <= k < |rs[1..]| && rs[1..][k] == Failure(Collect(rs[1..]).error);
      assert rs[k + 1] == rs[1..][k];
    }
  }

  /** When every element succeeds, the collection holds their values in order. */
  lemma {:induction false} CollectAll<T>(rs: seq<Result<T>>, vs: seq<T>)
    requires |rs| == |vs| && forall k :: 0 <= k < |rs| ==> rs[k] == Success(vs[k])
    ensures Collect(rs) == Success(vs)
  {
    if rs != [] {
      CollectAll(rs[1..], vs[1..]);
      assert [vs[0]] + vs[1..] == vs;
    }
  }

  /** A Pass/Fail outcome for operations that only change state. */
  datatype Outcome = Pass | Fail(error: Error) {
    predicate IsFailure() { Fail? }

    function PropagateFailure<U>(): Result<U>
      requires Fail?
    {
      Failure(error)
    }
  }
}
