/** Failure-carrying result types used in place of Python exceptions. */
module Wrappers {

  datatype Option<+T> = None | Some(value: T)

  /** The outcome of an operation that either yields a value or raises an error. */
  datatype Result<+T, +E> = Success(value: T) | Failure(error: E) {

    predicate IsFailure() {
      Failure?
    }

    function PropagateFailure<U>(): Result<U, E>
      requires Failure?
    {
      Failure(error)
    }

    function Extract(): T
      requires Success?
    {
      value
    }
  }

  /** `f` applied to each element in order, or the error of the first element it fails on. */
  function MapResult<A, B, E>(xs: seq<A>, f: A -> Result<B, E>): Result<seq<B>, E> {
    if xs == [] then Success([])
    else
      var ys :- MapResult(xs[..|xs| - 1], f);
      var y :- f(xs[|xs| - 1]);
      Success(ys + [y])
  }

  /** The traversal succeeds exactly when `f` succeeds on every element, and then gives their results in order. */
  lemma {:induction false} MapResultSuccess<A, B, E>(xs: seq<A>, f: A -> Result<B, E>)
    ensures MapResult(xs, f).Success? <==> forall i :: 0 <= i < |xs| ==> f(xs[i]).Success?
    ensures MapResult(xs, f).Success? ==> (|MapResult(xs, f).value| == |xs| &&
      forall i :: 0 <= i < |xs| ==> f(xs[i]) == Success(MapResult(xs, f).value[i]))
  {
    if xs != [] {
      var n := |xs| - 1;
      var init := xs[..n];
      MapResultSuccess(init, f);
      assert forall i :: 0 <= i < n ==> init[i] == xs[i];
      if MapResult(init, f).Success? && f(xs[n]).Success? {
        assert MapResult(xs, f).value == MapResult(init, f).value + [f(xs[n]).value];
      } else if MapResult(init, f).Failure? {
        var i :| 0 <= i < n && f(init[i]).Failure?;
      }
    }
  }

  /** One more element: its result is appended, or its error is the outcome. */
  lemma MapResultSnoc<A, B, E>(xs: seq<A>, n: nat, f: A -> Result<B, E>)
    requires n < |xs| && MapResult(xs[..n], f).Success?
    ensures f(xs[n]).Success? ==> MapResult(xs[..n + 1], f) == Success(MapResult(xs[..n], f).value + [f(xs[n]).value])
    ensures f(xs[n]).Failure? ==> MapResult(xs[..n + 1], f) == Failure(f(xs[n]).error)
  {
    assert xs[..n + 1][..n] == xs[..n];
  }

  /** Once a prefix fails, the whole traversal has that prefix's error. */
  lemma {:induction false} MapResultFailurePersists<A, B, E>(xs: seq<A>, n: nat, f: A -> Result<B, E>)
    requires n <= |xs| && MapResult(xs[..n], f).Failure?
    ensures MapResult(xs, f) == MapResult(xs[..n], f)
    decreases |xs| - n
  {
    if n < |xs| {
      assert xs[..n + 1][..n] == xs[..n];
      MapResultFailurePersists(xs, n + 1, f);
    } else {
      assert xs[..n] == xs;
    }
  }

  /** The error reported is the one of the first element `f` fails on. */
  lemma MapResultFirstFailure<A, B, E>(xs: seq<A>, i: nat, f: A -> Result<B, E>)
    requires i < |xs| && f(xs[i]).Failure?
    requires forall j :: 0 <= j < i ==> f(xs[j]).Success?
    ensures MapResult(xs, f) == Failure(f(xs[i]).error)
  {
    var prefix := xs[..i];
    assert forall j :: 0 <= j < i ==> prefix[j] == xs[j];
    MapResultSuccess(prefix, f);
    MapResultSnoc(xs, i, f);
    MapResultFailurePersists(xs, i + 1, f);
  }
}
