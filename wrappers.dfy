/** Option and Result, the failure-compatible wrappers used for Java's nulls and exceptions. */
module Wrappers {

  datatype Option<+T> = None | Some(value: T)

  datatype Result<+T, +E> = Ok(value: T) | Err(error: E) {

    predicate IsFailure() {
      Err?
    }

    function PropagateFailure<U>(): Result<U, E>
      requires Err?
    {
      Err(error)
    }

    function Extract(): T
      requires Ok?
    {
      value
    }
  }

  /** f on each element in order, stopping at the first failure: a loop whose body may throw. */
  function MapUntilError<T, U, E>(xs: seq<T>, f: T -> Result<U, E>): Result<seq<U>, E> {
    if xs == [] then Ok([])
    else
      match MapUntilError(xs[..|xs| - 1], f)
      case Err(e) => Err(e)
      case Ok(ys) =>
        match f(xs[|xs| - 1])
        case Err(e) => Err(e)
        case Ok(y) => Ok(ys + [y])
  }

  /** The loop completes exactly when every element succeeds, and then yields their results in order. */
  lemma {:induction false} MapUntilErrorSucceeds<T, U, E>(xs: seq<T>, f: T -> Result<U, E>)
    ensures MapUntilError(xs, f).Ok? <==> forall k | 0 <= k < |xs| :: f(xs[k]).Ok?
    ensures MapUntilError(xs, f).Ok? ==>
      && |MapUntilError(xs, f).value| == |xs|
      && forall k | 0 <= k < |xs| :: f(xs[k]) == Ok(MapUntilError(xs, f).value[k])
  {
    if xs != [] {
      var init := xs[..|xs| - 1];
      MapUntilErrorSucceeds(init, f);
      assert forall k | 0 <= k < |init| :: init[k] == xs[k];
      if MapUntilError(init, f).Err? {
        var k :| 0 <= k < |init| && f(init[k]).Err?;
        assert f(xs[k]).Err?;
      }
    }
  }

  /** The first element that fails decides the error. */
  lemma {:induction false} MapUntilErrorFirstError<T, U, E>(xs: seq<T>, f: T -> Result<U, E>, k: nat)
    requires k < |xs| && f(xs[k]).Err?
    requires forall j | 0 <= j < k :: f(xs[j]).Ok?
    ensures MapUntilError(xs, f) == Err(f(xs[k]).error)
  {
    var init := xs[..|xs| - 1];
    assert forall j | 0 <= j < |init| :: init[j] == xs[j];
    if k < |xs| - 1 {
      MapUntilErrorFirstError(init, f, k);
    } else {
      MapUntilErrorSucceeds(init, f);
    }
  }

  /** One more element that succeeds extends the results by its own. */
  lemma MapUntilErrorStep<T, U, E>(xs: seq<T>, f: T -> Result<U, E>, k: nat)
    requires k < |xs| && MapUntilError(xs[..k], f).Ok? && f(xs[k]).Ok?
    ensures MapUntilError(xs[..k + 1], f) == Ok(MapUntilError(xs[..k], f).value + [f(xs[k]).value])
  {
    assert xs[..k + 1][..k] == xs[..k];
  }

  /** When the loop has come through the first k elements, the k-th failing decides the error. */
  lemma MapUntilErrorStopsAt<T, U, E>(xs: seq<T>, f: T -> Result<U, E>, k: nat)
    requires k < |xs| && MapUntilError(xs[..k], f).Ok? && f(xs[k]).Err?
    ensures MapUntilError(xs, f) == Err(f(xs[k]).error)
  {
    MapUntilErrorSucceeds(xs[..k], f);
    assert forall j | 0 <= j < k :: xs[..k][j] == xs[j];
    MapUntilErrorFirstError(xs, f, k);
  }
}
