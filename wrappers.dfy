/** Option and Result, and the exceptions of the Python program as failure values. */
module Wrappers {

  datatype Option<+T> = None | Some(value: T)

  /** The Python exception classes the modelled code raises (explicitly or through
      an `assert`, an index out of range, a missing dictionary key, a call on None, a
      missing file or a call with too few arguments). */
  datatype Fault =
    | AssertionError
    | IndexError
    | KeyError
    | AttributeError
    | FileNotFoundError
    | TypeError
    | NotImplementedError(what: string)

  datatype Result<+T> = Ok(value: T) | Fail(error: Fault) {
    predicate IsFailure() { Fail? }

    function PropagateFailure<U>(): Result<U>
      requires Fail?
    {
      Fail(error)
    }

    function Extract(): T
      requires Ok?
    {
      value
    }
  }

  /** Two results agree when they both succeed with the same value or both fail
      (whatever the exception). */
  predicate Agrees<T(==)>(a: Result<T>, b: Result<T>) {
    a.Ok? == b.Ok? && (a.Ok? ==> a.value == b.value)
  }

  /** `for x in xs: acc.append(f(x))`, stopping at the first exception. */
  function MapAll<T, U>(xs: seq<T>, f: T --> Result<U>, acc: seq<U>): Result<seq<U>>
    requires forall x :: x in xs ==> f.requires(x)
    decreases |xs|
  {
    if xs == [] then Ok(acc)
    else
      assert xs[0] in xs;
      assert forall x :: x in xs[1..] ==> x in xs;
      var y :- f(xs[0]);
      MapAll(xs[1..], f, acc + [y])
  }

  /** The run succeeds exactly when `f` succeeds on every element, and then it appends
      their values, in order, to those read before. */
  lemma {:induction false} MapAllValues<T, U>(xs: seq<T>, f: T --> Result<U>, acc: seq<U>)
    requires forall x :: x in xs ==> f.requires(x)
    ensures MapAll(xs, f, acc).Ok? <==> forall k :: 0 <= k < |xs| ==> f(xs[k]).Ok?
    ensures MapAll(xs, f, acc).Ok? ==>
      var r := MapAll(xs, f, acc).value;
      && |r| == |acc| + |xs| && r[..|acc|] == acc
      && forall k :: 0 <= k < |xs| ==> f(xs[k]) == Ok(r[|acc| + k])
    decreases |xs|
  {
    if xs != [] {
      assert xs[0] in xs;
      assert forall x :: x in xs[1..] ==> x in xs;
      assert forall k :: 0 < k < |xs| ==> xs[k] == xs[1..][k - 1];
      if f(xs[0]).Ok? {
        var a := f(xs[0]).value;
        MapAllValues(xs[1..], f, acc + [a]);
        if MapAll(xs, f, acc).Ok? {
          var r := MapAll(xs, f, acc).value;
          assert r[..|acc| + 1] == acc + [a];
          assert r[..|acc| + 1][..|acc|] == r[..|acc|];
          assert r[|acc|] == r[..|acc| + 1][|acc|];
          forall k | 0 <= k < |xs|
            ensures f(xs[k]) == Ok(r[|acc| + k])
          {
            if k > 0 {
              assert f(xs[1..][k - 1]) == Ok(r[|acc + [a]| + (k - 1)]);
            }
          }
        } else {
          var k :| 0 <= k < |xs[1..]| && !f(xs[1..][k]).Ok?;
          assert xs[1..][k] == xs[k + 1];
        }
      }
    }
  }
}
