/** Failure-compatible result types shared by every module of the model.
    `Option` stands for Kotlin's nullable types, `Result` for `kotlin.Result`,
    whose failure side carries the exception message. */
module Wrappers {

  datatype Option<+T> = None | Some(value: T) {

    /** The value when present, otherwise the default (Kotlin's elvis operator). */
    function GetOr(default: T): T {
      match this
      case Some(v) => v
      case None => default
    }
  }

  datatype Result<+T> = Success(value: T) | Failure(message: string) {

    predicate IsFailure() {
      Failure?
    }

    function PropagateFailure<U>(): Result<U>
      requires Failure?
    {
      Failure(message)
    }

    function Extract(): T
      requires Success?
    {
      value
    }
  }

  /** Kotlin's `mapNotNull` after the mapping: the present values, in order. */
  function Somes<T>(xs: seq<Option<T>>): (ys: seq<T>)
    ensures |ys| <= |xs|
    decreases |xs|
  {
    if |xs| == 0 then [] else (if xs[0].Some? then [xs[0].value] else []) + Somes(xs[1..])
  }

  /** Removing the absent values commutes with putting one more value in front. */
  lemma SomesCons<T>(x: Option<T>, xs: seq<Option<T>>)
    ensures Somes([x] + xs) == (if x.Some? then [x.value] else []) + Somes(xs)
  {
    assert ([x] + xs)[1..] == xs;
  }

  /** Each element kept or dropped on its own: present when `keep` accepts it. */
  function Marked<T>(xs: seq<T>, keep: T -> bool): (ms: seq<Option<T>>)
    ensures |ms| == |xs|
    ensures forall i :: 0 <= i < |xs| ==> ms[i] == if keep(xs[i]) then Some(xs[i]) else None
  {
    seq(|xs|, i requires 0 <= i < |xs| => if keep(xs[i]) then Some(xs[i]) else None)
  }

  /** With no value absent, nothing is left out. */
  lemma {:induction false} AllSomes<T>(xs: seq<Option<T>>)
    requires forall i :: 0 <= i < |xs| ==> xs[i].Some?
    ensures |Somes(xs)| == |xs|
    decreases |xs|
  {
    if |xs| > 0 {
      AllSomes(xs[1..]);
    }
  }
}
