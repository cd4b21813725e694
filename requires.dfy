/**
 * The precondition helpers of `Requires.java`: four static checks that either
 * return normally or throw. A thrown exception is a `Fail`/`Err` value here.
 */
module Requires {
  import opened Wrappers

  /** The exceptions the core throws. */
  datatype Failure = IllegalArgument | NoSuchElement | NullPointer

  /** `requireTrue(x)`: returns iff `x` holds, throws IllegalArgumentException otherwise. */
  function RequireTrue(x: bool): (r: Outcome<Failure>)
    ensures r.Pass? <==> x
    ensures r.Fail? ==> r.error == IllegalArgument
  {
    if !x then Fail(IllegalArgument) else Pass
  }

  /**
   * `requireSame(expected, actual)`: returns iff both are the identical
   * reference (`null` is identical to `null`), throws IllegalArgumentException otherwise.
   */
  function RequireSame(expected: object?, actual: object?): (r: Outcome<Failure>)
    ensures r.Pass? <==> expected == actual
    ensures r.Fail? ==> r.error == IllegalArgument
  {
    if expected != actual then Fail(IllegalArgument) else Pass
  }

  /**
   * `requireNotSame(expected, actual)`: throws IllegalArgumentException iff both
   * are the identical reference (so `null, null` throws), returns otherwise.
   */
  function RequireNotSame(expected: object?, actual: object?): (r: Outcome<Failure>)
    ensures r.Fail? <==> expected == actual
    ensures r.Fail? ==> r.error == IllegalArgument
  {
    if expected == actual then Fail(IllegalArgument) else Pass
  }

  /**
   * `requireFound(x)`: returns `x` itself when it is present, throws
   * NoSuchElementException when it is `null`.
   */
  function RequireFound<T>(x: Option<T>): (r: Result<T, Failure>)
    ensures r.Ok? <==> x.Some?
    ensures r.Ok? ==> r.value == x.value
    ensures r.Err? ==> r.error == NoSuchElement
  {
    if x.None? then Err(NoSuchElement) else Ok(x.value)
  }

  /** The two `null` cases of `requireSame` and `requireNotSame`. */
  lemma NullCases(o: object)
    ensures RequireSame(null, null).Pass?
    ensures RequireSame(o, null).Fail? && RequireSame(null, o).Fail?
    ensures RequireNotSame(null, null).Fail?
    ensures RequireNotSame(o, null).Pass? && RequireNotSame(null, o).Pass?
  {
  }

  /** `requireSame` and `requireNotSame` are exact complements on every pair of references. */
  lemma SameNotSameComplement(a: object?, b: object?)
    ensures RequireSame(a, b).Pass? <==> RequireNotSame(a, b).Fail?
  {
  }
}
