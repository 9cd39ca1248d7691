/**
 * The draw record every component of the analytics service shares: one
 * weekly lottery result with six main numbers in 1..45 and a bonus number.
 */
module Draws {

  const PoolSize := 45
  const NumbersPerDraw := 6

  /** The internal record built by the record conversion of the draw fetcher. */
  datatype Draw = Draw(
    drawNo: int,
    date: string,
    numbers: seq<int>,
    bonus: int,
    prize1st: int,
    winners1st: int)

  /** Errors the Python code raises as exceptions. */
  datatype Error =
    | DivisionByZero   // ZeroDivisionError
    | EmptySequence    // ValueError from numpy's min/max of an empty array

  datatype Result<T> = Ok(value: T) | Err(error: Error)

  datatype Option<T> = None | Some(value: T) {
    function GetOr(default: T): T {
      match this
      case Some(v) => v
      case None => default
    }
  }

  predicate InPool(n: int) { 1 <= n <= PoolSize }

  ghost predicate Distinct(s: seq<int>) {
    forall i, j :: 0 <= i < j < |s| ==> s[i] != s[j]
  }

  /** A sequence without repeats holds each of its members exactly once. */
  lemma {:induction false} DistinctMultiplicity(s: seq<int>, n: int)
    requires Distinct(s)
    ensures multiset(s)[n] == if n in s then 1 else 0
  {
    if s != [] {
      assert s == [s[0]] + s[1..];
      DistinctMultiplicity(s[1..], n);
    }
  }

  /**
   * What the data source guarantees of each draw: six distinct main numbers in
   * the pool and a seventh, distinct bonus number.
   */
  ghost predicate WellFormed(d: Draw) {
    && |d.numbers| == NumbersPerDraw
    && Distinct(d.numbers)
    && (forall x :: x in d.numbers ==> InPool(x))
    && InPool(d.bonus)
    && d.bonus !in d.numbers
  }

  function DrawNo(d: Draw): int { d.drawNo }

  function NegDrawNo(d: Draw): int { -d.drawNo }
}
