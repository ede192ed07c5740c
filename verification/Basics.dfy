/** What every part of the model shares: optional values, days and ids.

    A local calendar day is an unbounded integer (the proleptic Gregorian ordinal:
    day 1 is a Monday), an instant is an integer, and an external id is a number:
    only the equality and the order of ids are ever read. */
module Basics {

  datatype Option<+T> = None | Some(value: T)

  type Day = int
  type Instant = int
  type GarageId = int
  type PassId = int

  function Max(a: int, b: int): int {
    if a < b then b else a
  }

  function Min(a: int, b: int): int {
    if a < b then a else b
  }

  /** No element twice. */
  ghost predicate Distinct<T(!new)>(s: seq<T>) {
    forall i, j :: 0 <= i < j < |s| ==> s[i] != s[j]
  }
}
