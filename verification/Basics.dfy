/** Shared vocabulary: optional values, identities and generations. */
module Basics {
  datatype Option<+T> = None | Some(value: T) {
    predicate IsFailure() { None? }

    function PropagateFailure<U>(): Option<U>
      requires None?
    {
      None
    }

    function Extract(): T
      requires Some?
    {
      value
    }
  }

  datatype List<T> = Nil | Cons(head: T, tail: List<T>)

  function Append<T>(a: List<T>, b: List<T>): List<T> {
    match a
    case Nil => b
    case Cons(x, rest) => Cons(x, Append(rest, b))
  }

  /** Identities and generations are tagged 64-bit integers in the program; 0 means invalid / null. */
  type Id = nat
  type Gen = nat

  type byte = bv8

  /** Watts or joules that every admission test on floating point numbers lets over. */
  const TOLERANCE := 0.000000001

  function Max(a: int, b: int): int { if a < b then b else a }
  function Min(a: int, b: int): int { if a < b then a else b }

  /** `clamped`: accumulator results never go below zero. */
  function Clamp(v: int): (r: nat)
    ensures r == Max(0, v)
  {
    if v < 0 then 0 else v
  }

  /** `elapsed_since`: a clock that went backwards counts as no time at all. */
  function Elapsed(now: int, since: int): (d: nat)
    ensures d == Max(0, now - since)
  {
    if now > since then now - since else 0
  }
}
