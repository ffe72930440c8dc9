/** Sequences and integers. */
module Basics {

  function Min(a: int, b: int): int { if a <= b then a else b }

  function Max(a: int, b: int): int { if a >= b then a else b }

  const MAX_INT: int := 0x7FFF_FFFF

  /** An int of 32 bits after wrap-around. */
  function ToInt(n: int): (r: int)
    ensures -MAX_INT - 1 <= r <= MAX_INT
  {
    (n + 0x8000_0000) % 0x1_0000_0000 - 0x8000_0000
  }

  lemma Assoc<T>(a: seq<T>, b: seq<T>, c: seq<T>)
    ensures a + (b + c) == a + b + c
  {
  }
}
