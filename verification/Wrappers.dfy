/** The optional value that stands for Ruby's nil and Python's None. */
module Wrappers {
  datatype Option<+T> = None | Some(value: T)
}

/** The smaller and the larger of two numbers. */
module Arithmetic {
  function Min(a: int, b: int): int { if a < b then a else b }

  function Max(a: int, b: int): int { if a < b then b else a }
}

module Sequences {
  lemma ConcatAssociative<T>(x: seq<T>, y: seq<T>, z: seq<T>)
    ensures x + (y + z) == (x + y) + z
  {
  }
}
