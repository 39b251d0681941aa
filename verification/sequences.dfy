/** Two facts about sequence concatenation that the drop-last recursions of the model use. */
module Sequences {

  /** Concatenation regroups. */
  lemma Regroup<T>(x: seq<T>, y: seq<T>, z: seq<T>)
    ensures x + (y + z) == (x + y) + z
  {
  }

  /** Dropping the last element of `a + b`, for a non-empty `b`, drops it from `b`. */
  lemma DropLastAppend<T>(a: seq<T>, b: seq<T>)
    requires |b| > 0
    ensures (a + b)[..|a + b| - 1] == a + b[..|b| - 1]
    ensures (a + b)[|a + b| - 1] == b[|b| - 1]
  {
  }
}
