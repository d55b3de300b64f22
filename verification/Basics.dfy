/** Notions shared by several components. */
module Basics {

  datatype Option<T> = None | Some(value: T)

  type byte = x: int | 0 <= x < 256

  ghost predicate Ascending(s: seq<int>) {
    forall i, j | 0 <= i < j < |s| :: s[i] < s[j]
  }
}

/** Limits every block keeps. */
module Consensus {
  const MAX_BLOCK_WEIGHT := 4_000_000
  const MAX_BLOCK_SIGOPS_COST := 80_000
  const WITNESS_SCALE_FACTOR := 4
  const MIN_TRANSACTION_WEIGHT := WITNESS_SCALE_FACTOR * 60
  const MIN_SERIALIZABLE_TRANSACTION_WEIGHT := WITNESS_SCALE_FACTOR * 10
}
