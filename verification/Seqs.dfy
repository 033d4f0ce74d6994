/** Sequences without repetitions. */
module Seqs {
  ghost predicate Distinct(l: seq<int>) {
    forall i, j | 0 <= i < j < |l| :: l[i] != l[j]
  }
}
