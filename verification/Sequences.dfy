/** What is said of sequences of numbers in several places. */
module Sequences {
  predicate Distinct(q: seq<nat>) { forall k, l :: 0 <= k < l < |q| ==> q[k] != q[l] }
}
