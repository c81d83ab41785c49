/** Facts about sequences that several components need. */
module Sequences {

  /** `sub` occurs in `text` at position `i`. */
  predicate OccursAt<T(==)>(text: seq<T>, sub: seq<T>, i: int) {
    0 <= i <= |text| - |sub| && text[i..i + |sub|] == sub
  }

  lemma {:induction false} Regroup<T>(a: seq<T>, b: seq<T>, c: seq<T>)
    ensures a + (b + c) == a + b + c
  {}
}
