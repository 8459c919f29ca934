/** What the other modules share: sequences and numbers, and the mark of sealed predicates. */
module Sequences {
  lemma Associative<T>(a: seq<T>, b: seq<T>, c: seq<T>)
    ensures (a + b) + c == a + (b + c)
  {
  }

  function Min(a: nat, b: nat): nat {
    if a < b then a else b
  }

  /** A sealed predicate is `forall k :: Mark(x, k) ==> P(x)`, which means `P(x)`; the verifier
      looks inside only where `Mark(x, 0)` is mentioned. */
  ghost predicate Mark<T>(x: T, k: nat) {
    k >= 0
  }
}
