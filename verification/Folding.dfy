/** A way to name a fact without having the verifier look inside it. A predicate of the form
    `forall x :: Peek(x) && x == s ==> P(x)` says P(s), but is unfolded only where Peek(s) is mentioned. */
module Folding {
  predicate Peek<T>(x: T) {
    true
  }
}
