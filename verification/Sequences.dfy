/** What the verifier does not see of sequences unaided. */
module Sequences {
  lemma ConcatAssoc<T>(s: seq<T>, t: seq<T>, u: seq<T>)
    ensures (s + t) + u == s + (t + u)
  {
  }
}
