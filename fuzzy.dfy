/**
 * The similarity test `is_similar`. The score is rapidfuzz's `partial_ratio`,
 * a library routine returning a float in [0, 100]; the model keeps it, and
 * Python's `str.lower()`, as functions supplied by the caller, about which
 * nothing is assumed here; a lemma that needs more of them says so in its
 * `requires`.
 */
module Fuzzy {

  /** The default similarity threshold of `is_similar` and `analyze_article_fuzzy`. */
  const DefaultThreshold: int := 85

  /** The two library routines the matcher relies on. */
  datatype Matcher = Matcher(lower: string -> string, score: (string, string) -> real)

  /** `is_similar`: both texts are lower-cased, then their score must reach the threshold. */
  predicate IsSimilar(m: Matcher, text1: string, text2: string, threshold: int := DefaultThreshold) {
    m.score(m.lower(text1), m.lower(text2)) >= threshold as real
  }

  /** A pair that is similar at some threshold is similar at every lower one. */
  lemma SimilarAtLowerThreshold(m: Matcher, text1: string, text2: string, threshold: int, lower: int)
    requires lower <= threshold
    requires IsSimilar(m, text1, text2, threshold)
    ensures IsSimilar(m, text1, text2, lower)
  {
  }
}
