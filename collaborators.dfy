/**
  The collaborators the retrieval core calls but does not implement: the sentence
  embedder (transformers), the RAKE phrase ranker, the cosine expression on float
  vectors, and the spaCy normaliser.  Each is a function the caller supplies.
 */
module Collaborators {

  /** An embedding: one row of the mean-pooled hidden states. */
  type Vector = seq<real>

  /** A cosine similarity lies in [-1, 1]. */
  type Cosine = r: real | -1.0 <= r <= 1.0 witness 0.0

  datatype Models = Models(
    embed: string -> Vector,             // embed_text
    rankPhrases: string -> seq<string>,  // Rake().get_ranked_phrases(), most salient first
    cosine: (Vector, Vector) -> Cosine,  // dot(u, v) / (norm(u) * norm(v))
    preprocess: string -> string         // preprocess_text
  )

  /** The embedder returns vectors of the index's dimension. */
  ghost predicate Conforms(m: Models, dim: nat)
  {
    forall t :: |m.embed(t)| == dim
  }
}
