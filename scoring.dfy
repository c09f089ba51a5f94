/**
  weighted_score: the hybrid score of a chunk for a question, 0.7 times the cosine of
  their embeddings plus 0.3 times the Jaccard overlap of their keyword sets.
 */
module Scoring {

  import opened SeqFacts
  import opened Collaborators

  const DefaultTopN: nat := 5
  const SemanticWeight: real := 0.7
  const KeywordWeight: real := 0.3

  /** extract_keywords: the first topN of the ranked phrases. */
  function ExtractKeywords(text: string, topN: nat, m: Models): (phrases: seq<string>)
    ensures |phrases| <= topN
    ensures |phrases| == Min(topN, |m.rankPhrases(text)|)
    ensures phrases <= m.rankPhrases(text)
  {
    var ranked := m.rankPhrases(text);
    ranked[..Min(topN, |ranked|)]
  }

  /** set(self.extract_keywords(text)): at most five distinct phrases, all ranked ones. */
  function KeywordSet(text: string, m: Models): (ks: set<string>)
    ensures |ks| <= DefaultTopN
    ensures forall k :: k in ks ==> k in m.rankPhrases(text)
  {
    var phrases := ExtractKeywords(text, DefaultTopN, m);
    ElemsCard(phrases);
    Elems(phrases)
  }

  /** |a & b| / |a | b|; Python divides by zero when both sets are empty. */
  function Jaccard(a: set<string>, b: set<string>): (r: real)
    requires a + b != {}
    ensures 0.0 <= r <= 1.0
  {
    var shared, all := |a * b|, |a + b|;
    SubsetCard(a * b, a + b);
    assert all > 0 by {
      var x :| x in a + b;
    }
    Fraction(shared, all)
  }

  /** shared / all for 0 <= shared <= all, all > 0. */
  function Fraction(shared: nat, all: nat): (r: real)
    requires shared <= all && all > 0
    ensures 0.0 <= r <= 1.0
    ensures r == 0.0 <==> shared == 0
    ensures r == 1.0 <==> shared == all
  {
    (shared as real) / (all as real)
  }

  lemma JaccardSymmetric(a: set<string>, b: set<string>)
    requires a + b != {}
    ensures Jaccard(a, b) == Jaccard(b, a)
  {
    assert a * b == b * a && a + b == b + a;
  }

  /** The overlap is 1 exactly when the two keyword sets are the same. */
  lemma JaccardOneIffEqual(a: set<string>, b: set<string>)
    requires a + b != {}
    ensures Jaccard(a, b) == 1.0 <==> a == b
  {
    var i, u := a * b, a + b;
    if Jaccard(a, b) == 1.0 {
      assert |i| == |u|;
      assert u == i + (u - i);
      assert u - i == {};
      forall x | x in u ensures x in i {
        assert x !in u - i;
      }
      assert a == b;
    }
    if a == b {
      assert i == u;
    }
  }

  /** The overlap is 0 exactly when the two keyword sets share nothing. */
  lemma JaccardZeroIffDisjoint(a: set<string>, b: set<string>)
    requires a + b != {}
    ensures Jaccard(a, b) == 0.0 <==> a * b == {}
  {
    if Jaccard(a, b) == 0.0 {
      assert |a * b| == 0;
    }
  }

  /** The question and the chunk have a keyword between them, so the overlap is defined. */
  predicate Scorable(question: string, text: string, m: Models)
  {
    KeywordSet(question, m) + KeywordSet(text, m) != {}
  }

  function KeywordOverlap(question: string, text: string, m: Models): (r: real)
    requires Scorable(question, text, m)
    ensures 0.0 <= r <= 1.0
  {
    Jaccard(KeywordSet(question, m), KeywordSet(text, m))
  }

  function SemanticSimilarity(question: string, text: string, m: Models): Cosine
  {
    m.cosine(m.embed(question), m.embed(text))
  }

  /** weighted_score: with the cosine in [-1, 1] and the overlap in [0, 1], the score lies
      in [-0.7, 1.0]. */
  function WeightedScore(question: string, text: string, m: Models): (score: real)
    requires Scorable(question, text, m)
    ensures -0.7 <= score <= 1.0
  {
    SemanticWeight * SemanticSimilarity(question, text, m) + KeywordWeight * KeywordOverlap(question, text, m)
  }

  /** With no keyword in common the score is the semantic term alone: 0.7 * cosine. */
  lemma ScoreWithoutSharedKeywords(question: string, text: string, m: Models)
    requires Scorable(question, text, m)
    requires KeywordSet(question, m) * KeywordSet(text, m) == {}
    ensures WeightedScore(question, text, m) == 0.7 * SemanticSimilarity(question, text, m)
  {
    JaccardZeroIffDisjoint(KeywordSet(question, m), KeywordSet(text, m));
  }

  /** With the same keywords on both sides the keyword term adds its full weight 0.3. */
  lemma ScoreWithSameKeywords(question: string, text: string, m: Models)
    requires Scorable(question, text, m)
    requires KeywordSet(question, m) == KeywordSet(text, m)
    ensures WeightedScore(question, text, m) == 0.7 * SemanticSimilarity(question, text, m) + 0.3
  {
    JaccardOneIffEqual(KeywordSet(question, m), KeywordSet(text, m));
  }

  /** Keyword overlap and therefore the score do not depend on the order of question and text
      in the keyword term. */
  lemma OverlapSymmetric(question: string, text: string, m: Models)
    requires Scorable(question, text, m)
    ensures Scorable(text, question, m)
    ensures KeywordOverlap(question, text, m) == KeywordOverlap(text, question, m)
  {
    JaccardSymmetric(KeywordSet(question, m), KeywordSet(text, m));
  }
}
