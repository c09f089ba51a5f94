/** Facts about sequences without repeats, used to bound how many slots a query can see. */
module SeqFacts {

  function Min(a: int, b: int): int { if a <= b then a else b }

  ghost predicate Distinct<T>(s: seq<T>)
  {
    forall i, j :: 0 <= i < j < |s| ==> s[i] != s[j]
  }

  function Elems<T>(s: seq<T>): set<T>
  {
    set x | x in s
  }

  /** The slots 0 .. n - 1. */
  function Range(n: nat): set<nat>
  {
    if n == 0 then {} else Range(n - 1) + {n - 1}
  }

  lemma {:induction false} RangeFacts(n: nat)
    ensures |Range(n)| == n
    ensures forall p: nat :: p in Range(n) <==> p < n
  {
    if n > 0 {
      RangeFacts(n - 1);
    }
  }

  /** A sequence has at least as many entries as distinct values, and exactly as many
      when it has no repeats. */
  lemma {:induction false} ElemsCard<T>(s: seq<T>)
    ensures |Elems(s)| <= |s|
    ensures Distinct(s) ==> |Elems(s)| == |s|
  {
    if s != [] {
      var init := s[..|s| - 1];
      var last := s[|s| - 1];
      ElemsCard(init);
      assert Elems(s) == Elems(init) + {last};
      if Distinct(s) {
        assert Distinct(init);
        assert last !in Elems(init);
      }
    }
  }

  lemma SubsetCard<T>(a: set<T>, b: set<T>)
    requires a <= b
    ensures |a| <= |b|
  {
    assert b == a + (b - a);
  }

  /** Pigeonhole: a sequence of distinct slots below n has at most n entries. */
  lemma DistinctBelow(s: seq<nat>, n: nat)
    requires Distinct(s)
    requires forall i :: 0 <= i < |s| ==> s[i] < n
    ensures |s| <= n
  {
    ElemsCard(s);
    RangeFacts(n);
    SubsetCard(Elems(s), Range(n));
  }

  /** A sequence that contains every slot below n has at least n entries. */
  lemma CoversBelow(s: seq<nat>, n: nat)
    requires forall p: nat :: p < n ==> p in s
    ensures |s| >= n
  {
    ElemsCard(s);
    RangeFacts(n);
    SubsetCard(Range(n), Elems(s));
  }
}
