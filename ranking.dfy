/**
  The last step of query_and_extract_info: the scored hits sorted by score, highest
  first, and cut to top_k.  Python's sort is stable, so hits with equal scores keep the
  order in which they were scored; Ranked inserts each hit after every earlier hit that
  scores at least as much, which is that order.
 */
module Ranking {

  import opened SeqFacts

  /** One result: {"text": chunk, "source": path, "score": score}. */
  datatype Hit = Hit(text: string, source: string, score: real)

  ghost predicate SortedByScore(hs: seq<Hit>)
  {
    forall i, j :: 0 <= i < j < |hs| ==> hs[i].score >= hs[j].score
  }

  /** Places h after every hit of hs that scores at least as much. */
  function InsertByScore(hs: seq<Hit>, h: Hit): (r: seq<Hit>)
    ensures multiset(r) == multiset(hs) + multiset{h}
    ensures |r| == |hs| + 1
  {
    if hs == [] || hs[0].score < h.score then [h] + hs
    else
      assert hs == [hs[0]] + hs[1..];
      [hs[0]] + InsertByScore(hs[1..], h)
  }

  lemma {:induction false} InsertByScoreSorted(hs: seq<Hit>, h: Hit)
    requires SortedByScore(hs)
    ensures SortedByScore(InsertByScore(hs, h))
  {
    if hs == [] || hs[0].score < h.score {
      ConsSorted(h, hs);
    } else {
      InsertByScoreSorted(hs[1..], h);
      var rest := InsertByScore(hs[1..], h);
      forall x | x in rest ensures hs[0].score >= x.score {
        assert x in multiset(rest);
        if x != h {
          assert x in multiset(hs[1..]);
          var t :| 0 <= t < |hs[1..]| && hs[1..][t] == x;
          assert x == hs[t + 1];
        }
      }
      ConsSorted(hs[0], rest);
    }
  }

  /** A hit that scores at least as much as every hit of a sorted sequence can go first. */
  lemma ConsSorted(h: Hit, hs: seq<Hit>)
    requires SortedByScore(hs)
    requires forall x :: x in hs ==> h.score >= x.score
    ensures SortedByScore([h] + hs)
  {
    var r := [h] + hs;
    forall i, j | 0 <= i < j < |r| ensures r[i].score >= r[j].score {
      assert r[j] == hs[j - 1] && r[j] in hs;
      if i > 0 {
        assert r[i] == hs[i - 1];
      }
    }
  }

  /** sorted(hs, key=score, reverse=True), stable: each hit in turn inserted after the
      earlier hits that score at least as much. */
  function Ranked(hs: seq<Hit>): (r: seq<Hit>)
    ensures multiset(r) == multiset(hs)
    ensures |r| == |hs|
  {
    if hs == [] then []
    else
      assert hs == hs[..|hs| - 1] + [hs[|hs| - 1]];
      InsertByScore(Ranked(hs[..|hs| - 1]), hs[|hs| - 1])
  }

  /** The ranking is in descending order of score. */
  lemma {:induction false} RankedSorted(hs: seq<Hit>)
    ensures SortedByScore(Ranked(hs))
  {
    if hs != [] {
      RankedSorted(hs[..|hs| - 1]);
      InsertByScoreSorted(Ranked(hs[..|hs| - 1]), hs[|hs| - 1]);
    }
  }

  /** sorted(...)[:top_k]: the best k hits, best first.  Nothing is made up (the kept hits
      are among the scored ones), as many are kept as k and the hits allow, no dropped
      hit scores higher than a kept one, and when k covers them all every hit is kept. */
  function TopByScore(hs: seq<Hit>, k: nat): (top: seq<Hit>)
    ensures |top| == Min(k, |hs|)
    ensures SortedByScore(top)
    ensures multiset(top) <= multiset(hs)
    ensures forall g, d :: g in top && d in multiset(hs) - multiset(top) ==> g.score >= d.score
    ensures k >= |hs| ==> multiset(top) == multiset(hs)
  {
    var ranked := Ranked(hs);
    var top := ranked[..Min(k, |hs|)];
    assert k >= |hs| ==> top == ranked;
    RankedSorted(hs);
    TopKeepsBest(ranked, Min(k, |hs|));
    top
  }

  lemma TopKeepsBest(ranked: seq<Hit>, n: nat)
    requires n <= |ranked|
    ensures SortedByScore(ranked) ==> SortedByScore(ranked[..n])
    ensures multiset(ranked[..n]) <= multiset(ranked)
    ensures SortedByScore(ranked) ==> forall g, d :: g in ranked[..n] && d in multiset(ranked) - multiset(ranked[..n]) ==> g.score >= d.score
  {
    var top, rest := ranked[..n], ranked[n..];
    assert ranked == top + rest;
    assert multiset(ranked) == multiset(top) + multiset(rest);
    if SortedByScore(ranked) {
      PrefixSorted(ranked, n);
      assert multiset(ranked) - multiset(top) == multiset(rest);
      KeptBeatDropped(ranked, n);
    }
  }

  lemma PrefixSorted(ranked: seq<Hit>, n: nat)
    requires n <= |ranked| && SortedByScore(ranked)
    ensures SortedByScore(ranked[..n])
  {
    var top := ranked[..n];
    forall i, j | 0 <= i < j < |top| ensures top[i].score >= top[j].score {
      assert top[i] == ranked[i] && top[j] == ranked[j];
    }
  }

  lemma KeptBeatDropped(ranked: seq<Hit>, n: nat)
    requires n <= |ranked| && SortedByScore(ranked)
    ensures forall g: Hit, d: Hit :: g in ranked[..n] && d in multiset(ranked[n..]) ==> g.score >= d.score
  {
    var top, rest := ranked[..n], ranked[n..];
    forall g: Hit, d: Hit | g in top && d in multiset(rest)
      ensures g.score >= d.score
    {
      assert d in rest;
      var i :| 0 <= i < |top| && top[i] == g;
      var j :| 0 <= j < |rest| && rest[j] == d;
      assert ranked[i] == g && ranked[n + j] == d;
    }
  }
}
