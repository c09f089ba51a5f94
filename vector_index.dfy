/**
  The FAISS IndexFlatL2 of AdvancedDocumentQA: an append-only sequence of vectors,
  searched exhaustively by squared Euclidean distance.  A search for k neighbours
  answers k labels: the slots of the nearest vectors, nearest first, and -1 for each
  answer it could not fill.
 */
module VectorIndex {

  import opened SeqFacts
  import opened Collaborators

  /** The label FAISS writes where fewer than k vectors are stored. */
  const NoLabel: int := -1

  function SqDist(u: Vector, v: Vector): (d: real)
    requires |u| == |v|
    ensures d >= 0.0
  {
    if |u| == 0 then 0.0 else (u[0] - v[0]) * (u[0] - v[0]) + SqDist(u[1..], v[1..])
  }

  /** A vector is at distance zero from itself. */
  lemma {:induction false} SqDistSelf(u: Vector)
    ensures SqDist(u, u) == 0.0
  {
    if |u| > 0 {
      SqDistSelf(u[1..]);
      assert u[0] - u[0] == 0.0;
    }
  }

  lemma {:induction false} SqDistSymmetric(u: Vector, v: Vector)
    requires |u| == |v|
    ensures SqDist(u, v) == SqDist(v, u)
  {
    if |u| > 0 {
      SqDistSymmetric(u[1..], v[1..]);
      assert (u[0] - v[0]) * (u[0] - v[0]) == (v[0] - u[0]) * (v[0] - u[0]);
    }
  }

  ghost predicate SameDimension(vs: seq<Vector>, q: Vector)
  {
    forall i :: 0 <= i < |vs| ==> |vs[i]| == |q|
  }

  /** The distance from the query to every stored vector, by slot. */
  function Distances(vs: seq<Vector>, q: Vector): (ds: seq<real>)
    requires SameDimension(vs, q)
    ensures |ds| == |vs|
    ensures forall i :: 0 <= i < |vs| ==> ds[i] == SqDist(q, vs[i])
  {
    seq(|vs|, i requires 0 <= i < |vs| => SqDist(q, vs[i]))
  }

  /** Slot a is answered before slot b: it is nearer, or as near and stored earlier. */
  predicate Before(ds: seq<real>, a: nat, b: nat)
    requires a < |ds| && b < |ds|
  {
    ds[a] < ds[b] || (ds[a] == ds[b] && a < b)
  }

  /** Slots in strictly increasing (distance, slot) order are all different. */
  lemma OrderedSlotsDistinct(ds: seq<real>, slots: seq<nat>)
    requires forall i :: 0 <= i < |slots| ==> slots[i] < |ds|
    requires forall i, j :: 0 <= i < j < |slots| ==> Before(ds, slots[i], slots[j])
    ensures Distinct(slots)
  {
    forall i, j | 0 <= i < j < |slots| ensures slots[i] != slots[j] {
      assert Before(ds, slots[i], slots[j]);
    }
  }

  /** slots are the answer of an exact k-nearest-neighbour search: min(k, ntotal) slots in
      increasing (distance, slot) order, and no slot left out comes before one taken. */
  ghost predicate Nearest(vs: seq<Vector>, q: Vector, k: nat, slots: seq<nat>)
    requires SameDimension(vs, q)
  {
    && |slots| == Min(k, |vs|)
    && (forall i :: 0 <= i < |slots| ==> slots[i] < |vs|)
    && (forall i, j :: 0 <= i < j < |slots| ==> Before(Distances(vs, q), slots[i], slots[j]))
    && (forall i, p :: 0 <= i < |slots| && 0 <= p < |vs| && p !in slots ==>
          Before(Distances(vs, q), slots[i], p))
  }

  /** The search has one answer only: two answers agree slot by slot. */
  lemma NearestUnique(vs: seq<Vector>, q: Vector, k: nat, s1: seq<nat>, s2: seq<nat>)
    requires SameDimension(vs, q)
    requires Nearest(vs, q, k, s1) && Nearest(vs, q, k, s2)
    ensures s1 == s2
  {
    if |s1| > 0 {
      NearestAgree(vs, q, k, s1, s2, |s1| - 1);
    }
  }

  lemma {:induction false} NearestAgree(vs: seq<Vector>, q: Vector, k: nat, s1: seq<nat>, s2: seq<nat>, j: nat)
    requires SameDimension(vs, q)
    requires Nearest(vs, q, k, s1) && Nearest(vs, q, k, s2)
    requires j < |s1|
    ensures forall t :: 0 <= t <= j ==> s1[t] == s2[t]
    decreases j
  {
    if j > 0 {
      NearestAgree(vs, q, k, s1, s2, j - 1);
    }
    var ds := Distances(vs, q);
    if s1[j] != s2[j] {
      FirstDifferenceOrdered(ds, s1, s2, j);
      FirstDifferenceOrdered(ds, s2, s1, j);
    }
  }

  /** Where two answers first differ, neither takes a slot that comes before the other's. */
  lemma FirstDifferenceOrdered(ds: seq<real>, s: seq<nat>, u: seq<nat>, j: nat)
    requires j < |s| == |u|
    requires forall i :: 0 <= i < |s| ==> s[i] < |ds| && u[i] < |ds|
    requires forall i, l :: 0 <= i < l < |s| ==> Before(ds, s[i], s[l])
    requires forall i, l :: 0 <= i < l < |u| ==> Before(ds, u[i], u[l])
    requires forall i, p :: 0 <= i < |u| && 0 <= p < |ds| && p !in u ==> Before(ds, u[i], p)
    requires forall t :: 0 <= t < j ==> s[t] == u[t]
    requires s[j] != u[j]
    ensures !Before(ds, s[j], u[j])
  {
    var a := s[j];
    if a in u {
      var t :| 0 <= t < |u| && u[t] == a;
      if t <= j {
        assert false;
      }
      assert Before(ds, u[j], u[t]);
    } else {
      assert Before(ds, u[j], a);
    }
  }

  /** The k nearest slots, nearest first: a linear scan repeated k times, each round taking
      the best slot not yet taken. */
  method Search(vs: seq<Vector>, q: Vector, k: nat) returns (slots: seq<nat>)
    requires SameDimension(vs, q)
    ensures Nearest(vs, q, k, slots)
  {
    var ds := Distances(vs, q);
    slots := [];
    while |slots| < k && |slots| < |vs|
      invariant |slots| <= k && |slots| <= |vs|
      invariant forall i :: 0 <= i < |slots| ==> slots[i] < |vs|
      invariant forall i, j :: 0 <= i < j < |slots| ==> Before(ds, slots[i], slots[j])
      invariant forall i, p :: 0 <= i < |slots| && 0 <= p < |vs| && p !in slots ==> Before(ds, slots[i], p)
      decreases |vs| - |slots|
    {
      var found := false;
      var best: nat := 0;
      var p := 0;
      while p < |vs|
        invariant p <= |vs|
        invariant found ==> best < p && best !in slots
        invariant found ==> forall r :: 0 <= r < p && r !in slots ==> r == best || Before(ds, best, r)
        invariant !found ==> forall r :: 0 <= r < p ==> r in slots
      {
        if p !in slots && (!found || Before(ds, p, best)) {
          best, found := p, true;
        }
        p := p + 1;
      }
      if !found {
        assert forall i, j :: 0 <= i < j < |slots| ==> slots[i] != slots[j];
        DistinctBelow(slots, |vs|);
        CoversBelow(slots, |vs|);
        break;
      }
      slots := slots + [best];
    }
    if |slots| < k && |slots| < |vs| {
      // only the break leaves the loop early, after finding every slot taken
      assert false;
    }
  }

  /** The labels FAISS answers for k neighbours: the slots found, then -1 for each
      answer it could not fill. */
  function Labels(slots: seq<nat>, k: nat): (labels: seq<int>)
    requires |slots| <= k
    ensures |labels| == k
    ensures forall i :: 0 <= i < |slots| ==> labels[i] == slots[i]
    ensures forall i :: |slots| <= i < k ==> labels[i] == NoLabel
  {
    seq(k, i requires 0 <= i < k => if i < |slots| then slots[i] as int else NoLabel)
  }
}
