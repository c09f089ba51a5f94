/**
  How query_and_extract_info turns the labels of a FAISS search into positions of the
  metadata dict's key list.  FAISS pads the labels with -1 when the index holds fewer
  than top_k vectors; the guard `idx < len(self.metadata)` does not exclude -1, and
  Python reads list(...)[-1] as the last key.  Admitted is the evidently intended
  resolution (only labels 0 <= idx < len(self.metadata)); AdmittedAsWritten is the
  resolution as the code performs it.
 */
module Resolution {

  import opened Wrappers
  import opened SeqFacts
  import opened VectorIndex

  /** The exceptions a query can raise: list index out of range, and division by zero in
      weighted_score. */
  datatype QueryError = IndexError | ZeroDivisionError

  /** The candidate loop with the guard 0 <= idx < n: the dict positions it looks up, in
      label order. */
  function Admitted(labels: seq<int>, n: nat): (ps: seq<nat>)
    ensures |ps| <= |labels|
    ensures forall i :: 0 <= i < |ps| ==> ps[i] < n
    ensures forall p: nat :: p in ps <==> p < n && p as int in labels
  {
    if labels == [] then []
    else
      assert forall x :: x in labels <==> x == labels[0] || x in labels[1..];
      (if 0 <= labels[0] < n then [labels[0] as nat] else []) + Admitted(labels[1..], n)
  }

  /** list(keys)[idx] for a list of n keys: a negative index counts from the end, and
      anything outside -n .. n - 1 raises IndexError. */
  function PyIndex(n: nat, idx: int): (r: Option<nat>)
    ensures r.Some? <==> -(n as int) <= idx < n
    ensures r.Some? ==> r.value < n
  {
    if 0 <= idx < n then Some(idx as nat)
    else if -(n as int) <= idx < 0 then Some((n as int + idx) as nat)
    else None
  }

  /** The candidate loop as written: every label below n, -1 included, is looked up. */
  function AdmittedAsWritten(labels: seq<int>, n: nat): (r: Result<seq<nat>, QueryError>)
    ensures r.Ok? ==> forall i :: 0 <= i < |r.value| ==> r.value[i] < n
    ensures r.Err? ==> r.error == IndexError
  {
    if labels == [] then Ok([])
    else if labels[0] < n then
      match PyIndex(n, labels[0])
      case None => Err(IndexError)
      case Some(p) =>
        match AdmittedAsWritten(labels[1..], n)
        case Ok(ps) => Ok([p] + ps)
        case Err(e) => Err(e)
    else AdmittedAsWritten(labels[1..], n)
  }

  /** Without padding the two guards agree: on real slots the code does what was meant. */
  lemma {:induction false} AsWrittenAgreesOnSlots(labels: seq<int>, n: nat)
    requires forall i :: 0 <= i < |labels| ==> labels[i] >= 0
    ensures AdmittedAsWritten(labels, n) == Ok(Admitted(labels, n))
  {
    if labels != [] {
      AsWrittenAgreesOnSlots(labels[1..], n);
      var rest := Admitted(labels[1..], n);
      if labels[0] < n {
        assert PyIndex(n, labels[0]) == Some(labels[0] as nat);
        assert Admitted(labels, n) == [labels[0] as nat] + rest;
      } else {
        assert AdmittedAsWritten(labels, n) == AdmittedAsWritten(labels[1..], n);
        assert Admitted(labels, n) == [] + rest;
        assert [] + rest == rest;
      }
    }
  }

  function Padding(j: nat): (pad: seq<int>)
    ensures |pad| == j && forall i :: 0 <= i < j ==> pad[i] == NoLabel
  {
    seq(j, i => NoLabel)
  }

  function Repeat(p: nat, j: nat): (ps: seq<nat>)
    ensures |ps| == j && forall i :: 0 <= i < j ==> ps[i] == p
  {
    seq(j, i => p)
  }

  lemma LabelsSplit(slots: seq<nat>, k: nat)
    requires |slots| <= k
    ensures Labels(slots, k) == slots + Padding(k - |slots|)
  {
  }

  lemma {:induction false} AdmittedAppend(a: seq<int>, b: seq<int>, n: nat)
    ensures Admitted(a + b, n) == Admitted(a, n) + Admitted(b, n)
  {
    if a != [] {
      AdmittedAppend(a[1..], b, n);
      assert (a + b)[1..] == a[1..] + b;
      assert (a + b)[0] == a[0];
      var head: seq<nat> := if 0 <= a[0] < n then [a[0] as nat] else [];
      assert Admitted(a + b, n) == head + (Admitted(a[1..], n) + Admitted(b, n));
      assert Admitted(a, n) == head + Admitted(a[1..], n);
      assert head + (Admitted(a[1..], n) + Admitted(b, n)) == (head + Admitted(a[1..], n)) + Admitted(b, n);
    } else {
      assert a + b == b;
      assert Admitted(a, n) + Admitted(b, n) == Admitted(b, n);
    }
  }

  /** The corrected guard, one label further. */
  lemma AdmittedStep(labels: seq<int>, i: nat, n: nat)
    requires i < |labels|
    ensures Admitted(labels[..i + 1], n) ==
            Admitted(labels[..i], n) + (if 0 <= labels[i] < n then [labels[i] as nat] else [])
  {
    assert labels[..i + 1] == labels[..i] + [labels[i]];
    AdmittedAppend(labels[..i], [labels[i]], n);
    assert Admitted([labels[i]], n) == (if 0 <= labels[i] < n then [labels[i] as nat] else []) + Admitted([], n);
  }

  /** A label the corrected guard admits keeps its place among the admitted ones: it comes
      right after those admitted from the labels before it. */
  lemma AdmittedAt(labels: seq<int>, i: nat, n: nat)
    requires i < |labels| && 0 <= labels[i] < n
    ensures |Admitted(labels[..i], n)| < |Admitted(labels, n)|
    ensures Admitted(labels, n)[|Admitted(labels[..i], n)|] == labels[i] as nat
  {
    var before := Admitted(labels[..i], n);
    AdmittedStep(labels, i, n);
    assert labels == labels[..i + 1] + labels[i + 1..];
    AdmittedAppend(labels[..i + 1], labels[i + 1..], n);
    assert Admitted(labels, n) == (before + [labels[i] as nat]) + Admitted(labels[i + 1..], n);
  }

  lemma {:induction false} AdmittedPadding(j: nat, n: nat)
    ensures Admitted(Padding(j), n) == []
  {
    if j > 0 {
      AdmittedPadding(j - 1, n);
      assert Padding(j)[1..] == Padding(j - 1);
    }
  }

  lemma {:induction false} AdmittedKeepsSlots(slots: seq<nat>, n: nat)
    requires forall i :: 0 <= i < |slots| ==> slots[i] < n
    ensures Admitted(slots, n) == slots
  {
    if slots != [] {
      AdmittedKeepsSlots(slots[1..], n);
    }
  }

  lemma {:induction false} AdmittedDistinct(labels: seq<int>, n: nat)
    requires Distinct(labels)
    ensures Distinct(Admitted(labels, n))
  {
    if labels != [] {
      AdmittedDistinct(labels[1..], n);
      var rest := Admitted(labels[1..], n);
      if 0 <= labels[0] < n {
        assert labels[0] !in labels[1..] by {
          forall j | 0 <= j < |labels[1..]| ensures labels[1..][j] != labels[0] {
            assert labels[1..][j] == labels[j + 1];
          }
        }
        var ps := [labels[0] as nat] + rest;
        assert Admitted(labels, n) == ps;
        forall i, j | 0 <= i < j < |ps| ensures ps[i] != ps[j] {
          if i == 0 {
            assert ps[j] == rest[j - 1] && ps[j] in rest;
          } else {
            assert ps[i] == rest[i - 1] && ps[j] == rest[j - 1];
          }
        }
      } else {
        assert Admitted(labels, n) == [] + rest;
      }
    }
  }

  /** With the corrected guard, the labels of a search resolve to its slots below n, each
      once, and to all of them when every slot has a key. */
  lemma AdmittedOfSearch(slots: seq<nat>, k: nat, n: nat)
    requires |slots| <= k
    requires Distinct(slots)
    ensures Admitted(Labels(slots, k), n) == Admitted(slots, n)
    ensures Distinct(Admitted(Labels(slots, k), n))
    ensures (forall i :: 0 <= i < |slots| ==> slots[i] < n) ==> Admitted(Labels(slots, k), n) == slots
  {
    LabelsSplit(slots, k);
    AdmittedAppend(slots, Padding(k - |slots|), n);
    AdmittedPadding(k - |slots|, n);
    assert Admitted(slots, n) + [] == Admitted(slots, n);
    AdmittedDistinct(slots, n);
    if forall i :: 0 <= i < |slots| ==> slots[i] < n {
      AdmittedKeepsSlots(slots, n);
    }
  }

  lemma {:induction false} AsWrittenPadding(j: nat, n: nat)
    ensures n > 0 ==> AdmittedAsWritten(Padding(j), n) == Ok(Repeat(n - 1, j))
    ensures n == 0 && j > 0 ==> AdmittedAsWritten(Padding(j), n) == Err(IndexError)
  {
    if j > 0 {
      AsWrittenPadding(j - 1, n);
      assert Padding(j)[1..] == Padding(j - 1);
      if n > 0 {
        assert Repeat(n - 1, j) == [n - 1] + Repeat(n - 1, j - 1);
      }
    }
  }

  lemma {:induction false} AsWrittenAppendSlots(slots: seq<nat>, b: seq<int>, n: nat)
    requires forall i :: 0 <= i < |slots| ==> slots[i] < n
    ensures AdmittedAsWritten(b, n).Ok? ==>
              AdmittedAsWritten(slots + b, n) == Ok(slots + AdmittedAsWritten(b, n).value)
    ensures AdmittedAsWritten(b, n).Err? ==> AdmittedAsWritten(slots + b, n).Err?
  {
    if slots != [] {
      AsWrittenAppendSlots(slots[1..], b, n);
      assert (slots + b)[1..] == slots[1..] + b;
      assert (slots + b)[0] == slots[0];
      if AdmittedAsWritten(b, n).Ok? {
        assert [slots[0]] + (slots[1..] + AdmittedAsWritten(b, n).value) == slots + AdmittedAsWritten(b, n).value;
      }
    } else {
      assert slots + b == b;
      if AdmittedAsWritten(b, n).Ok? {
        assert slots + AdmittedAsWritten(b, n).value == AdmittedAsWritten(b, n).value;
      }
    }
  }

  /** The padding bug: whenever the index holds fewer than top_k vectors, every -1 label
      is read as the last key, so the last chunk is answered again once per missing
      neighbour; the corrected guard answers the slots alone. */
  lemma PaddingRepeatsLastKey(slots: seq<nat>, k: nat, n: nat)
    requires |slots| <= k && n > 0
    requires forall i :: 0 <= i < |slots| ==> slots[i] < n
    ensures AdmittedAsWritten(Labels(slots, k), n) == Ok(slots + Repeat(n - 1, k - |slots|))
    ensures Admitted(Labels(slots, k), n) == slots
  {
    LabelsSplit(slots, k);
    AsWrittenPadding(k - |slots|, n);
    AsWrittenAppendSlots(slots, Padding(k - |slots|), n);
    AdmittedAppend(slots, Padding(k - |slots|), n);
    AdmittedPadding(k - |slots|, n);
    AdmittedKeepsSlots(slots, n);
    assert slots + [] == slots;
  }

  /** One stored chunk and the default top_k = 5: the code resolves five copies of it. */
  lemma OneChunkAnsweredFiveTimes()
    ensures AdmittedAsWritten(Labels([0], 5), 1) == Ok([0, 0, 0, 0, 0])
    ensures Admitted(Labels([0], 5), 1) == [0]
  {
    PaddingRepeatsLastKey([0], 5, 1);
    assert [0] + Repeat(0, 4) == [0, 0, 0, 0, 0];
  }

  /** An empty engine: every label is -1, and list(keys)[-1] on no keys raises IndexError,
      where the corrected guard answers nothing. */
  lemma EmptyIndexRaises(k: nat)
    requires k > 0
    ensures AdmittedAsWritten(Labels([], k), 0) == Err(IndexError)
    ensures Admitted(Labels([], k), 0) == []
  {
    LabelsSplit([], k);
    assert Labels([], k) == Padding(k);
    AsWrittenPadding(k, 0);
    AdmittedPadding(k, 0);
  }
}
