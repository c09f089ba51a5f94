/**
  The two stores process_document fills side by side: the vector index, which only
  appends, and the metadata dict, keyed by f"{file_path}_{i}", whose keys keep the
  order of their first assignment.  A query resolves index slot p to the p-th key of
  the dict, so the two must stay aligned.
 */
module MetadataStore {

  import opened SeqFacts
  import opened Collaborators
  import opened VectorIds

  /** The value stored under a key: {"text": chunk, "source": file_path}. */
  datatype Entry = Entry(text: string, source: string)

  /** One pass of process_document's loop: chunk `index` of the document at `source`. */
  datatype Insert = Insert(source: string, index: nat, text: string)
  {
    function Key(): string { VectorId(source, index) }
    function Value(): Entry { Entry(text, source) }
  }

  /** The engine's state: the indexed vectors by slot, the dict's keys in order and its
      contents, and the loop passes that produced them, one per slot. */
  datatype Store = Store(
    vectors: seq<Vector>,
    keys: seq<string>,
    metadata: map<string, Entry>,
    history: seq<Insert>
  )

  const EmptyStore: Store := Store([], [], map[], [])

  /** The keys written, in the order they were written. */
  function KeysWritten(h: seq<Insert>): (ks: seq<string>)
    ensures |ks| == |h|
    ensures forall i :: 0 <= i < |h| ==> ks[i] == h[i].Key()
  {
    seq(|h|, i requires 0 <= i < |h| => h[i].Key())
  }

  /** The key order of a dict after assigning these keys in turn: every key where it was
      first assigned; assigning an existing key again does not move it. */
  function FirstOccurrences(ks: seq<string>): seq<string>
  {
    if ks == [] then []
    else
      var fo := FirstOccurrences(ks[..|ks| - 1]);
      if ks[|ks| - 1] in fo then fo else fo + [ks[|ks| - 1]]
  }

  /** The contents of a dict after these assignments: the last value written under each key. */
  function LastWrites(h: seq<Insert>): map<string, Entry>
  {
    if h == [] then map[] else LastWrites(h[..|h| - 1])[h[|h| - 1].Key() := h[|h| - 1].Value()]
  }

  /** The dict and the index are what the passes in the history made them. */
  ghost predicate WellFormed(s: Store)
  {
    && |s.history| == |s.vectors|
    && s.keys == FirstOccurrences(KeysWritten(s.history))
    && s.metadata == LastWrites(s.history)
  }

  /** Slot p of the index answers to the p-th key of the dict for every slot. */
  ghost predicate Aligned(s: Store)
  {
    |s.keys| == |s.vectors|
  }

  lemma {:induction false} FirstOccurrencesFacts(ks: seq<string>)
    ensures forall k :: k in FirstOccurrences(ks) <==> k in ks
    ensures Distinct(FirstOccurrences(ks))
    ensures |FirstOccurrences(ks)| <= |ks|
    ensures |FirstOccurrences(ks)| == |ks| <==> Distinct(ks)
    ensures Distinct(ks) ==> FirstOccurrences(ks) == ks
  {
    if ks != [] {
      var init, last := ks[..|ks| - 1], ks[|ks| - 1];
      FirstOccurrencesFacts(init);
      assert ks == init + [last];
      if Distinct(ks) {
        assert Distinct(init);
        assert last !in init;
      }
      if last in init {
        var j :| 0 <= j < |init| && init[j] == last;
        assert ks[j] == ks[|ks| - 1];
        assert !Distinct(ks);
      }
    }
  }

  lemma {:induction false} LastWritesFacts(h: seq<Insert>)
    ensures forall k :: k in LastWrites(h) <==> k in KeysWritten(h)
    ensures Distinct(KeysWritten(h)) ==>
              forall p :: 0 <= p < |h| ==> LastWrites(h)[h[p].Key()] == h[p].Value()
  {
    if h != [] {
      var init := h[..|h| - 1];
      LastWritesFacts(init);
      assert KeysWritten(h) == KeysWritten(init) + [h[|h| - 1].Key()];
      if Distinct(KeysWritten(h)) {
        assert Distinct(KeysWritten(init));
        forall p | 0 <= p < |h|
          ensures LastWrites(h)[h[p].Key()] == h[p].Value()
        {
          if p < |h| - 1 {
            assert init[p] == h[p];
            assert KeysWritten(h)[p] != KeysWritten(h)[|h| - 1];
          }
        }
      }
    }
  }

  /** Every key of the dict has a value, and the dict has at most one key per slot. */
  lemma WellFormedFacts(s: Store)
    requires WellFormed(s)
    ensures forall k :: k in s.keys <==> k in s.metadata
    ensures forall p :: 0 <= p < |s.keys| ==> s.keys[p] in s.metadata
    ensures Distinct(s.keys)
    ensures |s.keys| <= |s.vectors|
  {
    FirstOccurrencesFacts(KeysWritten(s.history));
    LastWritesFacts(s.history);
  }

  /** The index and the dict line up exactly when no key was ever written twice; then slot p
      resolves to the very chunk whose vector sits at slot p. */
  lemma AlignedIffFreshKeys(s: Store)
    requires WellFormed(s)
    ensures Aligned(s) <==> Distinct(KeysWritten(s.history))
    ensures Aligned(s) ==> forall p :: 0 <= p < |s.vectors| ==>
              s.keys[p] in s.metadata && s.metadata[s.keys[p]] == s.history[p].Value()
  {
    FirstOccurrencesFacts(KeysWritten(s.history));
    LastWritesFacts(s.history);
  }

  /** One pass of the loop: self.metadata[vector_id] = {...} (a new key goes last, an
      existing key keeps its place), then self.index.add(embedding). */
  function Add(s: Store, r: Insert, v: Vector): (s': Store)
    ensures s'.vectors == s.vectors + [v]
    ensures r.Key() in s'.metadata && s'.metadata[r.Key()] == r.Value()
    ensures forall k :: k != r.Key() ==> (k in s'.metadata <==> k in s.metadata)
    ensures forall k :: k != r.Key() && k in s.metadata ==> s'.metadata[k] == s.metadata[k]
  {
    Store(
      s.vectors + [v],
      if r.Key() in s.metadata then s.keys else s.keys + [r.Key()],
      s.metadata[r.Key() := r.Value()],
      s.history + [r])
  }

  /** One pass keeps the store well formed: the key list still holds each written key
      once, in order of first write, and the dict still holds each key's last write. */
  lemma AddKeepsWellFormed(s: Store, r: Insert, v: Vector)
    requires WellFormed(s)
    ensures WellFormed(Add(s, r, v))
  {
    var s' := Add(s, r, v);
    var h' := s.history + [r];
    var ks' := KeysWritten(h');
    assert h'[..|h'| - 1] == s.history;
    assert ks'[..|ks'| - 1] == KeysWritten(s.history) && ks'[|ks'| - 1] == r.Key();
    WellFormedFacts(s);
    assert r.Key() in s.keys <==> r.Key() in s.metadata;
    assert s'.keys == FirstOccurrences(ks');
    assert s'.metadata == LastWrites(h');
  }

  /** The passes of the loop over all chunks of one document. */
  function Passes(path: string, chunks: seq<string>): (ps: seq<Insert>)
    ensures |ps| == |chunks|
    ensures forall i :: 0 <= i < |chunks| ==> ps[i] == Insert(path, i, chunks[i])
  {
    seq(|chunks|, i requires 0 <= i < |chunks| => Insert(path, i, chunks[i]))
  }

  /** The state after the first n passes of process_document's loop. */
  function Ingest(s: Store, path: string, chunks: seq<string>, vecs: seq<Vector>, n: nat): Store
    requires n <= |chunks| && |vecs| == |chunks|
  {
    if n == 0 then s
    else Add(Ingest(s, path, chunks, vecs, n - 1), Insert(path, n - 1, chunks[n - 1]), vecs[n - 1])
  }

  /** process_document appends one vector per chunk, in chunk order, and records one pass
      per chunk; it keeps the store well formed. */
  lemma {:induction false} IngestAppends(s: Store, path: string, chunks: seq<string>, vecs: seq<Vector>, n: nat)
    requires n <= |chunks| && |vecs| == |chunks|
    ensures var s' := Ingest(s, path, chunks, vecs, n);
            && s'.vectors == s.vectors + vecs[..n]
            && s'.history == s.history + Passes(path, chunks)[..n]
            && (WellFormed(s) ==> WellFormed(s'))
  {
    IngestVectors(s, path, chunks, vecs, n);
    IngestHistory(s, path, chunks, vecs, n);
    IngestWellFormed(s, path, chunks, vecs, n);
  }

  /** All of process_document's loop: the vectors already stored stay, the new ones are
      the chunks' vectors, and every new pass is one of this document. */
  lemma IngestAll(s: Store, path: string, chunks: seq<string>, vecs: seq<Vector>)
    requires |vecs| == |chunks|
    ensures var s' := Ingest(s, path, chunks, vecs, |chunks|);
            && |s'.vectors| == |s.vectors| + |chunks|
            && (WellFormed(s) ==> WellFormed(s'))
            && (forall i :: 0 <= i < |s.vectors| ==> s'.vectors[i] == s.vectors[i])
            && (forall i :: |s.vectors| <= i < |s'.vectors| ==> s'.vectors[i] in vecs)
            && (forall r :: r in s'.history ==> r in s.history || r.source == path)
  {
    var passes := Passes(path, chunks);
    var s' := Ingest(s, path, chunks, vecs, |chunks|);
    IngestAppends(s, path, chunks, vecs, |chunks|);
    assert vecs[..|chunks|] == vecs && passes[..|chunks|] == passes;
    assert s'.vectors == s.vectors + vecs && s'.history == s.history + passes;
    forall i | |s.vectors| <= i < |s'.vectors|
      ensures s'.vectors[i] in vecs
    {
      assert s'.vectors[i] == vecs[i - |s.vectors|];
    }
    forall r | r in s'.history
      ensures r in s.history || r.source == path
    {
      if r !in s.history {
        assert r in passes;
        var t :| 0 <= t < |passes| && passes[t] == r;
      }
    }
  }

  lemma {:induction false} IngestVectors(s: Store, path: string, chunks: seq<string>, vecs: seq<Vector>, n: nat)
    requires n <= |chunks| && |vecs| == |chunks|
    ensures Ingest(s, path, chunks, vecs, n).vectors == s.vectors + vecs[..n]
  {
    if n > 0 {
      IngestVectors(s, path, chunks, vecs, n - 1);
      var prev := Ingest(s, path, chunks, vecs, n - 1);
      assert Ingest(s, path, chunks, vecs, n).vectors == prev.vectors + [vecs[n - 1]];
      assert vecs[..n] == vecs[..n - 1] + [vecs[n - 1]];
      assert s.vectors + vecs[..n] == (s.vectors + vecs[..n - 1]) + [vecs[n - 1]];
    } else {
      assert s.vectors + vecs[..0] == s.vectors;
    }
  }

  lemma {:induction false} IngestHistory(s: Store, path: string, chunks: seq<string>, vecs: seq<Vector>, n: nat)
    requires n <= |chunks| && |vecs| == |chunks|
    ensures Ingest(s, path, chunks, vecs, n).history == s.history + Passes(path, chunks)[..n]
  {
    var ps := Passes(path, chunks);
    if n > 0 {
      IngestHistory(s, path, chunks, vecs, n - 1);
      var prev := Ingest(s, path, chunks, vecs, n - 1);
      assert Ingest(s, path, chunks, vecs, n).history == prev.history + [ps[n - 1]];
      assert ps[..n] == ps[..n - 1] + [ps[n - 1]];
      assert s.history + ps[..n] == (s.history + ps[..n - 1]) + [ps[n - 1]];
    } else {
      assert s.history + ps[..0] == s.history;
    }
  }

  lemma {:induction false} IngestWellFormed(s: Store, path: string, chunks: seq<string>, vecs: seq<Vector>, n: nat)
    requires n <= |chunks| && |vecs| == |chunks|
    ensures WellFormed(s) ==> WellFormed(Ingest(s, path, chunks, vecs, n))
  {
    if n > 0 && WellFormed(s) {
      IngestWellFormed(s, path, chunks, vecs, n - 1);
      AddKeepsWellFormed(Ingest(s, path, chunks, vecs, n - 1), Insert(path, n - 1, chunks[n - 1]), vecs[n - 1]);
    }
  }

  /** After the first n passes, key f"{path}_{i}" holds chunk i for every i < n, and every
      other key is untouched. */
  lemma IngestMetadata(s: Store, path: string, chunks: seq<string>, vecs: seq<Vector>, n: nat)
    requires n <= |chunks| && |vecs| == |chunks|
    ensures var md := Ingest(s, path, chunks, vecs, n).metadata;
            && (forall i :: 0 <= i < n ==> VectorId(path, i) in md && md[VectorId(path, i)] == Entry(chunks[i], path))
            && (forall k :: (forall i :: 0 <= i < n ==> k != VectorId(path, i)) ==>
                  (k in md <==> k in s.metadata) && (k in s.metadata ==> md[k] == s.metadata[k]))
  {
    IngestWritesChunks(s, path, chunks, vecs, n);
    IngestKeepsOthers(s, path, chunks, vecs, n);
  }

  lemma {:induction false} IngestWritesChunks(s: Store, path: string, chunks: seq<string>, vecs: seq<Vector>, n: nat)
    requires n <= |chunks| && |vecs| == |chunks|
    ensures var md := Ingest(s, path, chunks, vecs, n).metadata;
            forall i :: 0 <= i < n ==> VectorId(path, i) in md && md[VectorId(path, i)] == Entry(chunks[i], path)
  {
    if n > 0 {
      IngestWritesChunks(s, path, chunks, vecs, n - 1);
      var prev := Ingest(s, path, chunks, vecs, n - 1).metadata;
      var md := Ingest(s, path, chunks, vecs, n).metadata;
      assert md == prev[VectorId(path, n - 1) := Entry(chunks[n - 1], path)];
      forall i | 0 <= i < n - 1
        ensures VectorId(path, i) in md && md[VectorId(path, i)] == Entry(chunks[i], path)
      {
        if VectorId(path, i) == VectorId(path, n - 1) {
          VectorIdInjective(path, i, path, n - 1);
        }
      }
    }
  }

  lemma {:induction false} IngestKeepsOthers(s: Store, path: string, chunks: seq<string>, vecs: seq<Vector>, n: nat)
    requires n <= |chunks| && |vecs| == |chunks|
    ensures var md := Ingest(s, path, chunks, vecs, n).metadata;
            forall k :: (forall i :: 0 <= i < n ==> k != VectorId(path, i)) ==>
              (k in md <==> k in s.metadata) && (k in s.metadata ==> md[k] == s.metadata[k])
  {
    if n > 0 {
      IngestKeepsOthers(s, path, chunks, vecs, n - 1);
      var prev := Ingest(s, path, chunks, vecs, n - 1).metadata;
      var md := Ingest(s, path, chunks, vecs, n).metadata;
      assert md == prev[VectorId(path, n - 1) := Entry(chunks[n - 1], path)];
    }
  }

  /** Ingesting a document whose path no earlier pass used keeps the keys fresh, and so the
      stores aligned. */
  lemma {:induction false} NewPathKeepsFresh(s: Store, path: string, chunks: seq<string>, vecs: seq<Vector>)
    requires |vecs| == |chunks|
    requires Distinct(KeysWritten(s.history))
    requires forall r :: r in s.history ==> r.source != path
    ensures Distinct(KeysWritten(Ingest(s, path, chunks, vecs, |chunks|).history))
  {
    IngestAppends(s, path, chunks, vecs, |chunks|);
    var h := s.history;
    var h' := Ingest(s, path, chunks, vecs, |chunks|).history;
    var ps := Passes(path, chunks);
    assert ps[..|chunks|] == ps;
    assert h' == h + ps;
    var ks := KeysWritten(h');
    forall i, j | 0 <= i < j < |ks|
      ensures ks[i] != ks[j]
    {
      if j < |h| {
        assert ks[i] == KeysWritten(h)[i] && ks[j] == KeysWritten(h)[j];
      } else if i < |h| {
        assert h'[i] == h[i] && h[i] in h;
        assert h'[j] == ps[j - |h|];
        if ks[i] == ks[j] {
          VectorIdInjective(h[i].source, h[i].index, path, j - |h|);
        }
      } else {
        assert h'[i] == ps[i - |h|] && h'[j] == ps[j - |h|];
        if ks[i] == ks[j] {
          VectorIdInjective(path, i - |h|, path, j - |h|);
        }
      }
    }
  }

  /** Re-processing a path overwrites its keys in place while the index grows again, so
      the index ends up with more slots than the dict has keys. */
  lemma ReingestMisaligns(s: Store, path: string, chunks: seq<string>, vecs: seq<Vector>,
                          again: seq<string>, vecs2: seq<Vector>)
    requires WellFormed(s)
    requires |vecs| == |chunks| > 0 && |vecs2| == |again| > 0
    ensures var s1 := Ingest(s, path, chunks, vecs, |chunks|);
            var s2 := Ingest(s1, path, again, vecs2, |again|);
            WellFormed(s2) && |s2.keys| < |s2.vectors|
  {
    var s1 := Ingest(s, path, chunks, vecs, |chunks|);
    var s2 := Ingest(s1, path, again, vecs2, |again|);
    IngestAppends(s, path, chunks, vecs, |chunks|);
    IngestAppends(s1, path, again, vecs2, |again|);
    var a, b := |s.history|, |s1.history|;
    assert s2.history[a] == Passes(path, chunks)[0];
    assert s2.history[b] == Passes(path, again)[0];
    var ks := KeysWritten(s2.history);
    assert ks[a] == ks[b] && a < b;
    AlignedIffFreshKeys(s2);
    WellFormedFacts(s2);
  }
}
