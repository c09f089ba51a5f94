/**
  AdvancedDocumentQA and main: documents are extracted, cut into overlapping chunks,
  embedded and stored; each question is embedded, its nearest chunks are looked up,
  scored by weighted_score, ranked and cut to top_k.
 */
module Engine {

  import opened Wrappers
  import opened SeqFacts
  import opened Collaborators
  import opened Extraction
  import opened Chunker
  import opened VectorIds
  import opened Scoring
  import opened VectorIndex
  import opened MetadataStore
  import opened Resolution
  import opened Ranking
  import opened Questions

  const DefaultTopK: nat := 5

  /** What query_and_extract_info returns: {"query": question, "results": [...]}. */
  datatype QueryResult = QueryResult(query: string, results: seq<Hit>)

  /** The chunks process_document cuts a document into: chunk_text with its defaults. */
  function DocumentChunks(path: string, files: Files, m: Models): seq<string>
  {
    Windows(ExtractText(path, files, m.preprocess), DefaultChunkSize, DefaultChunkSize - DefaultOverlap)
  }

  /** [self.embed_text(chunk) for chunk in chunks] */
  function Embeddings(chunks: seq<string>, m: Models): (vs: seq<Vector>)
    ensures |vs| == |chunks|
    ensures forall i :: 0 <= i < |chunks| ==> vs[i] == m.embed(chunks[i])
  {
    seq(|chunks|, i requires 0 <= i < |chunks| => m.embed(chunks[i]))
  }

  /** The store after process_document(path). */
  function Processed(s: Store, path: string, files: Files, m: Models): Store
  {
    var chunks := DocumentChunks(path, files, m);
    Ingest(s, path, chunks, Embeddings(chunks, m), |chunks|)
  }

  /** The store after processing every path in turn, as main does with uploaded_files. */
  function ProcessedAll(s: Store, paths: seq<string>, files: Files, m: Models): Store
  {
    if paths == [] then s
    else Processed(ProcessedAll(s, paths[..|paths| - 1], files, m), paths[|paths| - 1], files, m)
  }

  /** The number of chunks the documents at these paths are cut into. */
  function ChunkCount(paths: seq<string>, files: Files, m: Models): nat
  {
    if paths == [] then 0
    else ChunkCount(paths[..|paths| - 1], files, m) + |DocumentChunks(paths[|paths| - 1], files, m)|
  }

  /** Processing a document stores one vector per chunk and keeps the store well formed;
      every recorded pass belongs to an earlier pass or to this document. */
  lemma ProcessedFacts(s: Store, path: string, files: Files, m: Models)
    ensures var s' := Processed(s, path, files, m);
            && |s'.vectors| == |s.vectors| + |DocumentChunks(path, files, m)|
            && (WellFormed(s) ==> WellFormed(s'))
            && (forall i :: 0 <= i < |s.vectors| ==> s'.vectors[i] == s.vectors[i])
            && (forall i :: |s.vectors| <= i < |s'.vectors| ==> s'.vectors[i] in Embeddings(DocumentChunks(path, files, m), m))
            && (forall r :: r in s'.history ==> r in s.history || r.source == path)
  {
    var chunks := DocumentChunks(path, files, m);
    assert Processed(s, path, files, m) == Ingest(s, path, chunks, Embeddings(chunks, m), |chunks|);
    IngestAll(s, path, chunks, Embeddings(chunks, m));
  }

  /** A file whose extension is neither .pdf nor .txt leaves the engine as it was. */
  lemma UnsupportedFileAddsNothing(s: Store, path: string, files: Files, m: Models)
    requires KindOf(path) == Unsupported
    ensures Processed(s, path, files, m) == s
  {
    ChunkBounds("", DefaultChunkSize, DefaultOverlap);
  }

  /** After main's ingestion loop the store is well formed, holds one vector per chunk of
      every document, and every recorded pass came from an uploaded path. */
  lemma {:induction false} ProcessedAllFacts(paths: seq<string>, files: Files, m: Models)
    ensures var s := ProcessedAll(EmptyStore, paths, files, m);
            && WellFormed(s)
            && |s.vectors| == ChunkCount(paths, files, m)
            && (forall r :: r in s.history ==> r.source in paths)
  {
    if paths != [] {
      var init, last := paths[..|paths| - 1], paths[|paths| - 1];
      ProcessedAllFacts(init, files, m);
      var s0 := ProcessedAll(EmptyStore, init, files, m);
      ProcessedFacts(s0, last, files, m);
      var s := ProcessedAll(EmptyStore, paths, files, m);
      forall r | r in s.history ensures r.source in paths {
        if r in s0.history {
          var t :| 0 <= t < |init| && init[t] == r.source;
          assert paths[t] == init[t];
        }
      }
    }
  }

  /** With distinct uploaded paths, no key is ever written twice. */
  lemma {:induction false} DistinctPathsFreshKeys(paths: seq<string>, files: Files, m: Models)
    requires Distinct(paths)
    ensures Distinct(KeysWritten(ProcessedAll(EmptyStore, paths, files, m).history))
  {
    if paths == [] {
      assert KeysWritten([]) == [];
    } else {
      var init, last := paths[..|paths| - 1], paths[|paths| - 1];
      assert Distinct(init);
      DistinctPathsFreshKeys(init, files, m);
      ProcessedAllFacts(init, files, m);
      var s0 := ProcessedAll(EmptyStore, init, files, m);
      forall r | r in s0.history ensures r.source != last {
        var t :| 0 <= t < |init| && init[t] == r.source;
        assert paths[t] == init[t];
      }
      var chunks := DocumentChunks(last, files, m);
      NewPathKeepsFresh(s0, last, chunks, Embeddings(chunks, m));
    }
  }

  /** main over uploaded files that are all different: every chunk gets its own key, so
      every slot of the index resolves to its own chunk, and the index holds exactly the
      chunks of all the documents. */
  lemma DistinctPathsStayAligned(paths: seq<string>, files: Files, m: Models)
    requires Distinct(paths)
    ensures var s := ProcessedAll(EmptyStore, paths, files, m);
            WellFormed(s) && Aligned(s) && |s.vectors| == ChunkCount(paths, files, m)
  {
    ProcessedAllFacts(paths, files, m);
    DistinctPathsFreshKeys(paths, files, m);
    AlignedIffFreshKeys(ProcessedAll(EmptyStore, paths, files, m));
  }

  /** Uploading the same non-empty document twice leaves the index with more slots than the
      dict has keys: the second pass overwrites the keys in place and appends new vectors. */
  lemma RepeatedPathMisaligns(s: Store, path: string, files: Files, m: Models)
    requires WellFormed(s)
    requires DocumentChunks(path, files, m) != []
    ensures var twice := Processed(Processed(s, path, files, m), path, files, m);
            WellFormed(twice) && |twice.keys| < |twice.vectors|
  {
    var chunks := DocumentChunks(path, files, m);
    ReingestMisaligns(s, path, chunks, Embeddings(chunks, m), chunks, Embeddings(chunks, m));
  }

  /** The entry the p-th key of the dict holds. */
  ghost function EntryIn(s: Store, p: nat): Entry
    requires WellFormed(s) && p < |s.keys|
  {
    WellFormedFacts(s);
    s.metadata[s.keys[p]]
  }

  /** The hit of the p-th stored chunk for a question: its text, its source and
      weighted_score of the question against its text. */
  ghost function HitIn(s: Store, p: nat, question: string, m: Models): Hit
    requires WellFormed(s) && p < |s.keys|
    requires Scorable(question, EntryIn(s, p).text, m)
  {
    var e := EntryIn(s, p);
    Hit(e.text, e.source, WeightedScore(question, e.text, m))
  }

  /** h is the hit of some stored chunk for the question. */
  ghost predicate Answers(s: Store, h: Hit, question: string, m: Models)
    requires WellFormed(s)
  {
    exists p :: 0 <= p < |s.keys| && Scorable(question, EntryIn(s, p).text, m) && h == HitIn(s, p, question, m)
  }

  /** weighted_score is defined for the question against every stored chunk. */
  ghost predicate AllScorable(s: Store, question: string, m: Models)
    requires WellFormed(s)
  {
    forall p :: 0 <= p < |s.keys| ==> Scorable(question, EntryIn(s, p).text, m)
  }

  /** weighted_score is defined for the question against the chunk at every position. */
  ghost predicate CandidatesScorable(s: Store, ps: seq<nat>, question: string, m: Models)
    requires WellFormed(s)
  {
    forall j :: 0 <= j < |ps| ==> ps[j] < |s.keys| && Scorable(question, EntryIn(s, ps[j]).text, m)
  }

  /** hs are the hits of the stored chunks at positions ps, in order. */
  ghost predicate ScoredHits(s: Store, hs: seq<Hit>, ps: seq<nat>, question: string, m: Models)
    requires WellFormed(s)
  {
    && |hs| == |ps|
    && CandidatesScorable(s, ps, question, m)
    && forall j :: 0 <= j < |hs| ==> hs[j] == HitIn(s, ps[j], question, m)
  }

  /** results are what query_and_extract_info makes of the question on this store: the
      search's nearest top_k slots, resolved with the corrected guard, scored, ranked and
      cut to top_k. */
  ghost predicate Retrieved(s: Store, results: seq<Hit>, question: string, topK: nat, m: Models)
  {
    && WellFormed(s)
    && SameDimension(s.vectors, m.embed(question))
    && exists slots: seq<nat>, hs: seq<Hit> ::
         && Nearest(s.vectors, m.embed(question), topK, slots)
         && ScoredHits(s, hs, Admitted(Labels(slots, topK), |s.keys|), question, m)
         && results == TopByScore(hs, topK)
  }

  /** weighted_score is undefined for the question against some chunk the search returns,
      so query_and_extract_info raises ZeroDivisionError. */
  ghost predicate SearchHitsUnscorable(s: Store, question: string, topK: nat, m: Models)
  {
    && WellFormed(s)
    && SameDimension(s.vectors, m.embed(question))
    && exists slots: seq<nat> ::
         && Nearest(s.vectors, m.embed(question), topK, slots)
         && !CandidatesScorable(s, Admitted(Labels(slots, topK), |s.keys|), question, m)
  }

  /** The search has one answer, so whether a candidate is unscorable is decided by it. */
  lemma SearchOutcome(s: Store, slots: seq<nat>, question: string, topK: nat, m: Models)
    requires WellFormed(s) && SameDimension(s.vectors, m.embed(question))
    requires Nearest(s.vectors, m.embed(question), topK, slots)
    ensures SearchHitsUnscorable(s, question, topK, m) <==>
            !CandidatesScorable(s, Admitted(Labels(slots, topK), |s.keys|), question, m)
  {
    var q := m.embed(question);
    forall other: seq<nat> | Nearest(s.vectors, q, topK, other)
      ensures other == slots
    {
      NearestUnique(s.vectors, q, topK, other, slots);
    }
  }

  /** The ranking of the hits scored for a search's answer is what was retrieved. */
  lemma RetrievedBy(s: Store, slots: seq<nat>, hs: seq<Hit>, question: string, topK: nat, m: Models)
    requires WellFormed(s) && SameDimension(s.vectors, m.embed(question))
    requires Nearest(s.vectors, m.embed(question), topK, slots)
    requires ScoredHits(s, hs, Admitted(Labels(slots, topK), |s.keys|), question, m)
    ensures Retrieved(s, TopByScore(hs, topK), question, topK, m)
  {
  }

  /** What ranking the scored candidates of a search yields: at most top_k hits, no more
      than the dict has keys, one per slot when every slot has its own key, and each the
      hit of a stored chunk. */
  lemma RankedAnswers(s: Store, slots: seq<nat>, topK: nat, results: seq<Hit>, question: string, m: Models)
    requires WellFormed(s)
    requires |slots| == Min(topK, |s.vectors|) && Distinct(slots)
    requires forall i :: 0 <= i < |slots| ==> slots[i] < |s.vectors|
    requires ScoredHits(s, results, Admitted(Labels(slots, topK), |s.keys|), question, m)
    ensures var top := TopByScore(results, topK);
            && |top| <= topK && |top| <= |s.keys|
            && (|s.keys| == |s.vectors| ==> |top| == Min(topK, |s.vectors|))
            && forall h :: h in top ==> Answers(s, h, question, m)
  {
    var admitted := Admitted(Labels(slots, topK), |s.keys|);
    WellFormedFacts(s);
    AdmittedOfSearch(slots, topK, |s.keys|);
    DistinctBelow(admitted, |s.keys|);
    KeptHitsAnswer(s, results, admitted, TopByScore(results, topK), question, m);
  }

  lemma ScoredHitsAppend(s: Store, hs: seq<Hit>, ps: seq<nat>, p: nat, question: string, m: Models)
    requires WellFormed(s) && ScoredHits(s, hs, ps, question, m)
    requires p < |s.keys| && Scorable(question, EntryIn(s, p).text, m)
    ensures ScoredHits(s, hs + [HitIn(s, p, question, m)], ps + [p], question, m)
  {
    var hs', ps' := hs + [HitIn(s, p, question, m)], ps + [p];
    forall j | 0 <= j < |hs'|
      ensures ps'[j] < |s.keys| && Scorable(question, EntryIn(s, ps'[j]).text, m)
      ensures hs'[j] == HitIn(s, ps'[j], question, m)
    {
      if j < |hs| {
        assert hs'[j] == hs[j] && ps'[j] == ps[j];
      }
    }
  }

  /** Hits kept from scored ones are hits of stored chunks. */
  lemma KeptHitsAnswer(s: Store, hs: seq<Hit>, ps: seq<nat>, top: seq<Hit>, question: string, m: Models)
    requires WellFormed(s) && ScoredHits(s, hs, ps, question, m)
    requires multiset(top) <= multiset(hs)
    ensures forall h :: h in top ==> Answers(s, h, question, m)
  {
    forall h | h in top
      ensures Answers(s, h, question, m)
    {
      assert h in multiset(hs);
      var j :| 0 <= j < |hs| && hs[j] == h;
      assert Scorable(question, EntryIn(s, ps[j]).text, m) && h == HitIn(s, ps[j], question, m);
    }
  }

  /** When weighted_score is defined against every stored chunk, it is defined against
      every candidate. */
  lemma AllScorableCandidates(s: Store, ps: seq<nat>, question: string, m: Models)
    requires WellFormed(s) && AllScorable(s, question, m)
    requires forall j :: 0 <= j < |ps| ==> ps[j] < |s.keys|
    ensures CandidatesScorable(s, ps, question, m)
  {
  }

  /** A label that names a key whose chunk cannot be scored leaves a candidate unscorable. */
  lemma UnscorableCandidate(s: Store, labels: seq<int>, i: nat, question: string, m: Models)
    requires WellFormed(s) && i < |labels| && 0 <= labels[i] < |s.keys|
    requires !Scorable(question, EntryIn(s, labels[i]).text, m)
    ensures !CandidatesScorable(s, Admitted(labels, |s.keys|), question, m)
  {
    AdmittedAt(labels, i, |s.keys|);
    var ps, j := Admitted(labels, |s.keys|), |Admitted(labels[..i], |s.keys|)|;
    assert ps[j] == labels[i] as nat;
    assert !Scorable(question, EntryIn(s, ps[j]).text, m);
  }

  /** The engine: the FAISS index (its vectors by slot), the metadata dict (its keys in
      order and their entries) and, as proof state, the passes that built them. */
  class DocumentQA {

    const dimension: nat
    var vectors: seq<Vector>
    var keys: seq<string>
    var metadata: map<string, Entry>
    ghost var history: seq<Insert>

    ghost function State(): Store
      reads this
    {
      Store(vectors, keys, metadata, history)
    }

    ghost predicate Valid()
      reads this
    {
      && WellFormed(State())
      && (forall i :: 0 <= i < |vectors| ==> |vectors[i]| == dimension)
    }

    /** __init__: an empty IndexFlatL2 of the model's dimension and an empty dict. */
    constructor (dimension: nat)
      ensures Valid()
      ensures State() == EmptyStore
      ensures this.dimension == dimension
    {
      this.dimension := dimension;
      vectors := [];
      keys := [];
      metadata := map[];
      history := [];
    }

    /** list(self.metadata.keys())[p] looked up in the dict. */
    function EntryAt(p: nat): (e: Entry)
      reads this
      requires Valid() && p < |keys|
      ensures keys[p] in metadata && e == EntryIn(State(), p)
    {
      WellFormedFacts(State());
      metadata[keys[p]]
    }

    /** {"text": ..., "source": ..., "score": weighted_score(question, text)} for the p-th
        stored chunk. */
    function HitAt(p: nat, question: string, m: Models): (h: Hit)
      reads this
      requires Valid() && p < |keys|
      requires Scorable(question, EntryAt(p).text, m)
      ensures h == HitIn(State(), p, question, m)
      ensures -0.7 <= h.score <= 1.0
    {
      var e := EntryAt(p);
      Hit(e.text, e.source, WeightedScore(question, e.text, m))
    }

    /** process_document: extract the text, chunk it with the defaults, embed every chunk,
        then store the chunks. */
    method ProcessDocument(path: string, files: Files, m: Models)
      requires Valid() && Conforms(m, dimension)
      modifies this
      ensures Valid()
      ensures State() == Processed(old(State()), path, files, m)
    {
      var text := ExtractText(path, files, m.preprocess);
      var chunks := ChunkText(text, DefaultChunkSize, DefaultOverlap);
      var embeddings := Embeddings(chunks, m);
      StoreChunks(path, chunks, embeddings);
    }

    /** The loop of process_document: for chunk i, metadata[f"{path}_{i}"] is written (a new
        key goes last, an existing key keeps its place) and its vector is added to the index. */
    method StoreChunks(path: string, chunks: seq<string>, embeddings: seq<Vector>)
      requires Valid() && |embeddings| == |chunks|
      requires forall j :: 0 <= j < |embeddings| ==> |embeddings[j]| == dimension
      modifies this
      ensures Valid()
      ensures State() == Ingest(old(State()), path, chunks, embeddings, |chunks|)
    {
      ghost var start := State();
      var i := 0;
      while i < |chunks|
        invariant 0 <= i <= |chunks|
        invariant Valid()
        invariant State() == Ingest(start, path, chunks, embeddings, i)
      {
        assert Ingest(start, path, chunks, embeddings, i + 1)
            == Add(State(), Insert(path, i, chunks[i]), embeddings[i]);
        StoreChunk(path, i, chunks[i], embeddings[i]);
        i := i + 1;
      }
    }

    /** One pass of that loop: metadata[f"{path}_{i}"] = {"text": chunk, "source": path}
        and index.add of the chunk's vector. */
    method StoreChunk(path: string, i: nat, chunk: string, embedding: Vector)
      requires Valid() && |embedding| == dimension
      modifies this
      ensures Valid()
      ensures State() == Add(old(State()), Insert(path, i, chunk), embedding)
    {
      ghost var next := Add(State(), Insert(path, i, chunk), embedding);
      AddKeepsWellFormed(State(), Insert(path, i, chunk), embedding);
      var id := VectorId(path, i);
      keys := if id in metadata then keys else keys + [id];
      metadata := metadata[id := Entry(chunk, path)];
      vectors := vectors + [embedding];
      history := history + [Insert(path, i, chunk)];
      assert State() == next;
    }

    /** query_and_extract_info, with the candidate guard 0 <= idx < len(self.metadata): the
        question's nearest top_k slots are resolved to stored chunks, scored, ranked and
        cut to top_k.  weighted_score's division by zero surfaces as ZeroDivisionError. */
    method QueryAndExtractInfo(question: string, topK: nat, m: Models) returns (r: Result<QueryResult, QueryError>)
      requires Valid() && Conforms(m, dimension)
      requires topK > 0
      ensures r.Ok? ==> r.value.query == question
      ensures r.Ok? ==> |r.value.results| <= topK && |r.value.results| <= |keys|
      ensures r.Ok? ==> SortedByScore(r.value.results)
      ensures r.Ok? ==> forall h :: h in r.value.results ==> Answers(State(), h, question, m)
      ensures r.Ok? && |keys| == |vectors| ==> |r.value.results| == Min(topK, |vectors|)
      ensures |vectors| == 0 ==> r == Ok(QueryResult(question, []))
      ensures r.Err? ==> r.error == ZeroDivisionError && !AllScorable(State(), question, m)
      ensures AllScorable(State(), question, m) ==> r.Ok?
      ensures r.Ok? ==> Retrieved(State(), r.value.results, question, topK, m)
      ensures r.Err? <==> SearchHitsUnscorable(State(), question, topK, m)
    {
      var q := m.embed(question);
      var slots := Search(vectors, q, topK);
      SearchOutcome(State(), slots, question, topK, m);
      OrderedSlotsDistinct(Distances(vectors, q), slots);
      var labels := Labels(slots, topK);
      var scored := ScoreCandidates(question, labels, m);
      if scored.Err? {
        return Err(scored.error);
      }
      var results := scored.value;
      RankedAnswers(State(), slots, topK, results, question, m);
      var top := TopByScore(results, topK);
      RetrievedBy(State(), slots, results, question, topK, m);
      r := Ok(QueryResult(question, top));
    }

    /** The candidate loop of query_and_extract_info: for every label that names a key,
        the stored chunk is scored against the question, in label order. */
    method ScoreCandidates(question: string, labels: seq<int>, m: Models) returns (r: Result<seq<Hit>, QueryError>)
      requires Valid()
      ensures r.Ok? ==> ScoredHits(State(), r.value, Admitted(labels, |keys|), question, m)
      ensures r.Err? ==> r.error == ZeroDivisionError && !AllScorable(State(), question, m)
      ensures AllScorable(State(), question, m) ==> r.Ok?
      ensures r.Ok? <==> CandidatesScorable(State(), Admitted(labels, |keys|), question, m)
    {
      if AllScorable(State(), question, m) {
        AllScorableCandidates(State(), Admitted(labels, |keys|), question, m);
      }
      var results: seq<Hit> := [];
      var i := 0;
      while i < |labels|
        invariant 0 <= i <= |labels|
        invariant ScoredHits(State(), results, Admitted(labels[..i], |keys|), question, m)
      {
        var next := ScoreLabel(question, labels, i, results, m);
        if next.Err? {
          return Err(next.error);
        }
        results := next.value;
        i := i + 1;
      }
      assert labels[..|labels|] == labels;
      r := Ok(results);
    }

    /** One pass of the candidate loop: the label is skipped unless it names a key, and
        the chunk it names is scored. */
    method ScoreLabel(question: string, labels: seq<int>, i: nat, results: seq<Hit>, m: Models)
      returns (r: Result<seq<Hit>, QueryError>)
      requires Valid() && i < |labels|
      requires ScoredHits(State(), results, Admitted(labels[..i], |keys|), question, m)
      ensures r.Ok? ==> ScoredHits(State(), r.value, Admitted(labels[..i + 1], |keys|), question, m)
      ensures r.Err? ==> r.error == ZeroDivisionError
      ensures r.Err? ==> !CandidatesScorable(State(), Admitted(labels, |keys|), question, m)
    {
      var idx := labels[i];
      AdmittedStep(labels, i, |keys|);
      if 0 <= idx < |keys| {
        var e := EntryAt(idx);
        if !Scorable(question, e.text, m) {
          UnscorableCandidate(State(), labels, i, question, m);
          return Err(ZeroDivisionError);
        }
        ScoredHitsAppend(State(), results, Admitted(labels[..i], |keys|), idx, question, m);
        r := Ok(results + [HitAt(idx, question, m)]);
      } else {
        r := Ok(results);
      }
    }
  }

  /** res is what query_and_extract_info answers for question q with the default top_k from
      store s: it echoes q, is ranked and at most top_k long, is as long as the index allows
      when every slot has its own key, is the retrieval of q, and q's search hits are scorable. */
  ghost predicate AnsweredBy(res: QueryResult, q: string, s: Store, m: Models)
  {
    && res.query == q
    && SortedByScore(res.results)
    && |res.results| <= DefaultTopK
    && (|s.keys| == |s.vectors| ==> |res.results| == Min(DefaultTopK, |s.vectors|))
    && Retrieved(s, res.results, q, DefaultTopK, m)
    && !SearchHitsUnscorable(s, q, DefaultTopK, m)
  }

  /** rs answers qs one by one, in order. */
  ghost predicate AnsweredInOrder(rs: seq<QueryResult>, qs: seq<string>, s: Store, m: Models)
  {
    |rs| == |qs| && forall t :: 0 <= t < |rs| ==> AnsweredBy(rs[t], qs[t], s, m)
  }

  lemma AnsweredAppend(rs: seq<QueryResult>, qs: seq<string>, res: QueryResult, q: string, s: Store, m: Models)
    requires AnsweredInOrder(rs, qs, s, m) && AnsweredBy(res, q, s, m)
    ensures AnsweredInOrder(rs + [res], qs + [q], s, m)
  {
    var rs', qs' := rs + [res], qs + [q];
    forall t | 0 <= t < |rs'|
      ensures AnsweredBy(rs'[t], qs'[t], s, m)
    {
      if t < |rs| {
        assert rs'[t] == rs[t] && qs'[t] == qs[t];
      }
    }
  }

  /** Every question answered in order had no unscorable search hit. */
  lemma AnsweredNoneUnscorable(rs: seq<QueryResult>, qs: seq<string>, s: Store, m: Models)
    requires AnsweredInOrder(rs, qs, s, m)
    ensures !exists q :: q in qs && SearchHitsUnscorable(s, q, DefaultTopK, m)
  {
    forall q | q in qs
      ensures !SearchHitsUnscorable(s, q, DefaultTopK, m)
    {
      var t :| 0 <= t < |qs| && qs[t] == q;
      assert AnsweredBy(rs[t], qs[t], s, m);
    }
  }

  /** main: process every uploaded file in turn, then ask every non-blank line of the
      questions text, in order, with the default top_k; an exception ends the batch. */
  method AnswerQuestions(uploaded: seq<string>, questionsText: string, files: Files, m: Models, dimension: nat)
    returns (r: Result<seq<QueryResult>, QueryError>)
    requires Conforms(m, dimension)
    ensures r.Ok? ==> AnsweredInOrder(r.value, NonBlank(SplitLines(questionsText)), ProcessedAll(EmptyStore, uploaded, files, m), m)
    ensures r.Err? <==> (exists q :: q in NonBlank(SplitLines(questionsText))
                           && SearchHitsUnscorable(ProcessedAll(EmptyStore, uploaded, files, m), q, DefaultTopK, m))
    ensures r.Err? ==> r.error == ZeroDivisionError
    ensures r.Ok? ==> |r.value| == |NonBlank(SplitLines(questionsText))|
    ensures r.Ok? && Distinct(uploaded) ==> forall i :: 0 <= i < |r.value| ==>
              |r.value[i].results| == Min(DefaultTopK, ChunkCount(uploaded, files, m))
  {
    var qa := new DocumentQA(dimension);
    var i := 0;
    while i < |uploaded|
      invariant 0 <= i <= |uploaded|
      invariant qa.Valid() && qa.dimension == dimension
      invariant qa.State() == ProcessedAll(EmptyStore, uploaded[..i], files, m)
    {
      assert uploaded[..i + 1][..i] == uploaded[..i] && uploaded[..i + 1][i] == uploaded[i];
      qa.ProcessDocument(uploaded[i], files, m);
      i := i + 1;
    }
    assert uploaded[..|uploaded|] == uploaded;
    if Distinct(uploaded) {
      DistinctPathsStayAligned(uploaded, files, m);
      assert |qa.keys| == |qa.vectors| == ChunkCount(uploaded, files, m);
    }
    r := AskEach(qa, SplitLines(questionsText), m);
  }

  /** One question of main, asked with the default top_k. */
  method Ask(qa: DocumentQA, question: string, m: Models) returns (r: Result<QueryResult, QueryError>)
    requires qa.Valid() && Conforms(m, qa.dimension)
    ensures r.Ok? ==> r.value.query == question && SortedByScore(r.value.results)
    ensures r.Ok? ==> |r.value.results| <= DefaultTopK
    ensures r.Ok? && |qa.keys| == |qa.vectors| ==> |r.value.results| == Min(DefaultTopK, |qa.vectors|)
    ensures r.Ok? ==> Retrieved(qa.State(), r.value.results, question, DefaultTopK, m)
    ensures r.Err? <==> SearchHitsUnscorable(qa.State(), question, DefaultTopK, m)
    ensures r.Err? ==> r.error == ZeroDivisionError
  {
    r := qa.QueryAndExtractInfo(question, DefaultTopK, m);
  }

  /** The question loop of main: `if question.strip():` ask it, and keep its result. */
  method AskEach(qa: DocumentQA, questions: seq<string>, m: Models) returns (r: Result<seq<QueryResult>, QueryError>)
    requires qa.Valid() && Conforms(m, qa.dimension)
    ensures r.Ok? ==> AnsweredInOrder(r.value, NonBlank(questions), qa.State(), m)
    ensures r.Err? <==> (exists q :: q in NonBlank(questions) && SearchHitsUnscorable(qa.State(), q, DefaultTopK, m))
    ensures r.Err? ==> r.error == ZeroDivisionError
  {
    var answers: seq<QueryResult> := [];
    var j := 0;
    while j < |questions|
      invariant 0 <= j <= |questions|
      invariant AnsweredInOrder(answers, NonBlank(questions[..j]), qa.State(), m)
    {
      NonBlankStep(questions, j);
      if Strip(questions[j]) != "" {
        var res := Ask(qa, questions[j], m);
        if res.Err? {
          AskedLine(questions, j);
          return Err(res.error);
        }
        AnsweredAppend(answers, NonBlank(questions[..j]), res.value, questions[j], qa.State(), m);
        answers := answers + [res.value];
      }
      j := j + 1;
    }
    assert questions[..|questions|] == questions;
    AnsweredNoneUnscorable(answers, NonBlank(questions), qa.State(), m);
    r := Ok(answers);
  }

  /** A line whose strip() is non-empty is one of the questions asked. */
  lemma AskedLine(questions: seq<string>, j: nat)
    requires j < |questions| && Strip(questions[j]) != ""
    ensures questions[j] in NonBlank(questions)
  {
    StripEmptyIffBlank(questions[j]);
  }
}
