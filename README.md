# RiterAI retrieval core in Dafny

This project models the retrieval core of RiterAI's `extract.py`: the `AdvancedDocumentQA`
engine and the question loop of `main`. It follows one document through the engine:

- **Extraction.** `extract_text_from_file` picks the reader by file extension, and the text is normalised.
- **Chunking.** `chunk_text` cuts the text into 400-character windows with a stride of 350.
- **Ingestion.** `process_document` embeds every chunk.
  - Each vector is appended to a FAISS `IndexFlatL2`.
  - Each chunk is written into an insertion-ordered `metadata` dict under the key `f"{file_path}_{i}"`.
- **Querying.** `query_and_extract_info` embeds the question and searches the index for its `top_k` nearest slots.
  - It resolves each slot to the dict key at the same ordinal position.
  - It scores every resolved chunk with `weighted_score`, which is `0.7` × cosine plus `0.3` × the Jaccard overlap of the RAKE keyword sets.
  - It sorts the hits by score, highest first, and keeps `top_k` of them.
- **Asking.** `main` asks every non-blank line of the questions text.

Shape of the model:

- **Pure parts are functions with lemmas.** These are scoring, keyword extraction, extension dispatch, key naming, line splitting and stripping, and ranking.
- **Stateful parts are a class with loops.**
  - `Engine.DocumentQA` holds the index's vectors, the dict's key order and its entries.
  - Its methods `ProcessDocument` and `QueryAndExtractInfo` carry the loops of the source.
  - `Chunker.ChunkText` is a method with a loop proved against the reference function `Windows`.
  - `VectorIndex.Search` is a method with loops proved against the predicate `Nearest`: the (distance, slot) ordering `Before`, which has one answer only (`NearestUnique`).
  - `Engine.AnswerQuestions` and `Engine.AskEach` are methods with loops proved against `ProcessedAll`, `NonBlank` and `Retrieved`: every answer is the retrieval of its question from the store that processing the uploaded files builds.
- **The state machine sits in `MetadataStore`.**
  - A ghost history of the loop passes shows what the dict and the index are.
  - The central theorem is `AlignedIffFreshKeys`: index slot p resolves to the chunk whose vector sits at slot p exactly when no key was ever written twice.
  - `DistinctPathsStayAligned` proves that distinct uploaded files keep this alignment.
  - `RepeatedPathMisaligns` proves that uploading the same file twice breaks it.
- **Collaborators are function parameters.** The embedder, the RAKE ranker, the cosine expression, spaCy's `preprocess_text` and the two file readers come in as the datatypes `Collaborators.Models` and `Extraction.Files`.

Where the code and its documented intent differ, the model follows the code:

- **Empty keyword sets.** When both keyword sets are empty, `weighted_score` divides by zero (extract.py:93). The intended overlap of 0 is not what the code computes. `Scoring.Jaccard` therefore requires a non-empty union, and a query whose candidate has no keywords on either side ends in `ZeroDivisionError`. `main` catches that error, which ends the batch.
- **Processing a file again.** Doing so overwrites its dict keys in place rather than adding duplicate entries. The index, meanwhile, still grows.
- **Empty engine.** A query on an engine with no chunks raises `IndexError` in the code rather than answering no results. See Findings: the model's engine uses the corrected guard, and `Resolution.AdmittedAsWritten` models the code as written.

## Model

| member | source | states |
|---|---|---|
| Chunker.ChunkText | extract.py:73-77 | with overlap < chunk size the chunks are exactly the reference windows `Windows` (one per offset of `range(0, len, stride)`); with overlap > chunk size (a negative range step) there are no chunks |
| Chunker.WindowsClosedForm | extract.py:73-77 | the reference chunking has ceil(len/stride) windows, and window i starts at offset i·stride inside the text |
| Chunker.WindowsCount | extract.py:75 | `range(0, len, stride)` yields ceil(len/stride) offsets, so there are that many chunks |
| Chunker.ChunkLength | extract.py:75-76 | chunk i starts inside the text and is min(chunk_size, len - i·stride) characters long |
| Chunker.WindowsAt | extract.py:75-76 | chunk i is `text[i*stride : i*stride + chunk_size]`, and its offset lies inside the text |
| Chunker.ChunkBounds | extract.py:75-76 | the text is cut into no chunks exactly when it is empty, and every chunk is non-empty and at most chunk_size long |
| Chunker.Coverage | extract.py:75-76 | every character of the text appears in some chunk, at its offset within the chunk |
| Chunker.ConsecutiveOverlap | extract.py:75-76 | when chunk i is full length, its last `overlap` characters are the first `overlap` characters of chunk i+1 |
| Chunker.ReassembleWindows | extract.py:75-76 | cutting every chunk where the next one starts and concatenating the pieces gives back the text |
| VectorIds.NatToStringInjective | extract.py:107 | different chunk indexes have different decimal forms |
| VectorIds.VectorIdShape | extract.py:107 | a key `f"{path}_{i}"` is the path, one underscore, then one or more decimal digits and nothing else |
| VectorIds.VectorIdInjective | extract.py:107 | two keys `f"{path}_{i}"` are equal only for the same path and the same index |
| Extraction.ExtractText | extract.py:56-71 | an unsupported extension or a failed read gives "", a PDF gives its pages joined with spaces and then preprocessed, and a text file gives its preprocessed contents |
| Extraction.KindOf | extract.py:58-67 | a path whose last four characters spell `.pdf` in any case is read as a PDF; otherwise one ending in `.txt` in any case is read as text; every other path is unsupported |
| Extraction.LowerEndsWith | extract.py:58-62 | `path.lower().endswith(suffix)`, the test the dispatch makes, holds exactly when the last characters of the path, each lower-cased, spell the suffix |
| Extraction.KindOfLowered | extract.py:58-62 | a path is dispatched exactly as its lower-cased form is |
| Extraction.ExtensionIgnoresCase | extract.py:58-62 | every casing of `.pdf` names a PDF and every casing of `.txt` a text file, `.PDF` and `.TXT` among them |
| Extraction.ExtensionAtEnd | extract.py:58-67 | only the end of the path counts: `x.pdf.bak` is unsupported |
| Questions.SplitLines | extract.py:147 | `split('\n')` always yields at least one line |
| Questions.SplitThenJoin | extract.py:147 | no line holds a newline, and joining the lines with newlines gives back the text |
| Questions.JoinThenSplit | extract.py:147 | newline-free lines joined with newlines split back into the same lines |
| Questions.TrimStartShape | extract.py:158 | the leading whitespace, and only that, is cut off: the rest is a suffix of the line that does not start with whitespace |
| Questions.TrimEndShape | extract.py:158 | the trailing whitespace, and only that, is cut off: the rest is a prefix of the line that does not end with whitespace |
| Questions.StripShape | extract.py:158 | `question.strip()` is the slice of the line between its leading and its trailing whitespace, and it neither starts nor ends with whitespace |
| Questions.StripEmptyIffBlank | extract.py:158 | `question.strip()` is empty exactly when the line is all whitespace, so only those lines are skipped |
| Questions.NonBlank | extract.py:157-158 | the questions asked are exactly the lines of the input that are not blank: every one is such a line and every such line is asked |
| Questions.NonBlankAppend | extract.py:157-158 | the questions keep the order of the lines: those from one more line are those from the earlier lines, then that line if it is not blank |
| Scoring.ExtractKeywords | extract.py:85-88 | the keywords are the first min(top_n, number ranked) ranked phrases, so at most top_n |
| Scoring.KeywordSet | extract.py:91-92 | a keyword set has at most 5 phrases, all ranked ones |
| Scoring.Fraction | extract.py:93 | the share of shared keywords lies in [0, 1]; it is 0 exactly when none is shared and 1 exactly when all are |
| Scoring.Jaccard | extract.py:93 | defined only for a non-empty union; the overlap lies in [0, 1] |
| Scoring.JaccardSymmetric | extract.py:93 | the overlap does not depend on the order of the sets |
| Scoring.JaccardOneIffEqual | extract.py:93 | the overlap is 1 exactly when the keyword sets are equal |
| Scoring.JaccardZeroIffDisjoint | extract.py:93 | the overlap is 0 exactly when the keyword sets are disjoint |
| Scoring.KeywordOverlap | extract.py:91-93 | the keyword term lies in [0, 1] whenever it is defined |
| Scoring.WeightedScore | extract.py:90-99 | with the cosine in [-1, 1], the fused score lies in [-0.7, 1.0] |
| Scoring.ScoreWithoutSharedKeywords | extract.py:93-99 | with no keyword in common, the score is 0.7 × cosine |
| Scoring.ScoreWithSameKeywords | extract.py:93-99 | with the same keywords on both sides, the score is 0.7 × cosine + 0.3 |
| Scoring.OverlapSymmetric | extract.py:91-93 | swapping question and chunk keeps the overlap defined and unchanged |
| VectorIndex.SqDist | extract.py:46 | the L2 distance of IndexFlatL2 is never negative |
| VectorIndex.SqDistSelf | extract.py:46 | a vector is at distance 0 from itself |
| VectorIndex.SqDistSymmetric | extract.py:46 | the distance is symmetric |
| VectorIndex.Search | extract.py:115 | the slots are the `Nearest` answer: min(k, ntotal) slots in increasing (distance, slot) order, and every slot not returned comes after every slot returned |
| VectorIndex.NearestUnique | extract.py:115 | an exact search has one answer only: two sequences of slots that both meet `Nearest` are equal |
| VectorIndex.OrderedSlotsDistinct | extract.py:115 | the slots a search returns in (distance, slot) order are all different |
| VectorIndex.Labels | extract.py:115 | the k labels are the slots found followed by -1 for each unfilled answer |
| MetadataStore.FirstOccurrencesFacts | extract.py:108 | the dict's key order holds each written key once, and is as long as the writes exactly when no key was written twice |
| MetadataStore.LastWritesFacts | extract.py:108 | the dict holds exactly the written keys, and when no key repeats each key holds the value written with it |
| MetadataStore.WellFormedFacts | extract.py:108-120 | every key in the key order has an entry, the keys are distinct, and there are never more keys than index slots |
| MetadataStore.AlignedIffFreshKeys | extract.py:106-120 | len(index) == len(metadata) exactly when no key was written twice; then every slot p resolves to the chunk whose vector sits at p |
| MetadataStore.Add | extract.py:106-109 | one pass appends the vector, writes the entry under its key and leaves every other key alone |
| MetadataStore.AddKeepsWellFormed | extract.py:106-109 | after one pass the key order still holds each written key once, in order of first write, and the dict holds each key's last write |
| MetadataStore.IngestAppends | extract.py:105-109 | process_document appends one vector per chunk in chunk order and keeps the store well formed |
| MetadataStore.IngestAll | extract.py:105-109 | after the whole loop the earlier vectors stay, the new ones are the chunks' vectors, the store stays well formed, and every new pass is one of this document |
| MetadataStore.IngestMetadata | extract.py:106-108 | after the loop, key `f"{path}_{i}"` holds chunk i with source path, and every other key is unchanged |
| MetadataStore.NewPathKeepsFresh | extract.py:106-109 | ingesting a path that no earlier chunk came from writes only fresh keys |
| MetadataStore.ReingestMisaligns | extract.py:106-109 | processing a path a second time leaves fewer dict keys than index slots |
| Resolution.PyIndex | extract.py:120 | a list index resolves exactly when -n <= idx < n, always to a position below n |
| Resolution.Admitted | extract.py:118-120 | corrected guard: resolves exactly the labels with 0 <= idx < n, each to itself |
| Resolution.AdmittedAsWritten | extract.py:118-120 | the guard as written: every result lies below n, and the only failure is IndexError |
| Resolution.AsWrittenAgreesOnSlots | extract.py:118-120 | without -1 labels, the written guard and the corrected one resolve the same positions |
| Resolution.AdmittedAt | extract.py:118-120 | a label the corrected guard admits is resolved right after those admitted from the labels before it |
| Resolution.AdmittedOfSearch | extract.py:115-120 | with the corrected guard, a search's labels resolve to its slots below n, each once, and to all of them when every slot has a key |
| Resolution.PaddingRepeatsLastKey | extract.py:115-120 | as written, each -1 pad resolves to the last key; the corrected guard yields only the slots |
| Resolution.OneChunkAnsweredFiveTimes | extract.py:115-120 | one stored chunk and top_k 5: as written, five copies of the chunk; corrected, one |
| Resolution.EmptyIndexRaises | extract.py:115-120 | with no stored chunk the written guard raises IndexError, and the corrected one resolves nothing |
| Ranking.InsertByScore | extract.py:129 | inserting a hit adds exactly that hit |
| Ranking.InsertByScoreSorted | extract.py:129 | inserting into a list sorted by descending score keeps it sorted |
| Ranking.Ranked | extract.py:129 | the sorted list is a permutation of the hits |
| Ranking.RankedSorted | extract.py:129 | the sorted list is in descending order of score |
| Ranking.TopByScore | extract.py:129 | keeps min(top_k, n) hits, sorted descending, all among the scored hits; no dropped hit scores above a kept one; when top_k covers them all, every scored hit is kept |
| Engine.Embeddings | extract.py:103 | one embedding per chunk, embedding chunk i |
| Engine.ProcessedFacts | extract.py:101-109 | process_document adds one vector per chunk, keeps earlier vectors and well-formedness, and records only passes of this path |
| Engine.UnsupportedFileAddsNothing | extract.py:56-68 | a file that is neither .pdf nor .txt leaves the engine unchanged |
| Engine.ProcessedAllFacts | extract.py:152-153 | processing the uploaded files in turn keeps the store well formed, holds one vector per chunk of all documents, and records passes only of uploaded paths |
| Engine.DistinctPathsFreshKeys | extract.py:152-153 | with distinct uploaded paths no metadata key is ever written twice |
| Engine.DistinctPathsStayAligned | extract.py:152-153 | after processing distinct uploaded files, the index and dict stay aligned, and the index holds as many vectors as the documents have chunks |
| Engine.RepeatedPathMisaligns | extract.py:152-153 | processing the same non-empty document twice leaves the index with more slots than the dict has keys |
| Engine.DocumentQA.constructor | extract.py:45-47 | a new engine is empty and well formed, with the given dimension |
| Engine.DocumentQA.EntryAt | extract.py:120-121 | the p-th key of the dict has an entry, the one `EntryIn` names for the engine's store |
| Engine.DocumentQA.HitAt | extract.py:121-126 | a hit carries the stored chunk's text and source, and its score, in [-0.7, 1.0], is weighted_score against that text (`HitIn`) |
| Engine.DocumentQA.ProcessDocument | extract.py:101-111 | the new state is the old state plus one pass per chunk of the extracted text, keeping the engine valid |
| Engine.DocumentQA.StoreChunks | extract.py:105-109 | the loop over chunks performs exactly the passes `Ingest` describes and keeps the engine valid |
| Engine.DocumentQA.StoreChunk | extract.py:106-109 | one pass of the loop: the new state is `Add` of the old one, and the engine stays valid |
| Engine.DocumentQA.ScoreCandidates | extract.py:118-127 | scores exactly the admitted positions, in label order, each hit from its stored entry; fails, with ZeroDivisionError, exactly when some admitted candidate cannot be scored, and so always succeeds when every stored chunk can |
| Engine.DocumentQA.ScoreLabel | extract.py:119-127 | one label: skipped unless it names a key, otherwise its chunk's hit is appended; a chunk that cannot be scored is an admitted candidate that cannot be scored |
| Engine.UnscorableCandidate | extract.py:119-124 | a label naming a key whose chunk cannot be scored makes some admitted candidate unscorable |
| Engine.ScoredHitsAppend | extract.py:119-127 | appending the hit of one more scorable stored chunk extends the scored hits by that chunk's position |
| Engine.KeptHitsAnswer | extract.py:129 | every hit kept from the scored ones is the hit of a stored chunk |
| Engine.AllScorableCandidates | extract.py:118-124 | when every stored chunk can be scored, so can every candidate |
| Engine.RankedAnswers | extract.py:115-129 | ranking the scored candidates of a search keeps at most top_k hits and no more than the dict's keys, exactly min(top_k, ntotal) on an aligned engine, each the hit of a stored chunk |
| Engine.DocumentQA.QueryAndExtractInfo | extract.py:113-130 | echoes the question; the results are `Retrieved`: the ranking, cut to top_k, of the hits of the chunks at the `Nearest` slots of the question's embedding, resolved with the corrected guard; so at most top_k results, no more than the dict's keys, sorted by score descending, each the hit of a stored chunk, exactly min(top_k, ntotal) on an aligned engine and none on an empty one; ZeroDivisionError exactly when a chunk the search returns cannot be scored |
| Engine.SearchOutcome | extract.py:115-124 | since the search has one answer, some search answer has an unscorable candidate exactly when the one found does |
| Engine.RetrievedBy | extract.py:115-129 | ranking and cutting the hits scored for a search's answer is what `Retrieved` describes |
| Engine.AnsweredAppend | extract.py:157-160 | answering one more question appends its answer to the answers in order |
| Engine.AnsweredNoneUnscorable | extract.py:157-161 | when every question is answered, no question had a search hit that could not be scored |
| Engine.AskedLine | extract.py:157-158 | a line whose strip() is non-empty is one of the questions asked |
| Engine.Ask | extract.py:159 | one question with top_k 5: the result is `Retrieved` for the question from the engine's store, echoed, sorted, at most 5 results, exactly min(5, ntotal) on an aligned engine under the corrected guard; ZeroDivisionError exactly when a chunk the search returns cannot be scored |
| Engine.AskEach | extract.py:157-161 | one answer per non-blank line, in order, each the `Retrieved` answer to its line from the engine's store, sorted, at most 5 results, exactly min(5, ntotal) on an aligned engine (with the corrected guard; as written, see Findings); ZeroDivisionError exactly when some non-blank line has a search hit that cannot be scored |
| Engine.AnswerQuestions | extract.py:146-161 | one answer per non-blank line of the questions text, in order, each the `Retrieved` answer to its line from `ProcessedAll` of the uploaded files; with distinct uploaded files every answer holds min(5, total chunks) hits under the corrected guard (as written, see Findings); ZeroDivisionError, which ends the batch, exactly when some non-blank line has a search hit that cannot be scored |

## Left out

- File reading: PyMuPDF and `open` are the functions of `Extraction.Files`. An exception while reading is their `None`.
- `preprocess_text` (spaCy lemmatisation and stop-word filtering) is a caller-supplied function.
- `embed_text` (transformers, mean pooling, 512-token truncation) is the caller-supplied `Models.embed`.
  - Embeddings are sequences of reals rather than float32 arrays.
  - `Collaborators.Conforms` assumes every embedding has the index's dimension.
- RAKE ranking is the caller-supplied `Models.rankPhrases`. Only the `[:top_n]` prefix taken from it is modelled.
- The cosine expression is the caller-supplied `Models.cosine`, bounded in [-1, 1]. The NaN of a zero-norm embedding is not modelled.
- Floating point: all scores and distances are exact reals.
- VectorIndex.Search: FAISS's internal tie order and float32 distances are not modelled. The search breaks distance ties by slot.
- Engine.DocumentQA.QueryAndExtractInfo: requires top_k > 0, because FAISS rejects a search for no neighbours; the source only ever passes 5.
- Engine.DocumentQA.QueryAndExtractInfo: uses the corrected guard `0 <= idx`, so its result counts hold for that guard and not for the code as written. The IndexError path and the repeated last chunk of the guard as written are modelled only by `Resolution.AdmittedAsWritten`.
- Engine.Ask: its min(5, ntotal) result count holds for the corrected guard; as written, padding repeats the last chunk (see Findings).
- Engine.AskEach: its min(5, ntotal) result count holds for the corrected guard; as written, padding repeats the last chunk (see Findings).
- Engine.AnswerQuestions: its min(5, total chunks) result count holds for the corrected guard; as written, padding repeats the last chunk (see Findings).
- Chunker.ChunkText: `chunk_size` and `overlap` are natural numbers. Negative arguments, which the source never passes, are not modelled.
- Extraction.KindOf: `str.lower()` is modelled for ASCII letters only.
- Ranking.Ranked: Python's sort is stable, and so is `Ranked` by construction, but the contracts state sortedness and permutation only, not stability.
- Exceptions other than the division by zero in `weighted_score` and the IndexError of the written guard are not modelled: embedding or FAISS failures, and a dimension mismatch.
- `main`: reading stdin, `ast.literal_eval`, the `print` of each question, logging and `Generate_Main` are not modelled.
  - `Engine.AnswerQuestions` takes the uploaded paths and the questions text as parameters.
  - It returns the list of results that `main` hands to `Generate_Main`.
- `fine_tune_model` (a no-op), the module-level `nltk.download` and `pip install`, `app.py` (the PyQt6 front end) and `generate.py` (GPT-2 generation) are not part of this model.

## Findings

| source | as written | input that shows it | evidently intended | confidence | as-written member | corrected member |
|---|---|---|---|---|---|---|
| extract.py:115-120 | the guard `idx < len(self.metadata)` admits the label -1 that FAISS pads with when fewer than top_k vectors are stored, and `list(self.metadata.keys())[-1]` is the last key | one stored chunk and top_k = 5: labels [0, -1, -1, -1, -1] resolve to five copies of chunk 0; no stored chunk: `list(...)[-1]` raises IndexError | resolve only labels with 0 <= idx < len(self.metadata): one result in the first case and no results, without an error, in the second | high; not executed | Resolution.AdmittedAsWritten (shown by Resolution.PaddingRepeatsLastKey, Resolution.OneChunkAnsweredFiveTimes, Resolution.EmptyIndexRaises) | Resolution.Admitted (proved by Resolution.AdmittedOfSearch, used by Engine.DocumentQA.ScoreCandidates) |
