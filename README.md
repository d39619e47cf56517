# Agentic-RAG core, modelled in Dafny

This project models the deterministic logic of a medical retrieval-augmented
question-answering backend. The logic surrounds the external services, and comes in four parts:

- **Ingestion**. Each PDF in the intake directory has its page text extracted and joined with
  newlines, then cut into 500-word chunks. Every chunk is embedded and staged as one row of the
  `test.documents` table. The rows are committed once per file, and the file is then moved to the
  `processed` directory.
- **Retrieval**. The query is embedded, the distance-ordered `LIMIT top_k` query is answered over
  the rows, and each row is mapped to a `Document`.
- **Agent post-processing**. Around the opaque reasoning loop, the agent:
  - extracts the answer from the heterogeneous result;
  - accounts input and output tokens, with a word-count fallback;
  - computes the linear cost estimate and the retrieval statistics;
  - builds the seven metrics;
  - returns a fixed error string when anything raises;
  - issues the `start_run`/`end_run` tracking calls in order.
- **Evaluation**. For each sample, a hit records whether the expected file is among the `k`
  retrieved documents, and hit-rate@k is the mean of the hits.

The external services are parameters of the model. Each one is a function that either answers or
stands for an exception:

- pypdf page extraction: `string -> Option<Pages>`;
- the embedding service: `Embedder`;
- pgvector's `<=>`: `Distance`;
- the LangGraph invocation: `Invocation`;
- the tracking server's calls: `Outcome`.

The database table is an in-memory sequence of rows. Tracking calls are kept as a ghost trace of
`Event`s on a `Tracker`.

Files and modules:

| file | module | models |
|---|---|---|
| `wrappers.dfy` | `Wrappers` | `Option`, `Result`, and `Outcome` (a call returned or raised `e`) |
| `text.dfy` | `TextSplit` | Python's no-argument `str.split()` and `sep.join()` |
| `store.dfy` | `Store` | the row shape of `test.documents` and the 1536-dimension embedding |
| `stats.dfy` | `Stats` | sum and mean (0.0 for an empty list) |
| `telemetry.dfy` | `Telemetry` | `start_run`/`end_run`, as a trace of calls |
| `ingest_pdfs.dfy` | `IngestPdfs` | `chunk_text`, `extract_pdf_text`, and the `ingest_pdfs` pass over a directory/session state |
| `retriever.dfy` | `Retriever` | `PgVectorRetriever` and the kNN query as a specification function |
| `agent.dfy` | `Agent` | `MedicalAgent` and the post-processing of `run` |
| `run_eval.dfy` | `RunEval` | `run_evaluation` |

## Behaviour the model takes from the code

- **Failures in ingestion.** A failing document is not skipped with the batch carrying on: the
  code has no exception handler, so the first extraction or embedding failure ends the whole pass.
  The failing file's rows stay staged and uncommitted.
- **Retriever statistics.** `PgVectorRetriever` keeps no call count and no distance list, so the
  agent logs `retrieval_count` 0 and `avg_chunk_distance` 0.0.
- **Failed runs.** The `except` branch issues no `end_run` of its own. A failure after
  `start_run` returned leaves the run open with only its five parameters logged. A failure inside
  `end_run` leaves whatever that call had already logged. A failure in `start_run` itself makes
  `run` return the error answer before the agent is invoked. The model records only that the call was made, not what it
  logged before raising.

## Model

| member | source | states |
|---|---|---|
| `TextSplit.Words` | backend/app/ingestion/ingest_pdfs.py:21 | every piece `str.split()` returns is non-empty and free of whitespace |
| `TextSplit.WordsEmptyIffBlank` | backend/app/ingestion/ingest_pdfs.py:21 | a text splits into no words exactly when all its characters are whitespace |
| `TextSplit.WordsAroundSpace` | backend/app/ingestion/ingest_pdfs.py:21 | a whitespace character never joins the words on its two sides |
| `TextSplit.Join` | backend/app/ingestion/ingest_pdfs.py:23-35 | `sep.join(parts)`, as at lines 23 and 35: the parts in order with `sep` between each neighbouring pair, "" for no parts |
| `TextSplit.WordsOfJoin` | backend/app/ingestion/ingest_pdfs.py:35 | joining parts with a whitespace separator keeps every part's words, in order, and adds none |
| `TextSplit.JoinSplitRoundTrip` | backend/app/ingestion/ingest_pdfs.py:23 | round trip: `" ".join(ws).split() == ws` for every list of words |
| `TextSplit.JoinEmptyIffNoParts` | backend/app/ingestion/ingest_pdfs.py:35 | a join of non-empty parts is "" exactly when there are no parts |
| `IngestPdfs.ChunkText` | backend/app/ingestion/ingest_pdfs.py:20-23 | `list(chunk_text(text, size))`: the `" ".join` of each successive window of `size` words of `text.split()`, the last window possibly shorter; its count, contents and round trip are the lemmas below |
| `IngestPdfs.Windows` | backend/app/ingestion/ingest_pdfs.py:22-23 | the slices `words[i:i + size]` for `i` in `range(0, len(words), size)`, in order, the last one possibly shorter |
| `IngestPdfs.WindowCount` | backend/app/ingestion/ingest_pdfs.py:22 | `range(0, N, size)` gives ceil(N/size) windows |
| `IngestPdfs.WindowAt` | backend/app/ingestion/ingest_pdfs.py:22-23 | window k is `words[k*size : min(k*size+size, N)]` |
| `IngestPdfs.WindowsFlatten` | backend/app/ingestion/ingest_pdfs.py:22-23 | the windows, concatenated in order, give back the word list |
| `IngestPdfs.ChunkCount` | backend/app/ingestion/ingest_pdfs.py:21-23 | `chunk_text` yields ceil(N/size) chunks for N words, and none exactly when the text is all whitespace |
| `IngestPdfs.ChunkWords` | backend/app/ingestion/ingest_pdfs.py:22-23 | re-splitting chunk k gives exactly its word slice; every chunk but the last has `size` words; the last has 1..size; no chunk is "" |
| `IngestPdfs.ChunkRoundTrip` | backend/app/ingestion/ingest_pdfs.py:21-23 | the chunks' words, concatenated in chunk order, are `text.split()` |
| `IngestPdfs.TextPages` | backend/app/ingestion/ingest_pdfs.py:30-33 | every page text kept is non-empty |
| `IngestPdfs.TextPagesMembership` | backend/app/ingestion/ingest_pdfs.py:30-33 | a text is kept exactly when it is non-empty and some page yields it |
| `IngestPdfs.TextPagesAppend` | backend/app/ingestion/ingest_pdfs.py:30-33 | the filter keeps page order: the text pages of `a + b` are those of `a` followed by those of `b` |
| `IngestPdfs.PdfTextEmpty` | backend/app/ingestion/ingest_pdfs.py:28-35 | the extracted text is "" exactly when no page has text |
| `IngestPdfs.PdfTextWords` | backend/app/ingestion/ingest_pdfs.py:35 | the newline join neither merges nor splits words: the PDF's words are its pages' words, page by page |
| `IngestPdfs.PdfText` | backend/app/ingestion/ingest_pdfs.py:26-35 | the value `extract_pdf_text` returns for a readable PDF: the texts of the pages that have text, in page order, joined with "\n" |
| `IngestPdfs.ExtractPdfText` | backend/app/ingestion/ingest_pdfs.py:26-35 | the page loop returns the newline join of the pages with text, in page order, and fails when the reader fails |
| `IngestPdfs.IsPdf` | backend/app/ingestion/ingest_pdfs.py:50 | `file.endswith(".pdf")`: the last four characters are exactly ".pdf", case-sensitive |
| `IngestPdfs.PdfEntriesAppend` | backend/app/ingestion/ingest_pdfs.py:49-50 | the filter keeps listing order: the PDF entries of `a + b` are those of `a` followed by those of `b` |
| `IngestPdfs.PdfEntries` | backend/app/ingestion/ingest_pdfs.py:49-50 | only names ending in ".pdf" (case-sensitive) that are in the listing are picked up |
| `IngestPdfs.PdfEntriesComplete` | backend/app/ingestion/ingest_pdfs.py:49-50 | every ".pdf" entry of the listing is picked up |
| `IngestPdfs.PdfEntriesDistinct` | backend/app/ingestion/ingest_pdfs.py:49-50 | a listing without repeats gives PDF entries without repeats |
| `IngestPdfs.EmbeddedPrefix` | backend/app/ingestion/ingest_pdfs.py:56-57 | the count of leading chunks that embed: each of them embeds, and the next one fails |
| `IngestPdfs.RunFile` | backend/app/ingestion/ingest_pdfs.py:50-71 | what the loop body does with one PDF: no rows and incomplete when reading raises; otherwise one row per chunk up to the first chunk whose embedding raises, complete exactly when every chunk embedded |
| `IngestPdfs.Visited` | backend/app/ingestion/ingest_pdfs.py:46-74 | the files the `for file in os.listdir(...)` loop visits, in listing order: non-PDF entries skipped, the loop ending after the first file that raises |
| `IngestPdfs.RunFileRows` | backend/app/ingestion/ingest_pdfs.py:54-64 | one row per chunk, in chunk order, with that file's name and chunk, up to the first chunk that fails to embed; nothing when the PDF cannot be read |
| `IngestPdfs.PassVisitsPdfPrefix` | backend/app/ingestion/ingest_pdfs.py:46-74 | the pass visits the PDF entries in listing order, up to and including the first failure; every file before it completed; with no failure it visits all of them |
| `IngestPdfs.PassStopsAtFailure` | backend/app/ingestion/ingest_pdfs.py:46-74 | after a failure, later entries are never visited |
| `IngestPdfs.CommittedRowsOfMoved` | backend/app/ingestion/ingest_pdfs.py:64-71 | every committed row belongs to a file that was moved |
| `IngestPdfs.MovedNames` | backend/app/ingestion/ingest_pdfs.py:66-71 | a file is moved exactly when it was visited and completed |
| `IngestPdfs.MovedArePdfEntries` | backend/app/ingestion/ingest_pdfs.py:49-50 | only ".pdf" entries of the listing are moved; everything else, the `processed` subdirectory included, stays |
| `IngestPdfs.FailedFileNotCommitted` | backend/app/ingestion/ingest_pdfs.py:56-71 | the file that failed has no committed row and is not moved |
| `IngestPdfs.SecondPassSkipsIngested` | backend/app/ingestion/ingest_pdfs.py:69-71 | a later pass over what remains in the intake never re-ingests a moved file, and after a pass without failure it ingests nothing |
| `IngestPdfs.IngestState.constructor` | backend/app/ingestion/ingest_pdfs.py:47 | the initial directories and table, with nothing staged |
| `IngestPdfs.IngestState.OpenSession` | backend/app/ingestion/ingest_pdfs.py:47 | a new session has nothing staged |
| `IngestPdfs.IngestState.Add` | backend/app/ingestion/ingest_pdfs.py:64 | `db.add` appends one row to the staged rows |
| `IngestPdfs.IngestState.Commit` | backend/app/ingestion/ingest_pdfs.py:66 | `db.commit` appends the staged rows to the table, in order, and empties the stage |
| `IngestPdfs.IngestState.MoveToProcessed` | backend/app/ingestion/ingest_pdfs.py:70-71 | the file leaves the intake directory and appears, under the same name, in the processed directory |
| `IngestPdfs.StageChunks` | backend/app/ingestion/ingest_pdfs.py:56-64 | the chunk loop stages exactly the rows of the chunks before the first embedding failure, and reports whether all embedded |
| `IngestPdfs.IngestFile` | backend/app/ingestion/ingest_pdfs.py:50-71 | one PDF: on success its rows are committed once after all chunks and it is moved; on failure nothing is committed or moved |
| `IngestPdfs.VisitEntry` | backend/app/ingestion/ingest_pdfs.py:49-50 | one loop iteration: a non-PDF entry changes nothing; a PDF is ingested |
| `IngestPdfs.VisitPdf` | backend/app/ingestion/ingest_pdfs.py:50-71 | one PDF iteration, as a step of the pass |
| `IngestPdfs.RunIngestion` | backend/app/ingestion/ingest_pdfs.py:46-74 | the whole pass: intake, processed directory, table, staged rows, call trace (adds, then one commit, then the move, per file) and outcome are those of the pass |
| `Retriever.Score` | backend/app/rag/retriever.py:18 | one scored row per table row |
| `Retriever.Insert` | backend/app/rag/retriever.py:20 | places a row before the first row that is not nearer than it; the sort inserts each row into the sorted rest of the table, so a row precedes the later rows at its distance |
| `Retriever.SortByDistance` | backend/app/rag/retriever.py:20 | `ORDER BY embedding <=> q` over the scored rows, rows at equal distance kept in table order |
| `Retriever.InsertSortedPerm` | backend/app/rag/retriever.py:20 | inserting into a distance-sorted list keeps it sorted and adds exactly that row |
| `Retriever.SortSortedPerm` | backend/app/rag/retriever.py:20 | `ORDER BY distance` gives a distance-sorted permutation of the rows |
| `Retriever.Knn` | backend/app/rag/retriever.py:17-22 | the rows of `ORDER BY embedding <=> q LIMIT top_k`: the scored rows sorted by distance (ties in table order), the first min(top_k, M) of them |
| `Retriever.KnnIsNearest` | backend/app/rag/retriever.py:17-22 | the query returns min(top_k, M) rows, in non-decreasing distance, each row at most once, and no row left out is nearer than one returned |
| `Retriever.PrefixIsNearest` | backend/app/rag/retriever.py:20-21 | the first n rows of a sorted list are no farther than any of the rest |
| `Retriever.ToDocuments` | backend/app/rag/retriever.py:30-38 | one document per row |
| `Retriever.Retrieve` | backend/app/rag/retriever.py:11-39 | what `get_relevant_information` returns or raises: the embedding error, else the error of a negative `LIMIT`, else one `Document` per kNN row |
| `Retriever.RetrieveShape` | backend/app/rag/retriever.py:13-39 | min(top_k, M) documents, nearest first; the i-th from the i-th row, with `page_content` its chunk and metadata its id, file name and distance; the embedding error is raised first, then the negative-limit one |
| `Retriever.RetrievedFromTable` | backend/app/rag/retriever.py:33-37 | every returned document copies the fields of some row of the table |
| `Retriever.PgVectorRetriever.constructor` | backend/app/rag/retriever.py:7-9 | `embeddings` and `top_k` (default 10) are set once |
| `Retriever.PgVectorRetriever.GetRelevantInformation` | backend/app/rag/retriever.py:11-39 | the row-to-document loop returns what the retrieval specification returns, and only reads the table |
| `Telemetry.Tracker.LogStartRun` | backend/app/mlflow_logger.py:4-7 | `start_run` appends one start event with its name and parameters |
| `Telemetry.Tracker.LogEndRun` | backend/app/mlflow_logger.py:10-15 | `end_run` appends one end event with its metrics and artifacts |
| `Telemetry.Tracker.LogInvoke` | backend/app/rag/agent.py:73-75 | the agent invocation is recorded with its query and recursion limit |
| `Agent.MessageText` | backend/app/rag/agent.py:85-90 | the answer one message yields: its `content` attribute, else its `'content'` key with default '', else `str(msg)` |
| `Agent.ExtractAnswer` | backend/app/rag/agent.py:79-94 | the answer `run` extracts: the last message's text for a dict with a non-empty message list, else its `"output"` entry, else `str(result)`; `str(result)` for a non-dict result |
| `Agent.OnlyLastMessageMatters` | backend/app/rag/agent.py:82-90 | with a non-empty message list only the last message decides the answer |
| `Agent.AnswerSource` | backend/app/rag/agent.py:80-94 | the answer is taken from the last message's `content` attribute, else its `'content'` key (default ''), else `str(msg)`; with no messages from `output`, else `str(result)`; from `str(result)` for a non-dict result |
| `Agent.InputUsage` | backend/app/rag/agent.py:97-103 | the input tokens summed over the messages whose `usage_metadata` is a dict, a missing or falsy entry counting 0 |
| `Agent.OutputUsage` | backend/app/rag/agent.py:97-103 | the output tokens summed in the same way |
| `Agent.UsageZeroIff` | backend/app/rag/agent.py:97-103 | the reported sums are zero exactly when no message reports a positive count; messages without a usage dict add nothing |
| `Agent.UsageAppend` | backend/app/rag/agent.py:99-103 | the usage sums add up over a split of the message list |
| `Agent.WithFallback` | backend/app/rag/agent.py:105-109 | a counter that is 0 is replaced by the number of words of its text; any other value is kept |
| `Agent.FallbackZeroIff` | backend/app/rag/agent.py:106-109 | after the fallback a counter is zero exactly when nothing was reported and the text has no words; a positive report is kept |
| `Agent.FinalInputZeroIff` | backend/app/rag/agent.py:97-109 | the logged input count is 0 exactly when no message reported input tokens and the query has no words |
| `Agent.AccountTokens` | backend/app/rag/agent.py:96-109 | the usage loop and the two independent fallbacks give the reported sums, with each zero sum replaced by a word count |
| `Agent.EstimatedCost` | backend/app/rag/agent.py:111-114 | the cost is non-negative, and zero exactly when both counts are zero |
| `Agent.CostMonotone` | backend/app/rag/agent.py:111-114 | more tokens never cost less |
| `Agent.CostAdditive` | backend/app/rag/agent.py:111-114 | the cost is linear: two batches cost the sum of their costs |
| `Agent.StatsOf` | backend/app/rag/agent.py:134-137 | `retrieval_count` is the `call_count` attribute or 0; `avg_chunk_distance` is the mean of the `distances` attribute, or 0.0 when it is missing or empty |
| `Agent.AverageWithinDistances` | backend/app/rag/agent.py:134-137 | the average distance lies between any bounds of the distances, and is 0.0 with none |
| `Agent.PgVectorStats` | backend/app/rag/agent.py:134-137 | for `PgVectorRetriever`, which lacks both attributes, the stats are 0 and 0.0 |
| `Agent.SuccessMetrics` | backend/app/rag/agent.py:142-150 | exactly the seven metric keys |
| `Agent.InferenceParams` | backend/app/rag/agent.py:63-71 | exactly the five run parameters |
| `Agent.ErrorAnswer` | backend/app/rag/agent.py:156-161 | the error answer starts with the fixed apology and error tag and continues with exactly the exception's message, its length the sum of the two |
| `Agent.ErrorAnswerInjective` | backend/app/rag/agent.py:156-161 | distinct exceptions give distinct error answers |
| `Agent.RunSpec` | backend/app/rag/agent.py:55-161 | the answer `run` returns and the calls it issues, for each way its outward calls can return or raise; its properties are the three lemmas below |
| `Agent.RunSuccess` | backend/app/rag/agent.py:55-154 | on success: one `start_run`, then the invocation, then one `end_run`, with the seven metrics (the measured latency, fallback token counts, their cost, the word count of the answer, default retrieval stats) and the `retrieval_trace` artifact; the extracted answer is returned |
| `Agent.RunOrdering` | backend/app/rag/agent.py:55-161 | on every path `start_run` comes first and only once; the invocation comes only after it; `end_run`, if issued, is last |
| `Agent.RunErrorPath` | backend/app/rag/agent.py:156-161 | an exception gives the error answer for the first exception raised, and `end_run` appears only when it is `end_run` that raised |
| `Agent.MedicalAgent.constructor` | backend/app/rag/agent.py:26-30 | defaults "gpt-4o-mini", temperature 0 and top_k 10; the retriever is built with the same embeddings and top_k |
| `Agent.MedicalAgent.Run` | backend/app/rag/agent.py:44-161 | `run` returns the answer of the run specification and issues exactly its calls |
| `Stats.Sum` | backend/app/rag/agent.py:136-137 | `sum(xs)`, 0.0 for an empty list |
| `Stats.MeanOrZero` | backend/app/rag/agent.py:136-137 | `sum(xs) / len(xs) if xs else 0.0`, the form `mean(hits) if hits else 0.0` of backend/app/evaluation/run_eval.py:36 takes too |
| `Stats.SumBounds` | backend/app/rag/agent.py:136-137 | bounding the elements bounds the sum by the count times the bound |
| `Stats.MeanBetween` | backend/app/evaluation/run_eval.py:36 | the mean of a non-empty list lies between any bounds of its elements, and the empty list gives 0.0 |
| `Stats.SumOfIndicators` | backend/app/evaluation/run_eval.py:34-36 | a list of 0.0s and 1.0s sums to its number of 1.0s |
| `Stats.CountAllIff` | backend/app/evaluation/run_eval.py:36 | the count of a value equals the length exactly when every element has that value |
| `RunEval.FileNames` | backend/app/evaluation/run_eval.py:29-31 | the set of truthy `file_name` values among the retrieved documents: missing and empty names are left out |
| `RunEval.SampleHit` | backend/app/evaluation/run_eval.py:33-34 | 1.0 when the expected file name is in that set, else 0.0 |
| `RunEval.SampleHitIff` | backend/app/evaluation/run_eval.py:29-34 | a sample hits exactly when some retrieved document names the expected file and that name is neither missing nor empty; the value is 1.0 or 0.0 |
| `RunEval.EvalHits` | backend/app/evaluation/run_eval.py:22-34 | the `hits` list after the loop over the samples, or the error of the first lookup that raised |
| `RunEval.EvalHitsShape` | backend/app/evaluation/run_eval.py:22-34 | one hit per sample, in sample order, each that sample's lookup hit; the loop finishes exactly when every lookup succeeds |
| `RunEval.EvalHitsFailureSticks` | backend/app/evaluation/run_eval.py:24-28 | a lookup that raises ends the evaluation with that error |
| `RunEval.HitRate` | backend/app/evaluation/run_eval.py:36 | `mean(hits) if hits else 0.0` |
| `RunEval.HitRateFacts` | backend/app/evaluation/run_eval.py:36 | hit-rate is hits/samples (0.0 for none); it lies in [0,1] and is 1.0 exactly when there are samples and all of them hit |
| `RunEval.EvalOutcome` | backend/app/evaluation/run_eval.py:14-48 | what `run_evaluation` ends with: the hit rate it logs when every lookup returns, else the first lookup error, which escapes |
| `RunEval.EvalHitRate` | backend/app/evaluation/run_eval.py:22-36 | a finished evaluation's hit-rate lies in [0,1], and is 1.0 exactly when there is a sample and each one's expected file is retrieved |
| `RunEval.LookupBounded` | backend/app/evaluation/run_eval.py:20-28 | each lookup returns at most k documents |
| `RunEval.EvalParams` | backend/app/evaluation/run_eval.py:38-44 | the run's parameters are exactly `top_k` = k and `num_questions` = the number of samples |
| `RunEval.RunEvaluation` | backend/app/evaluation/run_eval.py:14-48 | returns hit-rate@k or the first lookup error; the tracking run starts only after every sample, logs `top_k` and `num_questions`, then the single metric `hit_rate_at_k`; nothing is logged when a lookup raises |

## Left out

- I/O is modelled only through parameters. PDF reading, the embedding service, the agent
  invocation and the tracking server are oracles, and the SQL session and the filesystem are
  in-memory fields.
- The JSON trace file (`backend/app/rag/agent.py:116-126`) is reduced to an outcome that returns
  or raises, plus the path the temporary directory gives. Its content and the timestamp in its name
  are not modelled.
- Time is a parameter: the latency is given as a value, not measured with a clock.
- Floating point is modelled as `real`, for cost, mean distance and hit-rate; IEEE rounding is not
  modelled.
- Prints and tracebacks are not modelled.
- The LangGraph reasoning loop, and the chat model and tools it is built with
  (`backend/app/rag/agent.py:27-42`), are one uninterpreted `Invocation`. Only the
  `recursion_limit` of 10 it receives is kept.
- `create_retrieval_tool` is imported from `backend/app/rag/retriever.py`, which does not define
  it. The retrieval tool is not part of this model. As written, that import at
  `backend/app/rag/agent.py:3` raises `ImportError`, so `MedicalAgent` cannot be constructed and
  `run` never executes. The agent model assumes such a definition exists.
- `backend/app/rag/query_engine.py` is not part of this model. It is an unused duplicate of the
  embed-and-query wrapper, and its only own logic is a projection of the chunk column.
- These files are not part of this model: `backend/app/main.py` (HTTP endpoint),
  `backend/app/config.py` (environment loading), `backend/app/db/db.py` (engine and session
  setup), `backend/app/rag/prompts/__init__.py` (prompt file read, beyond `PROMPT_VERSION`) and
  `frontend/src/App.jsx`. `backend/app/db/models.py` is used only as the row shape.
- `load_eval_dataset`: reading and parsing the JSON dataset is not modelled. Samples are given
  already well-formed, each with a `question` and an `expected_doc_filename`.
- `IngestPdfs.ChunkText` requires a positive size. `range(0, N, 0)` raises in Python, and the
  pass always passes 500.
- `IngestPdfs.RunIngestion`: the `processed` directory is assumed to exist, and `shutil.move`
  into it is assumed to succeed. The ids the database assigns to new rows are not modelled.
- `IngestPdfs.RunIngestion` does not model the session being left open by a pass that raises.
- `Agent.MedicalAgent.Run`: each call's `start_run` outcome is a free parameter of that call.
  In the code, a failed `run` leaves the tracking run open (`backend/app/rag/agent.py:156-161`).
  `mlflow.start_run()` (`backend/app/mlflow_logger.py:6`) then raises while that run is active.
  `backend/app/main.py:5` reuses one agent, so every later `run` in that process fails at
  `start_run`. The model does not carry this state from one call to the next, so it also admits
  a later call whose `start_run` returns.
- `IngestPdfs.RunIngestion` and `Retriever.Retrieve` take every embedding to have exactly
  `EmbeddingDim` (1536) numbers. A vector of another length would make pgvector raise on the
  insert and commit (`backend/app/ingestion/ingest_pdfs.py:64-66`) and on the `<=>` query
  (`backend/app/rag/retriever.py:18-20`). Those errors are not modelled.
- `Retriever.Knn`: the query fixes no order among rows at equal distance. The model takes table
  order, which is one admissible order. `KnnIsNearest` states only what every admissible order
  shares.
- `Retriever.Retrieve`: a row with a NULL chunk or embedding is not modelled; every stored row has
  a 1536-number embedding.
- `Agent.ExtractAnswer`:
  - message content is a string, so list-valued content is not modelled;
  - an `output` entry holding a non-string value is not modelled;
  - `str(...)` of a message or a result is an opaque given string.
- `Agent.AccountTokens`: usage values are non-negative integers. Values that make `int()` raise,
  or that are negative, are not modelled.
- `RunEval.RunEvaluation` does not model an exception raised by `start_run` or `end_run` of the
  evaluation. Both calls are taken to succeed.
- There is no concurrency in the code.
