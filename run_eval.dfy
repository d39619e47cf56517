/** Retrieval evaluation (backend/app/evaluation/run_eval.py): for every sample
    question, look up the `k` nearest chunks and record a hit when the expected
    document is among their file names; report hit-rate@k to the tracker. */
module RunEval {
  import opened Wrappers
  import opened Store
  import opened Retriever
  import opened Telemetry
  import opened Stats

  /** One entry of the evaluation dataset. */
  datatype Sample = Sample(question: string, expectedDocFilename: string)

  /** The truthy `file_name` values among the retrieved documents: a missing
      (`None`) or empty name is left out. */
  function FileNames(docs: seq<Document>): set<string> {
    set i | 0 <= i < |docs| && docs[i].metadata.fileName.Some? && docs[i].metadata.fileName.value != ""
      :: docs[i].metadata.fileName.value
  }

  /** `1.0 if expected in retrieved_filenames else 0.0`. */
  function SampleHit(docs: seq<Document>, expected: string): real {
    if expected in FileNames(docs) then 1.0 else 0.0
  }

  /** A sample hits exactly when some retrieved document names the expected file,
      and that name is not empty; the hit value is 1.0 or 0.0. */
  lemma SampleHitIff(docs: seq<Document>, expected: string)
    ensures SampleHit(docs, expected) == 1.0 || SampleHit(docs, expected) == 0.0
    ensures SampleHit(docs, expected) == 1.0 <==>
              expected != "" && exists i :: 0 <= i < |docs| && docs[i].metadata.fileName == Some(expected)
  {
    if SampleHit(docs, expected) == 1.0 {
      var i :| 0 <= i < |docs| && docs[i].metadata.fileName.Some? && docs[i].metadata.fileName.value != ""
        && docs[i].metadata.fileName.value == expected;
      assert docs[i].metadata.fileName == Some(expected);
    }
  }

  /** The `hits` list after the loop over `samples`, or the error of the first
      lookup that raised (which ends the evaluation). */
  function EvalHits(samples: seq<Sample>, embeddings: Embedder, k: int, table: seq<StoredRow>, dist: Distance)
    : Result<seq<real>, RetrievalError>
    decreases |samples|
  {
    if samples == [] then Success([])
    else
      var last := samples[|samples| - 1];
      match EvalHits(samples[..|samples| - 1], embeddings, k, table, dist)
      case Failure(e) => Failure(e)
      case Success(hits) =>
        match Retrieve(embeddings, k, last.question, table, dist)
        case Failure(e) => Failure(e)
        case Success(docs) => Success(hits + [SampleHit(docs, last.expectedDocFilename)])
  }

  /** `hits` has one entry per sample, in sample order: the hit value of that
      sample's lookup. The loop finishes exactly when every lookup succeeds. */
  lemma {:induction false} EvalHitsShape(samples: seq<Sample>, embeddings: Embedder, k: int, table: seq<StoredRow>, dist: Distance)
    ensures var r := EvalHits(samples, embeddings, k, table, dist);
            && (r.Success? <==> forall i :: 0 <= i < |samples| ==>
                                   Retrieve(embeddings, k, samples[i].question, table, dist).Success?)
            && (r.Success? ==>
                  && |r.value| == |samples|
                  && forall i :: 0 <= i < |samples| ==>
                       r.value[i] == SampleHit(Retrieve(embeddings, k, samples[i].question, table, dist).value,
                                               samples[i].expectedDocFilename))
    decreases |samples|
  {
    if samples != [] {
      var init := samples[..|samples| - 1];
      assert forall i :: 0 <= i < |init| ==> init[i] == samples[i];
      EvalHitsShape(init, embeddings, k, table, dist);
    }
  }

  /** A lookup that raised on some prefix makes the whole evaluation raise, with
      the same error. */
  lemma {:induction false} EvalHitsFailureSticks(samples: seq<Sample>, n: nat, embeddings: Embedder, k: int, table: seq<StoredRow>, dist: Distance)
    requires n <= |samples|
    requires EvalHits(samples[..n], embeddings, k, table, dist).Failure?
    ensures EvalHits(samples, embeddings, k, table, dist) == EvalHits(samples[..n], embeddings, k, table, dist)
    decreases |samples| - n
  {
    if n == |samples| {
      assert samples[..n] == samples;
    } else {
      assert samples[..n + 1][..n] == samples[..n];
      EvalHitsFailureSticks(samples, n + 1, embeddings, k, table, dist);
    }
  }

  /** `mean(hits) if hits else 0.0`. */
  function HitRate(hits: seq<real>): real {
    MeanOrZero(hits)
  }

  /** hit-rate@k is the number of hits over the number of samples (0.0 when there
      are none); it lies in [0, 1] and is 1.0 exactly when there are samples and
      every one of them hits. */
  lemma HitRateFacts(hits: seq<real>)
    requires forall i :: 0 <= i < |hits| ==> hits[i] == 0.0 || hits[i] == 1.0
    ensures hits == [] ==> HitRate(hits) == 0.0
    ensures hits != [] ==> HitRate(hits) == (Count(hits, 1.0) as real) / (|hits| as real)
    ensures 0.0 <= HitRate(hits) <= 1.0
    ensures HitRate(hits) == 1.0 <==> hits != [] && forall i :: 0 <= i < |hits| ==> hits[i] == 1.0
  {
    MeanBetween(hits, 0.0, 1.0);
    SumOfIndicators(hits);
    CountAllIff(hits, 1.0);
    if hits != [] {
      QuotientIsOne(Count(hits, 1.0) as real, |hits| as real);
    }
  }

  lemma QuotientIsOne(c: real, n: real)
    requires n > 0.0
    ensures c / n == 1.0 <==> c == n
  {
    assert (c / n) * n == c;
  }

  /** Every lookup of the evaluation returns at most `k` documents. */
  lemma LookupBounded(embeddings: Embedder, k: int, question: string, table: seq<StoredRow>, dist: Distance)
    requires Retrieve(embeddings, k, question, table, dist).Success?
    ensures |Retrieve(embeddings, k, question, table, dist).value| <= k
  {
    RetrieveShape(embeddings, k, question, table, dist);
  }

  /** What `run_evaluation(k)` ends with: the hit-rate@k it logs (and prints; the
      function itself returns `None`), or the first lookup error, which it raises. */
  function EvalOutcome(samples: seq<Sample>, embeddings: Embedder, k: int, table: seq<StoredRow>, dist: Distance)
    : Result<real, RetrievalError>
  {
    match EvalHits(samples, embeddings, k, table, dist)
    case Failure(e) => Failure(e)
    case Success(hits) => Success(HitRate(hits))
  }

  /** A finished evaluation reports a hit-rate in [0, 1], which is 1.0 exactly
      when there is at least one sample and every sample's lookup names its
      expected file. */
  lemma EvalHitRate(samples: seq<Sample>, embeddings: Embedder, k: int, table: seq<StoredRow>, dist: Distance)
    requires EvalOutcome(samples, embeddings, k, table, dist).Success?
    ensures var rate := EvalOutcome(samples, embeddings, k, table, dist).value;
            && 0.0 <= rate <= 1.0
            && (rate == 1.0 <==> samples != [] && forall i :: 0 <= i < |samples| ==>
                  && Retrieve(embeddings, k, samples[i].question, table, dist).Success?
                  && samples[i].expectedDocFilename in
                       FileNames(Retrieve(embeddings, k, samples[i].question, table, dist).value))
  {
    EvalHitsShape(samples, embeddings, k, table, dist);
    var hits := EvalHits(samples, embeddings, k, table, dist).value;
    forall i | 0 <= i < |hits| ensures hits[i] == 0.0 || hits[i] == 1.0 {
      SampleHitIff(Retrieve(embeddings, k, samples[i].question, table, dist).value, samples[i].expectedDocFilename);
    }
    HitRateFacts(hits);
  }

  /** The parameters of the evaluation run. */
  function EvalParams(k: int, numQuestions: nat): (p: map<string, Param>)
    ensures p.Keys == {"top_k", "num_questions"}
    ensures p["top_k"] == PInt(k) && p["num_questions"] == PInt(numQuestions)
  {
    map["top_k" := PInt(k), "num_questions" := PInt(numQuestions)]
  }

  /** `run_evaluation(k)` over the loaded dataset. The tracking run is opened only
      after every sample has been looked up, with `top_k` and `num_questions`, and
      closed with the single metric `hit_rate_at_k` and the dataset artifact; when
      a lookup raises, nothing is logged. The Python function returns `None`: `r`
      stands for the hit-rate it logs, or the exception that escapes it. */
  method RunEvaluation(samples: seq<Sample>, embeddings: Embedder, table: seq<StoredRow>, dist: Distance,
                       datasetPath: string, log: Tracker, k: int := 5)
    returns (r: Result<real, RetrievalError>)
    modifies log
    ensures r == EvalOutcome(samples, embeddings, k, table, dist)
    ensures r.Failure? ==> log.events == old(log.events)
    ensures r.Success? ==> log.events == old(log.events) + [
              StartRun("rag_retrieval_eval", EvalParams(k, |samples|)),
              EndRun(map["hit_rate_at_k" := r.value], map["eval_dataset" := datasetPath])]
  {
    var retriever := new PgVectorRetriever(embeddings, k);
    var hits: seq<real> := [];
    for i := 0 to |samples|
      invariant EvalHits(samples[..i], embeddings, k, table, dist) == Success(hits)
      invariant log.events == old(log.events)
    {
      assert samples[..i + 1][..i] == samples[..i];
      assert samples[..i + 1][i] == samples[i];
      var docs := retriever.GetRelevantInformation(samples[i].question, table, dist);
      if docs.Failure? {
        EvalHitsFailureSticks(samples, i + 1, embeddings, k, table, dist);
        return Failure(docs.error);
      }
      var names := FileNames(docs.value);
      var hit := if samples[i].expectedDocFilename in names then 1.0 else 0.0;
      hits := hits + [hit];
    }
    assert samples[..|samples|] == samples;
    var hitRate := HitRate(hits);
    log.LogStartRun("rag_retrieval_eval", EvalParams(k, |samples|));
    log.LogEndRun(map["hit_rate_at_k" := hitRate], map["eval_dataset" := datasetPath]);
    r := Success(hitRate);
  }
}
