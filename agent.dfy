/** What `MedicalAgent.run` (backend/app/rag/agent.py) does around the opaque
    reasoning loop: it opens a tracking run, invokes the agent, extracts the answer
    from whatever the agent returned, accounts tokens and cost, closes the run with
    seven metrics and the trace artifact, and turns any exception into a fixed
    error answer. */
module Agent {
  import opened Wrappers
  import opened TextSplit
  import opened Retriever
  import opened Telemetry
  import opened Stats

  /** Price of a thousand input and output tokens, in US dollars. */
  const InputCostPer1K: real := 0.00015
  const OutputCostPer1K: real := 0.00060

  /** `config={"recursion_limit": 10}`. */
  const RecursionLimit: nat := 10

  /** `PROMPT_VERSION` (backend/app/rag/prompts/__init__.py). */
  const PromptVersion: string := "system_v1"

  /** The `usage_metadata` attribute of a message: a dict with the two counters
      (a missing, `None` or `0` entry reads as 0), or anything else (absent,
      `None`, not a dict), which contributes nothing. */
  datatype Usage = UsageDict(inputTokens: nat, outputTokens: nat) | NoUsageDict

  /** The message shapes the agent's result can hold. */
  datatype Message =
    | WithContent(content: string, usage: Usage)   // an object with a `content` attribute
    | MappingMessage(entry: Option<string>)       // a plain dict; dicts have no `usage_metadata` attribute
    | OpaqueMessage(repr: string, usage: Usage)    // anything else; `repr` is `str(msg)`

  /** What `agent.invoke` returns: a dict (with its `"messages"` list, `[]` when
      the key is missing, its `"output"` entry if any, and `str(result)`), or some
      other value, seen only through `str(result)`. */
  datatype AgentResult =
    | Mapping(messages: seq<Message>, output: Option<string>, repr: string)
    | NonMapping(repr: string)

  /** The `messages` list the token loop walks: empty unless the result is a dict. */
  function Messages(result: AgentResult): seq<Message> {
    match result
    case Mapping(msgs, _, _) => msgs
    case NonMapping(_) => []
  }

  /** The answer a single message yields. */
  function MessageText(m: Message): string {
    match m
    case WithContent(c, _) => c
    case MappingMessage(c) => c.GetOr("")
    case OpaqueMessage(r, _) => r
  }

  /** The final answer extracted from the agent's result. */
  function ExtractAnswer(result: AgentResult): string {
    match result
    case Mapping(msgs, output, repr) =>
      if |msgs| > 0 then MessageText(msgs[|msgs| - 1]) else output.GetOr(repr)
    case NonMapping(repr) => repr
  }

  /** With a non-empty message list only the last message decides the answer: the
      earlier messages, the `"output"` entry and `str(result)` play no part. */
  lemma OnlyLastMessageMatters(r1: AgentResult, r2: AgentResult)
    requires r1.Mapping? && r2.Mapping?
    requires |r1.messages| > 0 && |r2.messages| > 0
    requires r1.messages[|r1.messages| - 1] == r2.messages[|r2.messages| - 1]
    ensures ExtractAnswer(r1) == ExtractAnswer(r2)
  {
  }

  /** Where the answer comes from: the last message's `content` attribute, else
      its `'content'` key (default `''`), else `str(msg)`; with no messages the
      `"output"` entry, else `str(result)`; for a non-dict result `str(result)`. */
  lemma AnswerSource(result: AgentResult)
    ensures result.Mapping? && |result.messages| > 0 ==>
              var last := result.messages[|result.messages| - 1];
              && (last.WithContent? ==> ExtractAnswer(result) == last.content)
              && (last.MappingMessage? ==> ExtractAnswer(result) == last.entry.GetOr(""))
              && (last.OpaqueMessage? ==> ExtractAnswer(result) == last.repr)
    ensures result.Mapping? && result.messages == [] ==>
              ExtractAnswer(result) == (if result.output.Some? then result.output.value else result.repr)
    ensures result.NonMapping? ==> ExtractAnswer(result) == result.repr
  {
  }

  /** The counters a message reports. */
  function UsageOf(m: Message): Usage {
    match m
    case WithContent(_, u) => u
    case MappingMessage(_) => NoUsageDict
    case OpaqueMessage(_, u) => u
  }

  function InputOf(u: Usage): nat {
    match u
    case UsageDict(i, _) => i
    case NoUsageDict => 0
  }

  function OutputOf(u: Usage): nat {
    match u
    case UsageDict(_, o) => o
    case NoUsageDict => 0
  }

  /** Sum of the reported input tokens over the messages, in order. */
  function InputUsage(msgs: seq<Message>): nat
    decreases |msgs|
  {
    if msgs == [] then 0 else InputUsage(msgs[..|msgs| - 1]) + InputOf(UsageOf(msgs[|msgs| - 1]))
  }

  /** Sum of the reported output tokens over the messages, in order. */
  function OutputUsage(msgs: seq<Message>): nat
    decreases |msgs|
  {
    if msgs == [] then 0 else OutputUsage(msgs[..|msgs| - 1]) + OutputOf(UsageOf(msgs[|msgs| - 1]))
  }

  /** The reported sums are zero exactly when no message reports a positive count;
      in particular messages without a usage dict never add anything. */
  lemma {:induction false} UsageZeroIff(msgs: seq<Message>)
    ensures InputUsage(msgs) == 0 <==> forall i :: 0 <= i < |msgs| ==> InputOf(UsageOf(msgs[i])) == 0
    ensures OutputUsage(msgs) == 0 <==> forall i :: 0 <= i < |msgs| ==> OutputOf(UsageOf(msgs[i])) == 0
    decreases |msgs|
  {
    if msgs != [] {
      var init := msgs[..|msgs| - 1];
      assert forall i :: 0 <= i < |init| ==> init[i] == msgs[i];
      UsageZeroIff(init);
    }
  }

  /** The usage sums add up over a split of the message list. */
  lemma {:induction false} UsageAppend(a: seq<Message>, b: seq<Message>)
    ensures InputUsage(a + b) == InputUsage(a) + InputUsage(b)
    ensures OutputUsage(a + b) == OutputUsage(a) + OutputUsage(b)
    decreases |b|
  {
    if b == [] {
      assert a + b == a;
    } else {
      var init := b[..|b| - 1];
      assert (a + b)[..|a + b| - 1] == a + init;
      UsageAppend(a, init);
    }
  }

  /** The word-count fallback: a zero counter is replaced by `len(text.split())`. */
  function WithFallback(reported: nat, text: string): nat {
    if reported == 0 then |Words(text)| else reported
  }

  /** A counter stays zero after the fallback exactly when nothing was reported
      and the text is all whitespace; a positive report is kept as it is. */
  lemma FallbackZeroIff(reported: nat, text: string)
    ensures WithFallback(reported, text) == 0 <==> reported == 0 && forall i :: 0 <= i < |text| ==> IsSpace(text[i])
    ensures reported > 0 ==> WithFallback(reported, text) == reported
  {
    WordsEmptyIffBlank(text);
  }

  /** The logged input count is 0 only if no message reported input tokens and the
      query has no words. */
  lemma FinalInputZeroIff(msgs: seq<Message>, query: string)
    ensures WithFallback(InputUsage(msgs), query) == 0 <==>
              && (forall i :: 0 <= i < |msgs| ==> InputOf(UsageOf(msgs[i])) == 0)
              && Words(query) == []
  {
    UsageZeroIff(msgs);
  }

  /** The token loop followed by the two independent fallbacks. */
  method AccountTokens(messages: seq<Message>, query: string, answer: string)
    returns (inputTokens: nat, outputTokens: nat)
    ensures inputTokens == WithFallback(InputUsage(messages), query)
    ensures outputTokens == WithFallback(OutputUsage(messages), answer)
  {
    inputTokens, outputTokens := 0, 0;
    for i := 0 to |messages|
      invariant inputTokens == InputUsage(messages[..i])
      invariant outputTokens == OutputUsage(messages[..i])
    {
      assert messages[..i + 1][..i] == messages[..i];
      var usage := UsageOf(messages[i]);
      if usage.UsageDict? {
        inputTokens := inputTokens + usage.inputTokens;
        outputTokens := outputTokens + usage.outputTokens;
      }
    }
    assert messages[..|messages|] == messages;
    if inputTokens == 0 {
      inputTokens := |Words(query)|;
    }
    if outputTokens == 0 {
      outputTokens := |Words(answer)|;
    }
  }

  /** `estimated_cost_usd`: linear in both counts, never negative, and zero only
      when both counts are. */
  function EstimatedCost(inputTokens: nat, outputTokens: nat): (cost: real)
    ensures cost >= 0.0
    ensures cost == 0.0 <==> inputTokens == 0 && outputTokens == 0
  {
    (inputTokens as real / 1000.0) * InputCostPer1K + (outputTokens as real / 1000.0) * OutputCostPer1K
  }

  /** More tokens never cost less. */
  lemma CostMonotone(in1: nat, out1: nat, in2: nat, out2: nat)
    requires in1 <= in2 && out1 <= out2
    ensures EstimatedCost(in1, out1) <= EstimatedCost(in2, out2)
  {
  }

  /** The cost of two batches of tokens is the sum of their costs. */
  lemma CostAdditive(in1: nat, out1: nat, in2: nat, out2: nat)
    ensures EstimatedCost(in1 + in2, out1 + out2) == EstimatedCost(in1, out1) + EstimatedCost(in2, out2)
  {
  }

  /** The two optional retriever attributes `run` probes with `getattr`:
      `call_count` and `distances`. */
  datatype RetrieverAttrs = RetrieverAttrs(callCount: Option<int>, distances: Option<seq<real>>)

  /** `PgVectorRetriever` defines neither attribute. */
  const PgVectorAttrs: RetrieverAttrs := RetrieverAttrs(None, None)

  datatype RetrievalStats = RetrievalStats(count: int, avgDistance: real)

  /** `retrieval_count` (default 0) and `avg_chunk_distance`, the mean of the
      distances (0.0 when there are none). */
  function StatsOf(attrs: RetrieverAttrs): RetrievalStats {
    RetrievalStats(attrs.callCount.GetOr(0), MeanOrZero(attrs.distances.GetOr([])))
  }

  /** With a retriever that records distances, the logged average lies between
      the smallest and the largest of them; without any it is 0.0. */
  lemma AverageWithinDistances(attrs: RetrieverAttrs, lo: real, hi: real)
    requires forall i :: 0 <= i < |attrs.distances.GetOr([])| ==> lo <= attrs.distances.GetOr([])[i] <= hi
    ensures attrs.distances.GetOr([]) == [] ==> StatsOf(attrs).avgDistance == 0.0
    ensures attrs.distances.GetOr([]) != [] ==> lo <= StatsOf(attrs).avgDistance <= hi
  {
    MeanBetween(attrs.distances.GetOr([]), lo, hi);
  }

  /** For the agent's own retriever the statistics are the defaults. */
  lemma PgVectorStats()
    ensures StatsOf(PgVectorAttrs) == RetrievalStats(0, 0.0)
  {
  }

  /** The seven metric names `end_run` receives. */
  const MetricKeys: set<string> := {"latency", "retrieval_count", "avg_chunk_distance",
    "answer_length_tokens", "input_tokens", "output_tokens", "estimated_cost_usd"}

  /** The metrics of a successful run. */
  function SuccessMetrics(latency: real, query: string, answer: string, msgs: seq<Message>): (m: map<string, real>)
    ensures m.Keys == MetricKeys
  {
    var inputTokens := WithFallback(InputUsage(msgs), query);
    var outputTokens := WithFallback(OutputUsage(msgs), answer);
    var stats := StatsOf(PgVectorAttrs);
    map[
      "latency" := latency,
      "retrieval_count" := stats.count as real,
      "avg_chunk_distance" := stats.avgDistance,
      "answer_length_tokens" := |Words(answer)| as real,
      "input_tokens" := inputTokens as real,
      "output_tokens" := outputTokens as real,
      "estimated_cost_usd" := EstimatedCost(inputTokens, outputTokens)]
  }

  /** The parameters `start_run` receives. */
  function InferenceParams(modelName: string, temperature: real, topK: int, query: string)
    : (p: map<string, Param>)
    ensures p.Keys == {"model", "temperature", "top_k", "query", "prompt_version"}
  {
    map[
      "model" := PModel(modelName, temperature),
      "temperature" := PReal(temperature),
      "top_k" := PInt(topK),
      "query" := PStr(query),
      "prompt_version" := PStr(PromptVersion)]
  }

  const ErrorPrefix: string := "I encountered an error while processing your query: "
  const ErrorTag: string := "Error in agentic RAG: "

  /** The answer returned when anything in the `try` block raised `e`. */
  function ErrorAnswer(e: string): (r: string)
    ensures |r| == |ErrorPrefix + ErrorTag| + |e|
    ensures r[..|ErrorPrefix + ErrorTag|] == ErrorPrefix + ErrorTag
    ensures r[|ErrorPrefix + ErrorTag|..] == e
  {
    ErrorPrefix + ErrorTag + e
  }

  /** Distinct exceptions give distinct error answers. */
  lemma ErrorAnswerInjective(e1: string, e2: string)
    requires ErrorAnswer(e1) == ErrorAnswer(e2)
    ensures e1 == e2
  {
    var n := |ErrorPrefix + ErrorTag|;
    assert e1 == ErrorAnswer(e1)[n..];
    assert e2 == ErrorAnswer(e2)[n..];
  }

  /** How the outward calls of a run behave: `start_run`, `agent.invoke`, the
      trace file write and `end_run` each return or raise; the clock's reading is
      the latency and the temporary directory gives the trace path. */
  datatype Invocation = Returned(result: AgentResult) | Raised(error: string)
  datatype Env = Env(startRun: Outcome, invoke: Invocation, traceWrite: Outcome, endRun: Outcome,
                     latency: real, tracePath: string)

  /** The answer `run` returns and the calls it issues, in order. */
  datatype RunReport = RunReport(answer: string, events: seq<Event>)

  function RunSpec(modelName: string, temperature: real, topK: int, query: string, env: Env): RunReport {
    var start := StartRun("rag_inference", InferenceParams(modelName, temperature, topK, query));
    var invoke := AgentInvoke(query, RecursionLimit);
    if env.startRun.Fail? then RunReport(ErrorAnswer(env.startRun.error), [start])
    else match env.invoke
      case Raised(e) => RunReport(ErrorAnswer(e), [start, invoke])
      case Returned(result) =>
        var answer := ExtractAnswer(result);
        if env.traceWrite.Fail? then RunReport(ErrorAnswer(env.traceWrite.error), [start, invoke])
        else
          var end := EndRun(SuccessMetrics(env.latency, query, answer, Messages(result)),
                            map["retrieval_trace" := env.tracePath]);
          if env.endRun.Fail? then RunReport(ErrorAnswer(env.endRun.error), [start, invoke, end])
          else RunReport(answer, [start, invoke, end])
  }

  /** Whether every outward call of the run returned normally. */
  predicate AllPass(env: Env) {
    env.startRun.Pass? && env.invoke.Returned? && env.traceWrite.Pass? && env.endRun.Pass?
  }

  /** The success path: one `start_run` before `agent.invoke`, then one `end_run`
      with exactly the seven metrics and the `retrieval_trace` artifact, then the
      extracted answer is returned. The token metrics carry the fallback counts,
      the cost follows from them, and the retrieval statistics are the defaults. */
  lemma RunSuccess(modelName: string, temperature: real, topK: int, query: string, env: Env)
    requires AllPass(env)
    ensures var report := RunSpec(modelName, temperature, topK, query, env);
            var result := env.invoke.result;
            var inputTokens := WithFallback(InputUsage(Messages(result)), query);
            var outputTokens := WithFallback(OutputUsage(Messages(result)), ExtractAnswer(result));
            && report.answer == ExtractAnswer(result)
            && |report.events| == 3
            && report.events[0] == StartRun("rag_inference", InferenceParams(modelName, temperature, topK, query))
            && report.events[1] == AgentInvoke(query, RecursionLimit)
            && report.events[2].EndRun?
            && report.events[2].metrics.Keys == MetricKeys
            && report.events[2].metrics["latency"] == env.latency
            && report.events[2].metrics["answer_length_tokens"] == |Words(ExtractAnswer(result))| as real
            && report.events[2].metrics["input_tokens"] == inputTokens as real
            && report.events[2].metrics["output_tokens"] == outputTokens as real
            && report.events[2].metrics["estimated_cost_usd"] == EstimatedCost(inputTokens, outputTokens)
            && report.events[2].metrics["retrieval_count"] == 0.0
            && report.events[2].metrics["avg_chunk_distance"] == 0.0
            && report.events[2].artifacts == map["retrieval_trace" := env.tracePath]
  {
    PgVectorStats();
  }

  /** On every path `start_run` is the first call and is made once; the agent is
      invoked only after it; `end_run`, if made, is the last call, made once. */
  lemma RunOrdering(modelName: string, temperature: real, topK: int, query: string, env: Env)
    ensures var ev := RunSpec(modelName, temperature, topK, query, env).events;
            && 1 <= |ev| <= 3
            && ev[0].StartRun?
            && (forall i :: 0 < i < |ev| ==> !ev[i].StartRun?)
            && (forall i :: 0 <= i < |ev| && ev[i].AgentInvoke? ==> i == 1)
            && (forall i :: 0 <= i < |ev| && ev[i].EndRun? ==> i == |ev| - 1)
  {
  }

  /** The error path: when some call raises, the answer is the error string for the
      first exception, and `end_run` appears only if it was `end_run` itself that
      raised; the run opened by `start_run` is otherwise left open. */
  lemma RunErrorPath(modelName: string, temperature: real, topK: int, query: string, env: Env)
    requires !AllPass(env)
    ensures var report := RunSpec(modelName, temperature, topK, query, env);
            && (env.startRun.Fail? ==> report.answer == ErrorAnswer(env.startRun.error))
            && (env.startRun.Pass? && env.invoke.Raised? ==> report.answer == ErrorAnswer(env.invoke.error))
            && (env.startRun.Pass? && env.invoke.Returned? && env.traceWrite.Fail? ==>
                  report.answer == ErrorAnswer(env.traceWrite.error))
            && (env.startRun.Pass? && env.invoke.Returned? && env.traceWrite.Pass? ==>
                  report.answer == ErrorAnswer(env.endRun.error))
            && ((exists i :: 0 <= i < |report.events| && report.events[i].EndRun?) <==>
                  env.startRun.Pass? && env.invoke.Returned? && env.traceWrite.Pass?)
  {
    var report := RunSpec(modelName, temperature, topK, query, env);
    if env.startRun.Pass? && env.invoke.Returned? && env.traceWrite.Pass? {
      assert report.events[2].EndRun?;
    }
  }

  /** `MedicalAgent`: the chat model's name and temperature and its retriever are
      fixed by the constructor. */
  class MedicalAgent {
    const modelName: string
    const temperature: real
    const retriever: PgVectorRetriever

    constructor (embeddings: Embedder, modelName: string := "gpt-4o-mini", temperature: real := 0.0, topK: int := 10)
      ensures this.modelName == modelName && this.temperature == temperature
      ensures retriever.embeddings == embeddings && retriever.topK == topK
    {
      this.modelName := modelName;
      this.temperature := temperature;
      retriever := new PgVectorRetriever(embeddings, topK);
    }

    /** `run(query)`: the returned answer and the calls issued are those of
        `RunSpec`. */
    method Run(query: string, env: Env, log: Tracker) returns (answer: string)
      modifies log
      ensures answer == RunSpec(modelName, temperature, retriever.topK, query, env).answer
      ensures log.events == old(log.events) + RunSpec(modelName, temperature, retriever.topK, query, env).events
    {
      log.LogStartRun("rag_inference", InferenceParams(modelName, temperature, retriever.topK, query));
      if env.startRun.Fail? {
        return ErrorAnswer(env.startRun.error);
      }
      log.LogInvoke(query, RecursionLimit);
      if env.invoke.Raised? {
        return ErrorAnswer(env.invoke.error);
      }
      var result := env.invoke.result;
      answer := ExtractAnswer(result);
      var messages := Messages(result);
      var inputTokens, outputTokens := AccountTokens(messages, query, answer);
      var cost := EstimatedCost(inputTokens, outputTokens);
      if env.traceWrite.Fail? {
        return ErrorAnswer(env.traceWrite.error);
      }
      var stats := StatsOf(PgVectorAttrs);
      var metrics := map[
        "latency" := env.latency,
        "retrieval_count" := stats.count as real,
        "avg_chunk_distance" := stats.avgDistance,
        "answer_length_tokens" := |Words(answer)| as real,
        "input_tokens" := inputTokens as real,
        "output_tokens" := outputTokens as real,
        "estimated_cost_usd" := cost];
      log.LogEndRun(metrics, map["retrieval_trace" := env.tracePath]);
      if env.endRun.Fail? {
        return ErrorAnswer(env.endRun.error);
      }
    }
  }
}
