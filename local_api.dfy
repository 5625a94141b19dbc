/**
 * `rewrite_query` of the local service (api.py): the question is sent to the
 * in-process model as a streaming chat completion, the stream is consumed
 * under the latency budget, the stream is closed with any error swallowed,
 * and the buffer is parsed into queries.
 */
module LocalApi {
  import opened Wrappers
  import opened Text
  import opened StreamLoop
  import opened Parse
  import opened Rewriter

  /**
   * One chunk of the local stream: the `content` of its delta (`None` when
   * the delta has no `content` key, as the first and the last chunk do) and
   * the clock reading taken after it, in milliseconds since the request.
   */
  datatype Chunk = Chunk(content: Option<string>, elapsedMs: real)

  /** The stop sequences passed to the local model. */
  const StopSequences := ["\n\n", "</", "\n</", "\n\n\n", "</search_queries>"]

  /** The arguments of the local streaming completion for `question`. */
  function Request(question: string): CompletionRequest
  {
    CompletionRequest(None, [SystemPrompt, UserQuestion(question)], DynamicMaxTokens(|question|),
                      Temperature, TopP, StopSequences)
  }

  /** Whatever the question, the request's token budget lies in [12, 20]. */
  lemma RequestBudget(question: string)
    ensures MinTokens <= Request(question).maxTokens <= MaxTokens
  {
  }

  /** `.get("content", "")`: a missing content reads as the empty string. */
  function ToStep(chunk: Chunk): (step: Step)
    ensures chunk.content.Some? ==> step.delta == chunk.content
    ensures chunk.content.None? ==> step.delta == Some("")
    ensures step.elapsedMs == chunk.elapsedMs
  {
    Step(Some(chunk.content.GetOr("")), chunk.elapsedMs)
  }

  /** The stream as the consume loop sees it. */
  function Steps(chunks: seq<Chunk>): seq<Step>
  {
    seq(|chunks|, i requires 0 <= i < |chunks| => ToStep(chunks[i]))
  }

  /** Every local delta is a string, so the loop never skips an item. */
  lemma {:induction false} EveryDeltaIsText(chunks: seq<Chunk>)
    ensures TextSteps(Steps(chunks)) == Steps(chunks)
    decreases |chunks|
  {
    if chunks != [] {
      var before := chunks[..|chunks| - 1];
      assert Steps(chunks)[..|chunks| - 1] == Steps(before);
      EveryDeltaIsText(before);
      assert Steps(chunks) == Steps(before) + [ToStep(chunks[|chunks| - 1])];
    }
  }

  /**
   * `rewrite_query(question, desired_max_latency)`: one streaming request,
   * the consume loop, one close whose failure is swallowed, and the parse.
   */
  method RewriteQuery(question: string, desiredMaxLatency: real, llm: Engine<Chunk>, tailMs: real)
    returns (queries: seq<string>, elapsedTime: real)
    modifies llm
    ensures llm.log == old(llm.log) + [Requested(Request(question)), Closed]
    ensures queries == Queries(question, Steps(llm.reply), desiredMaxLatency)
    ensures elapsedTime == ElapsedTime(Steps(llm.reply), desiredMaxLatency, tailMs)
  {
    var request := Request(question);
    var stream := llm.StartStream(request);
    var st := ConsumeStream(Steps(stream), desiredMaxLatency);
    var _ := llm.Close();
    assert llm.log == old(llm.log) + [Requested(request), Closed];
    queries := ParseQueries(question, st.text);
    elapsedTime := st.elapsedMs + tailMs;
  }

  /**
   * With a monotonic clock, the reported time is non-negative and no smaller
   * than the clock reading taken at any chunk the loop consumed.
   */
  lemma ElapsedCoversConsumed(chunks: seq<Chunk>, latency: real, tailMs: real)
    requires ClockMonotone(Steps(chunks)) && 0.0 <= tailMs
    ensures 0.0 <= ElapsedTime(Steps(chunks), latency, tailMs)
    ensures forall j :: 0 <= j < |chunks| && j < Run(Steps(chunks), latency).consumed ==>
              chunks[j].elapsedMs <= ElapsedTime(Steps(chunks), latency, tailMs)
  {
    RunClock(Steps(chunks), latency);
    forall j | 0 <= j < |chunks| && j < Run(Steps(chunks), latency).consumed
      ensures chunks[j].elapsedMs <= ElapsedTime(Steps(chunks), latency, tailMs)
    {
      assert Steps(chunks)[j] == ToStep(chunks[j]);
    }
  }

  /**
   * Every chunk consumed before the last one arrived within 90% of the
   * budget, and so did the last one unless the hard cut-off fired on it.
   */
  lemma ConsumedWithinBudget(chunks: seq<Chunk>, latency: real)
    ensures var st := Run(Steps(chunks), latency);
            forall j :: 0 <= j < |chunks| && j < st.consumed && (j + 1 < st.consumed || st.phase != HardCut) ==>
              chunks[j].elapsedMs <= 0.9 * latency
  {
    ReadingsWithinBudget(Steps(chunks), latency);
    var st := Run(Steps(chunks), latency);
    forall j | 0 <= j < |chunks| && j < st.consumed && (j + 1 < st.consumed || st.phase != HardCut)
      ensures chunks[j].elapsedMs <= 0.9 * latency
    {
      assert Steps(chunks)[j] == ToStep(chunks[j]);
    }
  }

  /** When no delta carries a newline except as its last character, at most three queries come back. */
  lemma AtMostThreeLocalQueries(question: string, chunks: seq<Chunk>, latency: real)
    requires forall j :: 0 <= j < |chunks| ==> NewlineOnlyAtEnd(chunks[j].content.GetOr(""))
    ensures |Queries(question, Steps(chunks), latency)| <= 3
  {
    var steps := Steps(chunks);
    forall j | 0 <= j < |steps| && steps[j].delta.Some?
      ensures NewlineOnlyAtEnd(steps[j].delta.value)
    {
      assert steps[j] == ToStep(chunks[j]);
    }
    AtMostThreeQueries(question, steps, latency);
  }
}
