/**
 * `rewrite_query` of the hosted service (api_cloud.py): the same request and
 * consume loop as the local service, sent through an OpenAI-compatible
 * client. Deltas whose content is not a string are skipped, and a failing
 * `stream.close()` is not caught, so it ends the call with an error.
 */
module CloudApi {
  import opened Wrappers
  import opened StreamLoop
  import opened Parse
  import opened Rewriter
  import LocalApi

  /** The single stop sequence passed to the remote model. */
  const StopSequences := ["</"]

  /** The `content` attribute of a delta: a string, absent, or present but not a string (such as `None`). */
  datatype Content = Text(s: string) | Missing | NotString

  /** One chunk of the remote stream and the clock reading taken after it. */
  datatype Chunk = Chunk(content: Content, elapsedMs: real)

  /** What the call returns when it completes. */
  datatype Rewrite = Rewrite(queries: seq<string>, elapsedTime: real)

  /** The arguments of the remote streaming completion for `question`. */
  function Request(question: string): CompletionRequest
  {
    CompletionRequest(Some(RepoId), [SystemPrompt, UserQuestion(question)], DynamicMaxTokens(|question|),
                      Temperature, TopP, StopSequences)
  }

  /** Whatever the question, the request's token budget lies in [12, 20]. */
  lemma RequestBudget(question: string)
    ensures MinTokens <= Request(question).maxTokens <= MaxTokens
  {
  }

  /** `getattr(delta, "content", "")`: a missing attribute reads as the empty string; a non-string is skipped. */
  function ToStep(chunk: Chunk): Step
  {
    match chunk.content
    case Text(s) => Step(Some(s), chunk.elapsedMs)
    case Missing => Step(Some(""), chunk.elapsedMs)
    case NotString => Step(None, chunk.elapsedMs)
  }

  /**
   * How the loop reads a chunk: it skips exactly the non-string contents, a
   * string is appended as it is, and a missing content is the empty string.
   */
  lemma ContentRead(chunk: Chunk)
    ensures ToStep(chunk).delta.None? <==> chunk.content == NotString
    ensures chunk.content.Text? ==> ToStep(chunk).delta == Some(chunk.content.s)
    ensures chunk.content == Missing ==> ToStep(chunk).delta == Some("")
    ensures ToStep(chunk).elapsedMs == chunk.elapsedMs
  {
  }

  /** The stream as the consume loop sees it. */
  function Steps(chunks: seq<Chunk>): seq<Step>
  {
    seq(|chunks|, i requires 0 <= i < |chunks| => ToStep(chunks[i]))
  }

  /**
   * `rewrite_query(question, desired_max_latency)`: one streaming request,
   * the consume loop, and one close; an error raised by the close propagates
   * and no queries are returned.
   */
  method RewriteQuery(question: string, desiredMaxLatency: real, client: Engine<Chunk>, tailMs: real)
    returns (r: Result<Rewrite>)
    modifies client
    ensures client.log == old(client.log) + [Requested(Request(question)), Closed]
    ensures r.Err? <==> client.closeFails
    ensures r.Ok? ==> r.value == Rewrite(Queries(question, Steps(client.reply), desiredMaxLatency),
                                         ElapsedTime(Steps(client.reply), desiredMaxLatency, tailMs))
  {
    var request := Request(question);
    var stream := client.StartStream(request);
    var st := ConsumeStream(Steps(stream), desiredMaxLatency);
    var closed := client.Close();
    assert client.log == old(client.log) + [Requested(request), Closed];
    if !closed {
      return Err("close");
    }
    r := Ok(Rewrite(ParseQueries(question, st.text), st.elapsedMs + tailMs));
  }

  /** The chunks whose content is a string or absent, in order. */
  function Strings(chunks: seq<Chunk>): (kept: seq<Chunk>)
    ensures |kept| <= |chunks|
    ensures forall i :: 0 <= i < |kept| ==> kept[i].content != NotString && kept[i] in chunks
    decreases |chunks|
  {
    if chunks == [] then []
    else
      var last := chunks[|chunks| - 1];
      Strings(chunks[..|chunks| - 1]) + (if last.content == NotString then [] else [last])
  }

  /** Dropping the non-string chunks from the stream is what the loop's skip does. */
  lemma {:induction false} StepsOfStrings(chunks: seq<Chunk>)
    ensures Steps(Strings(chunks)) == TextSteps(Steps(chunks))
    decreases |chunks|
  {
    if chunks != [] {
      var before := chunks[..|chunks| - 1];
      var last := chunks[|chunks| - 1];
      StepsOfStrings(before);
      assert Steps(chunks)[..|chunks| - 1] == Steps(before);
      var kept := if last.content == NotString then [] else [last];
      assert Steps(Strings(before) + kept) == Steps(Strings(before)) + Steps(kept);
    }
  }

  /**
   * Non-string deltas are inert: the queries and the reported time are those
   * of the same stream with those chunks removed.
   */
  lemma NonStringInert(question: string, chunks: seq<Chunk>, latency: real, tailMs: real)
    ensures Queries(question, Steps(chunks), latency) == Queries(question, Steps(Strings(chunks)), latency)
    ensures ElapsedTime(Steps(chunks), latency, tailMs) == ElapsedTime(Steps(Strings(chunks)), latency, tailMs)
  {
    StepsOfStrings(chunks);
    RunIgnoresSkips(Steps(chunks), latency);
  }

  /** The same stream as the local service would see it. */
  function ToLocal(chunk: Chunk): LocalApi.Chunk
    requires chunk.content != NotString
  {
    LocalApi.Chunk(if chunk.content.Text? then Some(chunk.content.s) else None, chunk.elapsedMs)
  }

  function ToLocalAll(chunks: seq<Chunk>): seq<LocalApi.Chunk>
    requires forall i :: 0 <= i < |chunks| ==> chunks[i].content != NotString
  {
    seq(|chunks|, i requires 0 <= i < |chunks| => ToLocal(chunks[i]))
  }

  /**
   * On a stream of string (or absent) contents, the hosted service returns
   * exactly the queries and the time the local service returns.
   */
  lemma AgreesWithLocal(question: string, chunks: seq<Chunk>, latency: real, tailMs: real)
    requires forall i :: 0 <= i < |chunks| ==> chunks[i].content != NotString
    ensures Queries(question, Steps(chunks), latency) == Queries(question, LocalApi.Steps(ToLocalAll(chunks)), latency)
    ensures ElapsedTime(Steps(chunks), latency, tailMs) == ElapsedTime(LocalApi.Steps(ToLocalAll(chunks)), latency, tailMs)
  {
    assert Steps(chunks) == LocalApi.Steps(ToLocalAll(chunks));
  }

  /** When no string delta carries a newline except as its last character, at most three queries come back. */
  lemma AtMostThreeCloudQueries(question: string, chunks: seq<Chunk>, latency: real)
    requires forall j :: 0 <= j < |chunks| && chunks[j].content.Text? ==> NewlineOnlyAtEnd(chunks[j].content.s)
    ensures |Queries(question, Steps(chunks), latency)| <= 3
  {
    var steps := Steps(chunks);
    forall j | 0 <= j < |steps| && steps[j].delta.Some?
      ensures NewlineOnlyAtEnd(steps[j].delta.value)
    {
      assert steps[j] == ToStep(chunks[j]);
    }
    AtMostThreeQueries(question, steps, latency);
  }
}
