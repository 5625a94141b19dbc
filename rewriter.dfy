/**
 * What both `rewrite_query` implementations share around the consume loop:
 * the generation configuration, the per-request token budget, the parse of
 * the buffer into queries, and the inference backend (the local model or the
 * remote client) as an object that hands out a stream and records that the
 * stream was requested and closed.
 */
module Rewriter {
  import opened Wrappers
  import opened Text
  import opened StreamLoop

  /** `MAX_TOKENS`: the ceiling of the completion budget. */
  const MaxTokens := 20
  /** The floor that the budget never goes below. */
  const MinTokens := 12
  /** Every this many characters of question take one token off the budget. */
  const CharsPerToken := 40

  const Temperature := 0.5
  const TopP := 0.95

  /** `PREFIX`: the system prompt with its one worked example. */
  const Prefix :=
    "You are an assistant that rewrites user questions into concise search-engine queries.\n" +
    "Write one to up to three MAXIMUM search queries. Have them be diverse from one another.\n" +
    "<example>\n<question>\nWhat are some ways to do fast query reformulation</question>\n<search_queries>\n" +
    "Fast query reformulation techniques\n" +
    "Query expansion methods\n" +
    "Query refinement strategies\n" +
    "</search_queries>\n</example>\n<question>\n"

  /** `SUFFIX`: appended to the question in the user message. */
  const Suffix := "\n</question>\n<search_queries>\n"

  /**
   * A chat message: the system message, whose content is always the fixed
   * prompt `Prefix`, or the user message that carries the question.
   */
  datatype Message = SystemPrompt | UserQuestion(question: string)

  /** The model a request can name: the hub repository `REPO_ID`, "Qwen/Qwen2.5-0.5B-Instruct-GGUF". */
  datatype ModelRef = RepoId

  /** The arguments of the streaming chat-completion call; the in-process call names no model. */
  datatype CompletionRequest = CompletionRequest(
    model: Option<ModelRef>, messages: seq<Message>, maxTokens: int,
    temperature: real, topP: real, stop: seq<string>)

  /** The `role` field of a message. */
  function Role(m: Message): (role: string)
    ensures role == "system" <==> m.SystemPrompt?
  {
    if m.SystemPrompt? then "system" else "user"
  }

  /** The `content` field of a message. */
  function Content(m: Message): string
  {
    match m
    case SystemPrompt => Prefix
    case UserQuestion(q) => q + Suffix
  }

  /** The user message is a user-role message that starts with the question and ends with the suffix. */
  lemma UserMessageContent(question: string)
    ensures Role(UserQuestion(question)) == "user"
    ensures |Content(UserQuestion(question))| == |question| + |Suffix|
    ensures Content(UserQuestion(question))[..|question|] == question
    ensures Content(UserQuestion(question))[|question|..] == Suffix
  {
  }

  function Min(a: int, b: int): int { if a <= b then a else b }
  function Max(a: int, b: int): int { if a <= b then b else a }

  /**
   * `min(MAX_TOKENS, max(12, MAX_TOKENS - len(question) // 40))`: the
   * completion budget stays within [12, 20], is the full 20 for questions
   * under 40 characters and bottoms out at 12 from 320 characters on.
   */
  function DynamicMaxTokens(questionLength: nat): (tokens: int)
    ensures MinTokens <= tokens <= MaxTokens
    ensures questionLength < CharsPerToken ==> tokens == MaxTokens
    ensures questionLength >= (MaxTokens - MinTokens) * CharsPerToken ==> tokens == MinTokens
  {
    Min(MaxTokens, Max(MinTokens, MaxTokens - questionLength / CharsPerToken))
  }

  /**
   * A longer question never gets a larger budget, and a question at most 40
   * characters longer gets at most one token less.
   */
  lemma BudgetNonIncreasing(shorter: nat, longer: nat)
    requires shorter <= longer
    ensures DynamicMaxTokens(longer) <= DynamicMaxTokens(shorter)
    ensures longer <= shorter + CharsPerToken ==> DynamicMaxTokens(shorter) - DynamicMaxTokens(longer) <= 1
  {
  }

  /** An event in the life of a stream, as the backend sees it. */
  datatype Event = Requested(request: CompletionRequest) | Closed

  /**
   * The inference backend: the local model or the remote client. `reply` is
   * what it streams for the next request; `closeFails` says whether
   * `stream.close()` raises; `log` records the requests and the closes.
   */
  class Engine<C> {
    const reply: seq<C>
    const closeFails: bool
    var log: seq<Event>

    constructor (reply: seq<C>, closeFails: bool)
      ensures this.reply == reply && this.closeFails == closeFails && log == []
    {
      this.reply := reply;
      this.closeFails := closeFails;
      log := [];
    }

    /** `create_chat_completion(..., stream=True)`: records the request and hands out the stream. */
    method StartStream(request: CompletionRequest) returns (chunks: seq<C>)
      modifies this
      ensures chunks == reply
      ensures log == old(log) + [Requested(request)]
    {
      chunks := reply;
      log := log + [Requested(request)];
    }

    /** `stream.close()`: recorded whether or not it raises; `ok` is false when it raised. */
    method Close() returns (ok: bool)
      modifies this
      ensures ok == !closeFails
      ensures log == old(log) + [Closed]
    {
      ok := !closeFails;
      log := log + [Closed];
    }
  }
}
