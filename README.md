# Query reformulation: the latency-bounded rewriter, modelled in Dafny

The service turns a user question into up to three search-engine queries
within a latency budget. It asks a small chat model for a streamed
completion and reads the stream one delta at a time. Reading stops when
more than 90% of the budget has elapsed (the hard cut-off). It also stops
on a newline-bearing delta when more than 75% has elapsed or when three
such deltas have been counted (the soft cut-off). The buffer is then split
into lines. A blank buffer gives back the question itself.

There are two copies of this rewriter:
- `api.py` runs the model in-process. It swallows an error raised while
  closing the stream.
- `api_cloud.py` calls a hosted, OpenAI-compatible endpoint. It skips
  deltas whose content is not a string. It does not guard the close, so an
  error there ends the call.

The third core file, `query_rewrite_t5_fine_tune_original.py`, is a T5
experiment. Its `reformulate` cleans each line of the beam-search output
and keeps the first `n` queries that are distinct ignoring case.

How the model is laid out:
- `StreamLoop` holds the shared consume loop.
  - The stream is an input: a finite sequence of `Step`s. Each carries the
    delta (`None` when it is not a string) and the clock reading the loop
    takes after appending it.
  - `Run` is the reference definition: a fold of the loop body `Feed` in which a
    cut-off is final.
  - `ConsumeStream` is the loop itself, with `continue` and `break`, proved
    to compute `Run`.
- `Parse` turns the buffer into the query list.
- `Rewriter` holds the shared configuration: constants, token budget,
  message shapes and the backend. The backend is `Engine`, a class that
  hands out the stream and logs each request and each close.
- `LocalApi` and `CloudApi` are the two `rewrite_query` methods. They
  update the backend's log in place.
- `T5Reformulate` models `reformulate` as two nested loops over the
  decoded sequences and their lines. It also has `Collect`, the
  loops as a recursive walk, and `Unique`, a reference walk with no early
  exit.
- `Text` models the Python string operations used: `strip` with or
  without an argument, `split` on one character, the non-empty filter, and
  ASCII `lower`. It also defines `join`, which the source never calls: it
  serves only the round-trip lemmas about `split` and the parse.

What the code does, read closely:
- **Lines are not trimmed.** `api.py:129` and `api_cloud.py:105` strip only
  the whole buffer, split it on `"\n"` and drop the empty pieces. So a
  query may keep leading or trailing spaces inside the buffer, and a
  bullet such as `"- "` stays at the start of a line.
- **More than three queries are possible.** The docstring
  (`api.py:88`) promises "up to three search queries", but
  `newline_count` counts deltas that contain a newline, not newline
  characters. A single delta can carry several lines.
  `Parse.FourQueriesFromThreeNewlineDeltas` shows a stream of three deltas
  that parses into four queries.
- **When the bound of three holds.** `Parse.AtMostThreeQueries` proves the
  bound when a newline can only be the last character of a delta.

## Model

| member | source | states |
|---|---|---|
| Rewriter.DynamicMaxTokens | api.py:91 | the completion budget lies in [12, 20]; it is 20 for questions under 40 characters and 12 from 320 characters on |
| Rewriter.BudgetNonIncreasing | api.py:91 | a longer question never gets a larger budget, and one at most 40 characters longer gets at most one token less |
| Rewriter.Role | api.py:71 | a message has the role "system" exactly when it is the system message, "user" otherwise |
| Rewriter.Content | api.py:71 | the system message's content is `PREFIX`; a user message's content is the question followed by `SUFFIX` (its properties are in `UserMessageContent`) |
| Rewriter.UserMessageContent | api.py:92 | the user message has the user role, starts with the question and ends with the suffix "\n</question>\n<search_queries>\n" |
| Rewriter.Engine.StartStream | api.py:96-103 | asking for a stream appends one `Requested` event with the request and hands out the backend's reply |
| Rewriter.Engine.Close | api.py:120-121 | closing appends one `Closed` event; it reports failure exactly when the backend's close raises |
| LocalApi.Request | api.py:96-103 | the local request: the system and the user message, the budget of line 91, temperature 0.5, top-p 0.95 and the five stop sequences, with no model name (its budget bound is in `RequestBudget`) |
| LocalApi.RequestBudget | api.py:96-103 | the local request's token budget lies in [12, 20] |
| StreamLoop.Feed | api.py:107-119 | the loop body on a still-streaming state: skip a non-string delta, otherwise append it, read the clock, break past 90%, and count a newline-bearing delta, breaking past 75% or at the third (its properties are in `FeedStep`) |
| StreamLoop.FeedStep | api.py:107-119 | one loop iteration always takes one item; a non-string item changes nothing else; a string delta is appended, its reading becomes the held reading, and the hard cut fires exactly when that reading is past 90% |
| StreamLoop.Run | api.py:105-119 | the loop's final state, as a fold of `Feed` that stops at the first cut-off, never takes more items than the stream has |
| StreamLoop.ElapsedTime | api.py:131 | the reported time is the last clock reading the loop took plus everything after it, given as `tailMs` (its bound is in `LocalApi.ElapsedCoversConsumed`) |
| StreamLoop.ConsumeStream | api.py:105-119 | the loop with its skip, hard-cut and soft-cut breaks ends in exactly the state `Run` gives for the stream |
| StreamLoop.RunStopped | api.py:113-119 | once a prefix of the stream has cut off, the whole stream ends in the same state |
| StreamLoop.StopsAtPrefix | api.py:113-119 | whether an item meets a break condition depends only on the stream up to that item |
| StreamLoop.RunWhileStreaming | api.py:105-119 | a run that never broke took every item; its buffer is the concatenation of all deltas and it counted fewer than three newline-bearing deltas |
| StreamLoop.StreamingMeetsNoBreak | api.py:107-119 | when the loop reaches the end of the stream, no item met either break condition |
| StreamLoop.RunAtCut | api.py:110-119 | a run that cut off did so on its last consumed item, fed to the state reached by streaming through the items before it |
| StreamLoop.RunConsumesPrefix | api.py:105-110 | the consumed items are a prefix of the stream and the buffer is the concatenation of their deltas in arrival order |
| StreamLoop.RunFirstCutoff | api.py:107-119 | the loop breaks at the first item that meets a break condition, and breaks exactly when its last consumed item met one |
| StreamLoop.CutoffKind | api.py:113-119 | the hard cut-off fires exactly when the last consumed string delta is past 90%; the soft cut-off fires only on a newline-bearing delta under that limit |
| StreamLoop.RunNewlineCount | api.py:116-118 | the counter equals the number of newline-bearing deltas consumed, less the one that triggered a hard cut-off |
| StreamLoop.RunCounterBound | api.py:116-119 | the counter never exceeds three |
| StreamLoop.RunNewlineBound | api.py:116-119 | at most three newline-bearing deltas are consumed, and when three are, the last consumed delta is one of them |
| StreamLoop.ReadingsWithinBudget | api.py:112-115 | every consumed string delta was read within 90% of the budget, except a last one that triggered the hard cut-off |
| StreamLoop.CutoffIgnoresLaterDeltas | api.py:113-119 | after a cut-off, later stream items leave the final state unchanged |
| StreamLoop.RunClock | api.py:112 | with a monotonic clock, the last reading is non-negative and at least every reading taken at a consumed string delta |
| StreamLoop.RunIgnoresSkips | api_cloud.py:84-86 | dropping the non-string deltas changes neither the buffer, the counter, the clock reading nor the phase |
| Parse.ParseQueries | api.py:126-129 | the result is never empty, and a buffer blank after stripping gives exactly `[question]` |
| Parse.ParseTidy | api.py:126-129 | when the stripped buffer is not blank, every query is non-empty and has no newline, and the list neither starts nor ends with whitespace |
| Parse.LinesTidy | api.py:129 | splitting a non-empty string that neither starts nor ends with whitespace gives a tidy list |
| Parse.Lines | api.py:129 | the non-empty newline-free pieces of the split number at most one more than the newlines, and keep the first and last characters of the buffer |
| Parse.ParseIdempotent | api.py:126-129 | re-parsing the joined queries of a non-blank buffer gives the same queries |
| Parse.ParseJoined | api.py:126-129 | parsing the lines of a tidy query list joined by newlines gives that list back |
| Parse.ParseCount | api.py:126-129 | the number of queries is at most one more than the newlines in the stripped buffer |
| Parse.StripNewlines | api.py:126 | `strip()` never adds newlines, and removes a trailing one when anything is left |
| Parse.StripCharsNewlines | api.py:126 | stripping any set of characters never adds newlines |
| Parse.StripCharsFinalNewline | api.py:126 | stripping a set that holds the newline removes a trailing newline |
| Parse.SliceCount | api.py:126 | a slice has no more newlines than the whole, and fewer when it cuts off a final newline |
| Parse.NewlineOnlyAtEndCount | api.py:116 | a delta whose newline can only be last holds at most one newline, and holds it at the end |
| Parse.ConcatNewlines | api.py:110-117 | when each delta's newline can only be last, the buffer's newline count equals the number of newline-bearing deltas |
| Parse.AtMostThreeQueries | api.py:105-129 | when newlines only end deltas, at most three queries are returned |
| Parse.TextQueries | api.py:126-129 | a buffer with at most three newlines, and a final one when there are three, parses into at most three queries |
| Parse.BufferNewlines | api.py:105-119 | when newlines only end deltas, the loop's buffer has at most three newlines, and a final one when there are three |
| Parse.ConsumedNewlines | api.py:110-117 | the same bound for any consumed prefix that counted at most three newline-bearing deltas |
| Parse.EndsWithNewline | api.py:110 | when the last delta ends with a newline, the buffer does |
| Parse.FourQueriesFromThreeNewlineDeltas | api.py:105-129 | the deltas "a\n", "b\n", "c\nd" stop the loop at the third delta and parse into four queries |
| Parse.ThreeDeltaRun | api.py:105-119 | the loop stops on the third of those deltas with the buffer "a\nb\nc\nd" |
| Parse.TwoDeltaRun | api.py:105-119 | after the first two of those deltas, the loop is still streaming with two counted |
| Parse.OneDeltaRun | api.py:105-119 | after the first of those deltas, the loop is still streaming with one counted |
| Parse.FourLineParse | api.py:126-129 | the buffer "a\nb\nc\nd" parses into the four queries a, b, c, d |
| LocalApi.RewriteQuery | api.py:86-132 | one request, then one close, are logged on the backend; the queries are those parsed from the buffer `Run` gives, whether or not the close fails; the time is the loop's last reading plus the tail |
| LocalApi.ToStep | api.py:109 | a chunk's content is read as it is, a missing content as the empty string, and its clock reading is kept |
| LocalApi.EveryDeltaIsText | api.py:109 | a missing content reads as the empty string, so no local item is ever skipped |
| LocalApi.ElapsedCoversConsumed | api.py:131 | with a monotonic clock, the returned time is non-negative and at least the reading at every consumed chunk |
| LocalApi.ConsumedWithinBudget | api.py:112-115 | every consumed chunk arrived within 90% of the budget, except a last one that triggered the hard cut-off |
| LocalApi.AtMostThreeLocalQueries | api.py:105-129 | when newlines only end deltas, at most three queries come back |
| Parse.Queries | api.py:105-129 | the queries returned for a stream are the parse of the buffer `Run` leaves, and there is always at least one |
| CloudApi.RequestBudget | api_cloud.py:64-79 | the hosted request's token budget is the same clamp, within [12, 20] |
| CloudApi.RewriteQuery | api_cloud.py:59-108 | one request, then one close, are logged; the result is an error exactly when the close raises, and otherwise holds the parsed queries and the time |
| CloudApi.Request | api_cloud.py:71-79 | the hosted request: the model `REPO_ID`, the two messages, the budget of line 64, the same sampling and the single stop sequence `"</"` (its budget bound is in `RequestBudget`) |
| CloudApi.ToStep | api_cloud.py:84-86 | how a chunk reaches the loop; its properties are in `ContentRead` |
| CloudApi.ContentRead | api_cloud.py:84-86 | a chunk is skipped exactly when its content is not a string; a string is read as it is, a missing content as the empty string, and the clock reading is kept |
| CloudApi.Strings | api_cloud.py:84-86 | the kept chunks are chunks of the stream, none with a non-string content |
| CloudApi.StepsOfStrings | api_cloud.py:84-86 | dropping the non-string chunks is dropping the skipped items of the loop |
| CloudApi.NonStringInert | api_cloud.py:84-86 | a stream and the same stream without its non-string chunks give the same queries and the same time |
| CloudApi.AgreesWithLocal | api_cloud.py:81-105 | on a stream with no non-string content, the hosted rewriter gives the local rewriter's queries and time |
| CloudApi.AtMostThreeCloudQueries | api_cloud.py:81-105 | when newlines only end string deltas, at most three queries come back |
| T5Reformulate.NumBeams | query_rewrite_t5_fine_tune_original.py:32 | the beam count is the larger of 6 and 5·n |
| T5Reformulate.BeamsSplitIntoGroups | query_rewrite_t5_fine_tune_original.py:32-38 | for n ≥ 1 the beams divide evenly into the n beam groups and are at least the n returned sequences |
| T5Reformulate.Clean | query_rewrite_t5_fine_tune_original.py:50 | a line with the bullet characters stripped from both ends, then the whitespace (what it keeps is stated in `KeptFromLines`) |
| T5Reformulate.AllLines | query_rewrite_t5_fine_tune_original.py:48-49 | the lines the nested loop walks, sequence by sequence; there are at least as many as sequences |
| T5Reformulate.Collect | query_rewrite_t5_fine_tune_original.py:47-57 | the reference definition of the nested loop: each cleaned line is added if new ignoring case, and the walk stops right after the n-th query (its properties are in `CollectExtends`, `CollectTakesUnique` and the `Kept` lemmas) |
| T5Reformulate.CollectExtends | query_rewrite_t5_fine_tune_original.py:47-57 | the kept queries only grow, at the end, by at most one per line walked |
| T5Reformulate.Take | query_rewrite_t5_fine_tune_original.py:59 | the slice `s[:n]` is a prefix of at most n items, and the whole of a shorter list |
| T5Reformulate.Targets | query_rewrite_t5_fine_tune_original.py:59 | at most n targets are returned |
| T5Reformulate.AllLinesStep | query_rewrite_t5_fine_tune_original.py:48-49 | the lines still to walk at a sequence are its own lines followed by those of the sequences after it |
| T5Reformulate.CollectStep | query_rewrite_t5_fine_tune_original.py:49-55 | one line is cleaned and added, and the walk stops right after it when the count reaches n |
| T5Reformulate.LowerSetAdd | query_rewrite_t5_fine_tune_original.py:52-53 | appending a query adds exactly its lower case to `seen` |
| T5Reformulate.Reformulate | query_rewrite_t5_fine_tune_original.py:47-59 | the nested loops with their breaks return exactly `Targets` |
| T5Reformulate.CollectLines | query_rewrite_t5_fine_tune_original.py:49-55 | the inner loop keeps `seen` equal to the lower-cased kept queries; it stops after the line that reaches n, or walks all lines of the sequence |
| T5Reformulate.UniqueExtends | query_rewrite_t5_fine_tune_original.py:51-53 | kept queries are never removed or reordered |
| T5Reformulate.CollectTakesUnique | query_rewrite_t5_fine_tune_original.py:47-57 | for n ≥ 1 the kept queries are the first n of the walk without early exit, so they appear in input order, sequence by sequence and line by line |
| T5Reformulate.NotSeen | query_rewrite_t5_fine_tune_original.py:51 | a query whose lower case is not in `seen` differs, ignoring case, from every kept query |
| T5Reformulate.UniqueDistinct | query_rewrite_t5_fine_tune_original.py:51-53 | the `seen` check keeps the queries distinct ignoring case |
| T5Reformulate.UniqueFrom | query_rewrite_t5_fine_tune_original.py:49-52 | every kept query is a non-empty cleaned line |
| T5Reformulate.LowerSetPrefix | query_rewrite_t5_fine_tune_original.py:53 | what is in `seen` stays there |
| T5Reformulate.UniqueComplete | query_rewrite_t5_fine_tune_original.py:48-53 | without the early exit, every non-empty cleaned line is represented, ignoring case |
| T5Reformulate.KeptAtMostN | query_rewrite_t5_fine_tune_original.py:54-57 | for n ≥ 1 at most n queries are kept |
| T5Reformulate.KeptDistinct | query_rewrite_t5_fine_tune_original.py:51-53 | no two kept queries are equal after lower-casing |
| T5Reformulate.KeptFromLines | query_rewrite_t5_fine_tune_original.py:49-52 | every kept query is non-empty and is a line of a decoded sequence with " -•*\t" and then whitespace stripped from its ends |
| T5Reformulate.KeptAllWhenFewer | query_rewrite_t5_fine_tune_original.py:54-57 | when fewer than n are kept, every non-empty cleaned line is among them, ignoring case |
| T5Reformulate.NoneKeptIff | query_rewrite_t5_fine_tune_original.py:51-59 | no query is kept exactly when every line cleans to the empty string, the case where `decoded[:n]` is returned |
| T5Reformulate.TargetsAreKept | query_rewrite_t5_fine_tune_original.py:59 | when any query is kept, the targets are all the kept queries, uncut |
| Text.TrimLeft | query_rewrite_t5_fine_tune_original.py:50 | the left strip drops the longest prefix made of the given characters |
| Text.TrimRight | query_rewrite_t5_fine_tune_original.py:50 | the right strip drops the longest suffix made of the given characters |
| Text.StripChars | query_rewrite_t5_fine_tune_original.py:50 | a non-empty `strip(chars)` result neither starts nor ends with one of the characters |
| Text.StripCharsSlice | query_rewrite_t5_fine_tune_original.py:50 | `strip(chars)` returns a slice of its input |
| Text.StripCharsRemoved | query_rewrite_t5_fine_tune_original.py:50 | everything `strip(chars)` drops is one of the characters |
| Text.SliceOfSuffix | query_rewrite_t5_fine_tune_original.py:50 | a prefix of a suffix is a slice, and what follows it is made of the stripped characters |
| Text.StripCharsEmpty | api.py:126 | `strip(chars)` is empty exactly when every character is one of them |
| Text.Strip | api.py:126 | a non-empty `strip()` result neither starts nor ends with whitespace |
| Text.StripBlank | api.py:126 | `text.strip()` is empty exactly when the text is all whitespace |
| Text.StripCharsNoop | api.py:126 | stripping text that does not start or end with one of the characters leaves it unchanged |
| Text.Split | api.py:129 | `split("\n")` gives at least one piece, no piece holds the separator, and the first and last pieces keep the text's ends |
| Text.SplitJoin | api.py:129 | joining the pieces of a split with the separator gives the text back |
| Text.JoinPrepend | api.py:129 | a character put before the first piece comes first in the join |
| Text.SplitNoSeparator | api.py:129 | text without the separator splits into itself |
| Text.SplitAtFirstSeparator | api.py:129 | the split breaks at the first separator and goes on with the rest |
| Text.JoinSplit | api.py:129 | splitting the join of separator-free pieces gives the pieces back |
| Text.SplitCount | api.py:129 | a split gives one more piece than the separators in the text |
| Text.CountAppend | api.py:110 | counting a character over a concatenation adds the two counts |
| Text.CountPositive | api.py:116 | a character occurs in a string exactly when its count is positive |
| Text.JoinEnds | api.py:129 | the join starts with the first piece's first character and ends with the last piece's last |
| Text.JoinLastChar | api.py:129 | the join ends with the last piece's last character |
| Text.NonEmpty | api.py:129 | the filter keeps at most as many items as it is given |
| Text.NonEmptyKept | api.py:129 | every kept item is a non-empty item of the input |
| Text.NonEmptyEnds | api.py:129 | a non-empty first or last piece is kept as the first or the last entry |
| Text.NonEmptyAll | api.py:129 | when no piece is empty, everything is kept |
| Text.NonEmptyAppend | api.py:129 | the filter of a concatenation is the concatenation of the filters: the non-empty pieces are kept in order |
| Text.NonEmptySingle | api.py:129 | a single piece is kept exactly when it is non-empty |
| Text.Lower | query_rewrite_t5_fine_tune_original.py:51 | lower-casing keeps the length |

## Left out

- Model download, loading and warm-up (`api.py:43-82`): file-system and network work inside foreign inference engines. The backend is the `Engine` object with a given reply.
- The OpenAI client, its construction and the environment and dotenv reading (`api_cloud.py:11`, `api_cloud.py:22`, `api_cloud.py:45-48`): foreign calls. The stream they produce is an input.
- The FastAPI endpoints, the 503 check, the CORS middleware and the uvicorn entry points: HTTP plumbing with no logic of its own.
- `time.perf_counter`: every clock reading is an input. Readings inside the loop come with each stream item. Everything after the last reading is the `tailMs` parameter: waiting for items the loop skips without reading the clock (in `api_cloud.py`, a stream usually ends with a chunk whose content is `None`), waiting for the end of the stream, the close and the parse. Monotonicity is a hypothesis of the lemmas that need it (`ClockMonotone`).
- Floating-point arithmetic: latencies and readings are exact reals, so `0.9 * latency` has no rounding.
- LocalApi.RewriteQuery: the stream never fails. In `api.py`, an error raised while iterating (a backend failure, or a chunk with empty `choices`, which makes line 109 raise) leaves the loop before `stream.close()` at line 121 and propagates. That path, with no close and no result, is not modelled: the model always logs `Closed`.
- CloudApi.RewriteQuery: the stream never fails either. In `api_cloud.py`, an error raised while iterating (a failed request mid-stream, or a chunk with empty `choices` at line 84) skips `stream.close()` at line 99 and propagates. That path is not modelled: the `Err` result stands only for a failing close.
- LocalApi.RewriteQuery: a delta whose `content` key holds a non-string, such as `None`, would make `text += delta` raise in `api.py`. That case is not modelled; a local delta is either a string or absent.
- The backend's own stop sequences, token limit and sampling: the request records them, but what the model streams back is an arbitrary input.
- The T5 tokenizer, the model and `generate` (`query_rewrite_t5_fine_tune_original.py:9-11`, `query_rewrite_t5_fine_tune_original.py:29-44`): foreign calls. `decoded` is an input.
- The T5 file's `rewrite_query`, which only prints, the prints inside `reformulate`, and the module-level demo calls: output only.
- `test_api.py`: a client script that prints results.
- Text.Lower: folds only the ASCII letters A-Z. Python's full Unicode `str.lower()` is not reimplemented.
- The whitespace set is fixed as the set for which Python's `str.isspace()` holds. It covers what `str.strip()` removes, with no Unicode database behind it.
- T5Reformulate.Reformulate: for n = 0, the model follows the loop as written: it walks one line and then breaks. The generator itself would reject that configuration. The lemmas about the kept queries assume n ≥ 1.
- T5Reformulate.CollectLines: the inner loop of `reformulate` is a method of its own, called from the outer loop. The two breaks behave as in the source.
- Concurrency between requests: each call is modelled on its own.
