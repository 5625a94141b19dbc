/**
 * The parse of the streamed buffer into search queries, shared by both
 * `rewrite_query` implementations, and what can be said about the number of
 * queries it yields given how the consume loop stops.
 */
module Parse {
  import opened Wrappers
  import opened Text
  import opened StreamLoop

  /**
   * The parse step: a buffer that is blank after `strip()` falls back to the
   * question itself; otherwise the result is the non-empty pieces of the
   * stripped buffer split on newlines, in order. Either way it is never
   * empty (see `ParseTidy` for the shape of a non-fallback result).
   */
  function ParseQueries(question: string, text: string): (queries: seq<string>)
    ensures |queries| >= 1
    ensures Strip(text) == [] ==> queries == [question]
  {
    var stripped := Strip(text);
    if stripped == [] then [question]
    else
      NewlineIsSpace();
      Lines(stripped)
  }

  /** The queries `rewrite_query` returns when its loop runs over the stream `steps`. */
  function Queries(question: string, steps: seq<Step>, latency: real): (queries: seq<string>)
    ensures |queries| >= 1
  {
    ParseQueries(question, Run(steps, latency).text)
  }

  /** A parse that did not fall back is tidy. */
  lemma ParseTidy(question: string, text: string)
    requires Strip(text) != []
    ensures Tidy(ParseQueries(question, text))
  {
    LinesTidy(Strip(text));
  }

  /** The lines of a non-empty string that neither starts nor ends with whitespace are tidy. */
  lemma LinesTidy(s: string)
    requires s != [] && s[0] !in Whitespace && s[|s| - 1] !in Whitespace
    ensures Tidy(Lines(s))
  {
    NewlineIsSpace();
  }

  /**
   * The shape of a parse that did not fall back: at least one query, every
   * query non-empty and without a newline, and no whitespace at the very
   * start of the first query or the very end of the last.
   */
  predicate Tidy(queries: seq<string>)
  {
    |queries| >= 1 &&
    (forall i :: 0 <= i < |queries| ==> queries[i] != [] && '\n' !in queries[i]) &&
    queries[0][0] !in Whitespace &&
    (var last := queries[|queries| - 1]; last[|last| - 1] !in Whitespace)
  }

  /**
   * `[q for q in s.split("\n") if q]`: non-empty pieces without newlines; a
   * string that neither starts nor ends with a newline has at least one,
   * and its first and last characters are those of the first and last piece.
   */
  function Lines(s: string): (lines: seq<string>)
    ensures |lines| <= Count(s, '\n') + 1
    ensures forall i :: 0 <= i < |lines| ==> lines[i] != [] && '\n' !in lines[i]
    ensures s != [] && s[0] != '\n' && s[|s| - 1] != '\n' ==>
              |lines| >= 1 && lines[0][0] == s[0] &&
              (var last := lines[|lines| - 1]; last[|last| - 1] == s[|s| - 1])
  {
    var pieces := Split(s, '\n');
    var lines := NonEmpty(pieces);
    SplitCount(s, '\n');
    NonEmptyKept(pieces);
    NonEmptyEnds(pieces);
    if s != [] && s[0] != '\n' && s[|s| - 1] != '\n' then
      assert lines[0] == pieces[0];
      assert lines[|lines| - 1] == pieces[|pieces| - 1];
      lines
    else lines
  }

  /**
   * Parsing is idempotent: parsing the parsed queries, joined back with
   * newlines, yields the same queries.
   */
  lemma ParseIdempotent(question: string, text: string)
    requires Strip(text) != []
    ensures ParseQueries(question, Join(ParseQueries(question, text), '\n')) == ParseQueries(question, text)
  {
    ParseTidy(question, text);
    ParseJoined(question, ParseQueries(question, text));
  }

  /**
   * Non-empty, newline-free lines whose join neither starts nor ends with
   * whitespace parse back to themselves.
   */
  lemma ParseJoined(question: string, lines: seq<string>)
    requires Tidy(lines)
    ensures ParseQueries(question, Join(lines, '\n')) == lines
  {
    var joined := Join(lines, '\n');
    JoinEnds(lines, '\n');
    StripCharsNoop(joined, Whitespace);
    JoinSplit(lines, '\n');
    NonEmptyAll(lines);
  }

  /** Stripping removes no newline from the middle, and removes at least the final one. */
  lemma StripNewlines(text: string)
    ensures Count(Strip(text), '\n') <= Count(text, '\n')
    ensures text != [] && text[|text| - 1] == '\n' && Strip(text) != [] ==>
              Count(Strip(text), '\n') < Count(text, '\n')
  {
    NewlineIsSpace();
    StripCharsNewlines(text, Whitespace);
    StripCharsFinalNewline(text, Whitespace);
  }

  lemma StripCharsNewlines(text: string, cs: set<char>)
    ensures Count(StripChars(text, cs), '\n') <= Count(text, '\n')
  {
    var i := StripCharsSlice(text, cs);
    var r := StripChars(text, cs);
    SliceCount(text, i, i + |r|, r, '\n');
  }

  lemma StripCharsFinalNewline(text: string, cs: set<char>)
    requires '\n' in cs
    ensures text != [] && text[|text| - 1] == '\n' && StripChars(text, cs) != [] ==>
              Count(StripChars(text, cs), '\n') < Count(text, '\n')
  {
    var i := StripCharsSlice(text, cs);
    var r := StripChars(text, cs);
    SliceCount(text, i, i + |r|, r, '\n');
    if r != [] {
      assert r[|r| - 1] == text[i + |r| - 1];
    }
  }

  /** A slice has no more occurrences than the whole, and fewer when the whole ends, after the slice, with one. */
  lemma SliceCount(text: string, i: nat, j: nat, mid: string, c: char)
    requires i <= j <= |text| && mid == text[i..j]
    ensures Count(mid, c) <= Count(text, c)
    ensures j < |text| && text[|text| - 1] == c ==> Count(mid, c) < Count(text, c)
  {
    var head, tail := text[..i], text[j..];
    assert text == head + (mid + tail);
    CountAppend(head, mid + tail, c);
    CountAppend(mid, tail, c);
    if j < |text| && text[|text| - 1] == c {
      assert tail[|tail| - 1] == c;
      CountPositive(tail, c);
    }
  }

  /** The query count never exceeds the number of newline characters in the buffer plus one. */
  lemma ParseCount(question: string, text: string)
    ensures |ParseQueries(question, text)| <= Count(Strip(text), '\n') + 1
  {
  }

  /** A delta tokenised so that a newline can only be its last character. */
  predicate NewlineOnlyAtEnd(delta: string)
  {
    forall k :: 0 <= k < |delta| - 1 ==> delta[k] != '\n'
  }

  lemma NewlineOnlyAtEndCount(delta: string)
    requires NewlineOnlyAtEnd(delta)
    ensures Count(delta, '\n') == if '\n' in delta then 1 else 0
    ensures '\n' in delta ==> delta[|delta| - 1] == '\n'
  {
    if delta != [] {
      var init, final := delta[..|delta| - 1], delta[|delta| - 1..];
      assert delta == init + final;
      assert '\n' !in init;
      CountPositive(init, '\n');
      CountAppend(init, final, '\n');
      CountPositive(delta, '\n');
    }
  }

  /** With newlines only at the ends of deltas, the buffer has one newline per newline-bearing delta. */
  lemma {:induction false} ConcatNewlines(steps: seq<Step>)
    requires forall j :: 0 <= j < |steps| && steps[j].delta.Some? ==> NewlineOnlyAtEnd(steps[j].delta.value)
    ensures Count(Concat(steps), '\n') == NewlineDeltas(steps)
    decreases |steps|
  {
    if steps != [] {
      var before := steps[..|steps| - 1];
      var last := steps[|steps| - 1];
      ConcatNewlines(before);
      CountAppend(Concat(before), Contribution(last), '\n');
      if last.delta.Some? {
        NewlineOnlyAtEndCount(last.delta.value);
      }
    }
  }

  /**
   * The "up to three queries" of the docstring, under the condition it
   * silently relies on: if every string delta carries a newline only as its
   * last character, the parse yields at most three queries. (Counting deltas
   * rather than characters is what needs the condition; see
   * `FourQueriesFromThreeNewlineDeltas`.)
   */
  lemma AtMostThreeQueries(question: string, steps: seq<Step>, latency: real)
    requires forall j :: 0 <= j < |steps| && steps[j].delta.Some? ==> NewlineOnlyAtEnd(steps[j].delta.value)
    ensures |Queries(question, steps, latency)| <= 3
  {
    BufferNewlines(steps, latency);
    TextQueries(question, Run(steps, latency).text);
  }

  /** At most three newline characters, and a final one when there are three. */
  predicate FewNewlines(text: string)
  {
    Count(text, '\n') <= MaxNewlineDeltas &&
    (Count(text, '\n') == MaxNewlineDeltas ==> text != [] && text[|text| - 1] == '\n')
  }

  lemma TextQueries(question: string, text: string)
    requires FewNewlines(text)
    ensures |ParseQueries(question, text)| <= 3
  {
    ParseCount(question, text);
    StripNewlines(text);
  }

  /**
   * With newlines only at the ends of deltas, the buffer holds at most three
   * newline characters, and when it holds three it ends with one.
   */
  lemma BufferNewlines(steps: seq<Step>, latency: real)
    requires forall j :: 0 <= j < |steps| && steps[j].delta.Some? ==> NewlineOnlyAtEnd(steps[j].delta.value)
    ensures FewNewlines(Run(steps, latency).text)
  {
    var st := Run(steps, latency);
    RunConsumesPrefix(steps, latency);
    RunNewlineBound(steps, latency);
    var consumed := steps[..st.consumed];
    assert forall j :: 0 <= j < |consumed| ==> consumed[j] == steps[j];
    ConsumedNewlines(consumed);
  }

  lemma ConsumedNewlines(consumed: seq<Step>)
    requires forall j :: 0 <= j < |consumed| && consumed[j].delta.Some? ==> NewlineOnlyAtEnd(consumed[j].delta.value)
    requires NewlineDeltas(consumed) <= MaxNewlineDeltas
    requires NewlineDeltas(consumed) == MaxNewlineDeltas ==> consumed != [] && HasNewline(consumed[|consumed| - 1])
    ensures FewNewlines(Concat(consumed))
  {
    ConcatNewlines(consumed);
    if NewlineDeltas(consumed) == MaxNewlineDeltas {
      EndsWithNewline(consumed);
    }
  }

  /** A buffer whose last delta carries a newline, only at its end, ends with that newline. */
  lemma EndsWithNewline(steps: seq<Step>)
    requires steps != [] && HasNewline(steps[|steps| - 1])
    requires NewlineOnlyAtEnd(steps[|steps| - 1].delta.value)
    ensures var text := Concat(steps); text != [] && text[|text| - 1] == '\n'
  {
    var delta := steps[|steps| - 1].delta.value;
    NewlineOnlyAtEndCount(delta);
    assert Concat(steps) == Concat(steps[..|steps| - 1]) + delta;
  }

  /**
   * The newline counter counts deltas, not lines: three newline-bearing
   * deltas, the last of which continues after its newline, stop the loop on
   * the soft cut-off with four lines in the buffer, and four queries come out.
   */
  lemma FourQueriesFromThreeNewlineDeltas()
    ensures var steps := [Step(Some("a\n"), 1.0), Step(Some("b\n"), 2.0), Step(Some("c\nd"), 3.0)];
            var st := Run(steps, 100.0);
            st.phase == SoftCut && st.consumed == 3 &&
            ParseQueries("question", st.text) == ["a", "b", "c", "d"]
  {
    var steps := [Step(Some("a\n"), 1.0), Step(Some("b\n"), 2.0), Step(Some("c\nd"), 3.0)];
    ThreeDeltaRun(steps);
    FourLineParse();
  }

  lemma ThreeDeltaRun(steps: seq<Step>)
    requires steps == [Step(Some("a\n"), 1.0), Step(Some("b\n"), 2.0), Step(Some("c\nd"), 3.0)]
    ensures Run(steps, 100.0) == LoopState("a\nb\nc\nd", 3, 3, 3.0, SoftCut)
  {
    TwoDeltaRun(steps[..2]);
  }

  lemma TwoDeltaRun(steps: seq<Step>)
    requires steps == [Step(Some("a\n"), 1.0), Step(Some("b\n"), 2.0)]
    ensures Run(steps, 100.0) == LoopState("a\nb\n", 2, 2, 2.0, Streaming)
  {
    OneDeltaRun(steps[..1]);
  }

  lemma OneDeltaRun(steps: seq<Step>)
    requires steps == [Step(Some("a\n"), 1.0)]
    ensures Run(steps, 100.0) == LoopState("a\n", 1, 1, 1.0, Streaming)
  {
    assert steps[..0] == [];
  }

  lemma FourLineParse()
    ensures ParseQueries("question", "a\nb\nc\nd") == ["a", "b", "c", "d"]
  {
    var lines := ["a", "b", "c", "d"];
    assert Join(lines[3..], '\n') == "d";
    assert Join(lines[2..], '\n') == "c\nd";
    assert Join(lines[1..], '\n') == "b\nc\nd";
    assert Join(lines, '\n') == "a\nb\nc\nd";
    ParseJoined("question", lines);
  }
}
