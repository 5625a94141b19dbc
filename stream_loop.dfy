/**
 * The timed consume loop of `rewrite_query`, shared by the local and the
 * remote rewriter. The completion stream is an input: the finite sequence of
 * items the backend delivers, each carrying the clock reading (milliseconds
 * since the request was issued) that the loop takes right after appending it.
 *
 * `Run` is the reference definition: a fold of the loop body `Feed` over the stream
 * in which a cut-off is final. `ConsumeStream` is the loop itself, proved to
 * compute `Run`; the lemmas state what the source promises about `Run`.
 */
module StreamLoop {
  import opened Wrappers

  /** One streamed item: its text delta (`None` when the delta is not a string) and the clock reading after it. */
  datatype Step = Step(delta: Option<string>, elapsedMs: real)

  /** Where the loop stands: still reading, or stopped by the hard or the soft cut-off. */
  datatype Phase = Streaming | HardCut | SoftCut

  /**
   * The loop's variables: the text buffer, the number of newline-bearing
   * deltas counted, the number of stream items taken, the last clock reading
   * (0 at the start) and the phase.
   */
  datatype LoopState = LoopState(text: string, newlineCount: nat, consumed: nat, elapsedMs: real, phase: Phase)

  const Initial := LoopState("", 0, 0, 0.0, Streaming)

  /** The loop stops unconditionally once this many newline-bearing deltas have been counted. */
  const MaxNewlineDeltas := 3

  /** Hard cut-off: more than 90% of the latency budget has elapsed. */
  predicate HardLimit(elapsed: real, latency: real)
  {
    elapsed > 0.9 * latency
  }

  /** Soft cut-off, checked only on newline-bearing deltas: more than 75% of the budget has elapsed. */
  predicate SoftLimit(elapsed: real, latency: real)
  {
    elapsed > 0.75 * latency
  }

  /** A step whose delta is a string containing a newline character. */
  predicate HasNewline(step: Step)
  {
    step.delta.Some? && '\n' in step.delta.value
  }

  /**
   * One iteration of the loop body on a state that is still streaming: a
   * non-string delta is skipped; otherwise the delta is appended, the clock is
   * read, the hard cut-off is checked, and a newline-bearing delta is counted
   * and then checked against the soft cut-off and the newline limit.
   */
  function Feed(st: LoopState, step: Step, latency: real): LoopState
  {
    match step.delta
    case None => st.(consumed := st.consumed + 1)
    case Some(delta) =>
      var text := st.text + delta;
      if HardLimit(step.elapsedMs, latency) then
        LoopState(text, st.newlineCount, st.consumed + 1, step.elapsedMs, HardCut)
      else if '\n' in delta then
        var count := st.newlineCount + 1;
        var stop := SoftLimit(step.elapsedMs, latency) || count >= MaxNewlineDeltas;
        LoopState(text, count, st.consumed + 1, step.elapsedMs, if stop then SoftCut else Streaming)
      else
        LoopState(text, st.newlineCount, st.consumed + 1, step.elapsedMs, Streaming)
  }

  /**
   * One iteration always takes one item. A non-string item changes nothing
   * else; a string delta is appended, its clock reading becomes the held
   * one, and the hard cut-off fires exactly when that reading is past 90%.
   */
  lemma FeedStep(st: LoopState, step: Step, latency: real)
    ensures Feed(st, step, latency).consumed == st.consumed + 1
    ensures Feed(st, step, latency).text == st.text + Contribution(step)
    ensures step.delta.None? ==> Feed(st, step, latency) == st.(consumed := st.consumed + 1)
    ensures step.delta.Some? ==> Feed(st, step, latency).elapsedMs == step.elapsedMs
    ensures step.delta.Some? ==> (Feed(st, step, latency).phase == HardCut <==> HardLimit(step.elapsedMs, latency))
  {
  }

  /** The loop's final state on `steps`: `Feed` applied in arrival order until a cut-off fires. */
  function Run(steps: seq<Step>, latency: real): (st: LoopState)
    ensures st.consumed <= |steps|
    decreases |steps|
  {
    if steps == [] then Initial
    else
      var before := Run(steps[..|steps| - 1], latency);
      if before.phase != Streaming then before else Feed(before, steps[|steps| - 1], latency)
  }

  /** What a step adds to the buffer. */
  function Contribution(step: Step): string
  {
    step.delta.GetOr("")
  }

  /** The concatenation of the string deltas of `steps`, in arrival order. */
  function Concat(steps: seq<Step>): string
    decreases |steps|
  {
    if steps == [] then ""
    else Concat(steps[..|steps| - 1]) + Contribution(steps[|steps| - 1])
  }

  /** The number of newline-bearing string deltas in `steps`. */
  function NewlineDeltas(steps: seq<Step>): nat
    decreases |steps|
  {
    if steps == [] then 0
    else NewlineDeltas(steps[..|steps| - 1]) + (if HasNewline(steps[|steps| - 1]) then 1 else 0)
  }

  /** The steps that carry a string delta, in order. */
  function TextSteps(steps: seq<Step>): seq<Step>
    decreases |steps|
  {
    if steps == [] then []
    else TextSteps(steps[..|steps| - 1]) + (if steps[|steps| - 1].delta.Some? then [steps[|steps| - 1]] else [])
  }

  /**
   * The break condition of the source, stated on the whole stream: step `j`
   * ends the loop, in a run that reaches it, when its delta is a string and
   * either the hard limit holds, or it carries a newline and the soft limit
   * holds or it is the third newline-bearing delta.
   */
  predicate StopsAt(steps: seq<Step>, j: nat, latency: real)
    requires j < |steps|
  {
    var step := steps[j];
    step.delta.Some? &&
    (HardLimit(step.elapsedMs, latency) ||
     (HasNewline(step) && (SoftLimit(step.elapsedMs, latency) || NewlineDeltas(steps[..j + 1]) >= MaxNewlineDeltas)))
  }

  /**
   * The `elapsed_time` reported: the last clock reading the loop took (0 when
   * it read none) plus `tailMs`, everything after that reading: waiting for
   * items the loop skips without reading the clock, for the end of the
   * stream, the close and the parse.
   */
  function ElapsedTime(steps: seq<Step>, latency: real, tailMs: real): real
  {
    Run(steps, latency).elapsedMs + tailMs
  }

  /** Clock readings of a monotonic clock started at the request: non-negative and non-decreasing. */
  predicate ClockMonotone(steps: seq<Step>)
  {
    (forall i :: 0 <= i < |steps| ==> 0.0 <= steps[i].elapsedMs) &&
    (forall i, j :: 0 <= i <= j < |steps| ==> steps[i].elapsedMs <= steps[j].elapsedMs)
  }

  /**
   * The loop of `rewrite_query`: for each stream item, skip a non-string
   * delta, append the delta, read the clock, break on the hard cut-off, and
   * count a newline-bearing delta and break on the soft cut-off or the third
   * newline.
   */
  method ConsumeStream(steps: seq<Step>, latency: real) returns (st: LoopState)
    ensures st == Run(steps, latency)
  {
    var text := "";
    var newlineCount: nat := 0;
    var elapsed := 0.0;
    var phase := Streaming;
    var i := 0;
    while i < |steps|
      invariant 0 <= i <= |steps|
      invariant phase == Streaming
      invariant Run(steps[..i], latency) == LoopState(text, newlineCount, i, elapsed, Streaming)
    {
      var step := steps[i];
      assert steps[..i + 1][..i] == steps[..i];
      i := i + 1;
      if step.delta.None? {
        continue;
      }
      var delta := step.delta.value;
      text := text + delta;
      elapsed := step.elapsedMs;
      if HardLimit(elapsed, latency) {
        phase := HardCut;
        break;
      }
      if '\n' in delta {
        newlineCount := newlineCount + 1;
        if SoftLimit(elapsed, latency) || newlineCount >= MaxNewlineDeltas {
          phase := SoftCut;
          break;
        }
      }
    }
    st := LoopState(text, newlineCount, i, elapsed, phase);
    if phase == Streaming {
      assert steps[..i] == steps;
    } else {
      RunStopped(steps, i, latency);
    }
  }

  /** Once a prefix of the stream has cut off, the rest of the stream changes nothing. */
  lemma {:induction false} RunStopped(steps: seq<Step>, i: nat, latency: real)
    requires i <= |steps|
    requires Run(steps[..i], latency).phase != Streaming
    ensures Run(steps, latency) == Run(steps[..i], latency)
    decreases |steps|
  {
    if i == |steps| {
      assert steps[..i] == steps;
    } else {
      var before := steps[..|steps| - 1];
      assert before[..i] == steps[..i];
      RunStopped(before, i, latency);
    }
  }

  /** Whether step `j` stops the loop depends only on the stream up to `j`. */
  lemma StopsAtPrefix(steps: seq<Step>, k: nat, j: nat, latency: real)
    requires j < k <= |steps|
    ensures StopsAt(steps[..k], j, latency) == StopsAt(steps, j, latency)
  {
    assert steps[..k][..j + 1] == steps[..j + 1];
  }

  /**
   * A run that is still streaming has taken every item, holds the
   * concatenation of all deltas, and has counted every newline-bearing delta
   * (fewer than three).
   */
  lemma {:induction false} RunWhileStreaming(steps: seq<Step>, latency: real)
    requires Run(steps, latency).phase == Streaming
    ensures var st := Run(steps, latency);
            st.consumed == |steps| && st.text == Concat(steps) &&
            st.newlineCount == NewlineDeltas(steps) && st.newlineCount < MaxNewlineDeltas
    decreases |steps|
  {
    if steps != [] {
      var before := steps[..|steps| - 1];
      assert Run(before, latency).phase == Streaming;
      RunWhileStreaming(before, latency);
    }
  }

  /** No item of a run that is still streaming met a break condition. */
  lemma {:induction false} StreamingMeetsNoBreak(steps: seq<Step>, latency: real)
    requires Run(steps, latency).phase == Streaming
    ensures forall j :: 0 <= j < |steps| ==> !StopsAt(steps, j, latency)
    decreases |steps|
  {
    if steps != [] {
      var before := steps[..|steps| - 1];
      assert Run(before, latency).phase == Streaming;
      StreamingMeetsNoBreak(before, latency);
      RunWhileStreaming(before, latency);
      forall j | 0 <= j < |before|
        ensures !StopsAt(steps, j, latency)
      {
        StopsAtPrefix(steps, |before|, j, latency);
      }
      assert steps[..|steps|] == steps;
    }
  }

  /**
   * A run that cut off did so on its last consumed item, fed to the state
   * reached by streaming through the items before it.
   */
  lemma {:induction false} RunAtCut(steps: seq<Step>, latency: real)
    requires Run(steps, latency).phase != Streaming
    ensures var st := Run(steps, latency);
            0 < st.consumed <= |steps| &&
            Run(steps[..st.consumed - 1], latency).phase == Streaming &&
            st == Feed(Run(steps[..st.consumed - 1], latency), steps[st.consumed - 1], latency)
    decreases |steps|
  {
    var before := steps[..|steps| - 1];
    if Run(before, latency).phase != Streaming {
      RunAtCut(before, latency);
      var k := Run(before, latency).consumed;
      assert before[..k - 1] == steps[..k - 1];
    } else {
      RunWhileStreaming(before, latency);
    }
  }

  /**
   * The consumed items are a prefix of the stream, the buffer is the
   * concatenation of their deltas in arrival order, and a run that never cut
   * off consumed the whole stream.
   */
  lemma RunConsumesPrefix(steps: seq<Step>, latency: real)
    ensures var st := Run(steps, latency);
            st.consumed <= |steps| && st.text == Concat(steps[..st.consumed]) &&
            (st.phase == Streaming ==> st.consumed == |steps|)
  {
    var st := Run(steps, latency);
    if st.phase == Streaming {
      RunWhileStreaming(steps, latency);
      assert steps[..|steps|] == steps;
    } else {
      RunAtCut(steps, latency);
      var k := st.consumed;
      var before := steps[..k - 1];
      RunWhileStreaming(before, latency);
      assert steps[..k][..k - 1] == before;
    }
  }

  /**
   * The loop exits at the FIRST item meeting a break condition: no earlier
   * consumed item met one, and it cut off exactly when its last consumed item
   * met one. A run that reached the end of the stream met no break condition.
   */
  lemma RunFirstCutoff(steps: seq<Step>, latency: real)
    ensures var st := Run(steps, latency);
            st.consumed <= |steps| &&
            (forall j :: 0 <= j < |steps| && j + 1 < st.consumed ==> !StopsAt(steps, j, latency)) &&
            (st.phase != Streaming <==> 0 < st.consumed && StopsAt(steps, st.consumed - 1, latency)) &&
            (st.phase == Streaming ==>
               st.consumed == |steps| && forall j :: 0 <= j < |steps| ==> !StopsAt(steps, j, latency))
  {
    var st := Run(steps, latency);
    if st.phase == Streaming {
      RunWhileStreaming(steps, latency);
      StreamingMeetsNoBreak(steps, latency);
    } else {
      RunAtCut(steps, latency);
      var k := st.consumed;
      var before := steps[..k - 1];
      RunWhileStreaming(before, latency);
      StreamingMeetsNoBreak(before, latency);
      forall j | 0 <= j < |steps| && j + 1 < k
        ensures !StopsAt(steps, j, latency)
      {
        StopsAtPrefix(steps, k - 1, j, latency);
      }
      assert steps[..k][..k - 1] == before;
      assert NewlineDeltas(steps[..k]) == NewlineDeltas(before) + (if HasNewline(steps[k - 1]) then 1 else 0);
    }
  }

  /**
   * Which cut-off fired: the hard one exactly when the last consumed item is
   * a string delta past the 90% limit; the soft one only on a newline-bearing
   * delta under that limit.
   */
  lemma CutoffKind(steps: seq<Step>, latency: real)
    ensures var st := Run(steps, latency);
            (st.phase == HardCut <==>
               0 < st.consumed <= |steps| && steps[st.consumed - 1].delta.Some? &&
               HardLimit(steps[st.consumed - 1].elapsedMs, latency)) &&
            (st.phase == SoftCut ==>
               0 < st.consumed <= |steps| &&
               HasNewline(steps[st.consumed - 1]) && !HardLimit(steps[st.consumed - 1].elapsedMs, latency))
  {
    var st := Run(steps, latency);
    if st.phase == Streaming {
      RunWhileStreaming(steps, latency);
      if 0 < st.consumed {
        assert !(steps[st.consumed - 1].delta.Some? && HardLimit(steps[st.consumed - 1].elapsedMs, latency)) by {
          StreamingMeetsNoBreak(steps, latency);
          assert !StopsAt(steps, st.consumed - 1, latency);
        }
      }
    } else {
      RunAtCut(steps, latency);
    }
  }

  /**
   * The newline counter counts newline-bearing deltas, not newline
   * characters: it equals the number of such deltas among the first `k`
   * items, where `k` is the number consumed, less the item that triggered a
   * hard cut-off (the count is skipped there).
   */
  lemma RunNewlineCount(steps: seq<Step>, latency: real) returns (k: nat)
    ensures k <= |steps| && k == Run(steps, latency).consumed - (if Run(steps, latency).phase == HardCut then 1 else 0)
    ensures Run(steps, latency).newlineCount == NewlineDeltas(steps[..k])
  {
    var st := Run(steps, latency);
    if st.phase == Streaming {
      RunWhileStreaming(steps, latency);
      assert steps[..|steps|] == steps;
      k := |steps|;
    } else {
      RunAtCut(steps, latency);
      var before := steps[..st.consumed - 1];
      RunWhileStreaming(before, latency);
      assert steps[..st.consumed][..st.consumed - 1] == before;
      k := if st.phase == HardCut then st.consumed - 1 else st.consumed;
    }
  }

  /** The newline counter never exceeds three. */
  lemma RunCounterBound(steps: seq<Step>, latency: real)
    ensures Run(steps, latency).newlineCount <= MaxNewlineDeltas
  {
    if Run(steps, latency).phase == Streaming {
      RunWhileStreaming(steps, latency);
    } else {
      RunAtCut(steps, latency);
      RunWhileStreaming(steps[..Run(steps, latency).consumed - 1], latency);
    }
  }

  /**
   * At most three newline-bearing deltas are ever consumed, and when three
   * are, the last consumed delta is one of them.
   */
  lemma RunNewlineBound(steps: seq<Step>, latency: real)
    ensures var st := Run(steps, latency);
            st.consumed <= |steps| &&
            NewlineDeltas(steps[..st.consumed]) <= MaxNewlineDeltas &&
            (NewlineDeltas(steps[..st.consumed]) == MaxNewlineDeltas ==>
               0 < st.consumed && HasNewline(steps[st.consumed - 1]))
  {
    var st := Run(steps, latency);
    if st.phase == Streaming {
      RunWhileStreaming(steps, latency);
      assert steps[..|steps|] == steps;
    } else {
      RunAtCut(steps, latency);
      var k := st.consumed;
      var before := steps[..k - 1];
      RunWhileStreaming(before, latency);
      assert steps[..k][..k - 1] == before;
    }
  }

  /**
   * The hard cut-off bounds how long the loop keeps reading: every string
   * delta it consumed was read within 90% of the budget, except the last one
   * when that one triggered the hard cut-off.
   */
  lemma ReadingsWithinBudget(steps: seq<Step>, latency: real)
    ensures var st := Run(steps, latency);
            forall j :: 0 <= j < |steps| && j < st.consumed && steps[j].delta.Some? &&
                        (j + 1 < st.consumed || st.phase != HardCut) ==>
              !HardLimit(steps[j].elapsedMs, latency)
  {
    RunFirstCutoff(steps, latency);
    CutoffKind(steps, latency);
  }

  /** Later stream items are never added once a cut-off has fired. */
  lemma CutoffIgnoresLaterDeltas(steps: seq<Step>, more: seq<Step>, latency: real)
    requires Run(steps, latency).phase != Streaming
    ensures Run(steps + more, latency) == Run(steps, latency)
  {
    assert (steps + more)[..|steps|] == steps;
    RunStopped(steps + more, |steps|, latency);
  }

  /**
   * With a monotonic clock, the last clock reading the loop holds is
   * non-negative and at least the reading taken at every consumed string delta.
   */
  lemma {:induction false} RunClock(steps: seq<Step>, latency: real)
    requires ClockMonotone(steps)
    ensures var st := Run(steps, latency);
            0.0 <= st.elapsedMs &&
            forall j :: 0 <= j < |steps| && j < st.consumed && steps[j].delta.Some? ==>
              steps[j].elapsedMs <= st.elapsedMs
    decreases |steps|
  {
    if steps != [] {
      var before := steps[..|steps| - 1];
      assert ClockMonotone(before);
      RunClock(before, latency);
      RunConsumesPrefix(before, latency);
    }
  }

  /**
   * Non-string deltas are inert: dropping them from the stream changes
   * neither the buffer, the newline counter, the clock reading nor the way
   * the loop exits; only the number of items taken differs.
   */
  lemma {:induction false} RunIgnoresSkips(steps: seq<Step>, latency: real)
    ensures Run(steps, latency).(consumed := 0) == Run(TextSteps(steps), latency).(consumed := 0)
    decreases |steps|
  {
    if steps != [] {
      var before := steps[..|steps| - 1];
      var last := steps[|steps| - 1];
      RunIgnoresSkips(before, latency);
      var texts := TextSteps(steps);
      var textsBefore := TextSteps(before);
      if last.delta.Some? {
        assert texts == textsBefore + [last];
        assert texts[..|texts| - 1] == textsBefore;
      } else {
        assert texts == textsBefore;
      }
      if Run(before, latency).phase != Streaming && last.delta.Some? {
        RunStopped(texts, |textsBefore|, latency);
      }
    }
  }
}
