/**
 * The post-processing of `reformulate` in the T5 experiment
 * (query_rewrite_t5_fine_tune_original.py): the beam configuration, and the
 * nested loop that walks the lines of the decoded sequences, cleans each
 * line, keeps the first occurrence of each case-insensitively distinct
 * query and stops as soon as `n` have been kept. The model call itself is an
 * input: `decoded` is what `batch_decode` returned.
 */
module T5Reformulate {
  import opened Text

  /** The characters stripped from both ends of a line before the whitespace strip. */
  const BulletChars: set<char> := { ' ', '-', '\U{2022}', '*', '\t' }

  /** `max(5 * n, 6)`: the number of beams of the diverse beam search. */
  function NumBeams(n: nat): (beams: nat)
    ensures beams >= 6 && beams >= 5 * n
    ensures beams == 6 || beams == 5 * n
  {
    if 5 * n >= 6 then 5 * n else 6
  }

  /**
   * The beam configuration is one the generator accepts for every `n >= 1`:
   * the beams split evenly into the `n` beam groups, and there are at least
   * as many beams as returned sequences.
   */
  lemma BeamsSplitIntoGroups(n: nat)
    requires n >= 1
    ensures NumBeams(n) % n == 0
    ensures n <= NumBeams(n)
  {
    if n == 1 {
      assert NumBeams(n) == 6;
    } else {
      assert NumBeams(n) == 5 * n;
    }
  }

  /** `line.strip(" -•*\t").strip()`. */
  function Clean(line: string): string
  {
    Strip(StripChars(line, BulletChars))
  }

  /** The lines of every decoded sequence, sequence by sequence: what the nested loop walks. */
  function AllLines(decoded: seq<string>): (lines: seq<string>)
    ensures |lines| >= |decoded|
    decreases |decoded|
  {
    if decoded == [] then [] else Split(decoded[0], '\n') + AllLines(decoded[1..])
  }

  /** The lower-cased queries kept so far: the loop's `seen` set. */
  function LowerSet(queries: seq<string>): set<string>
  {
    set i | 0 <= i < |queries| :: Lower(queries[i])
  }

  /** The loop body on one cleaned line: keep it if it is non-empty and not seen yet, ignoring case. */
  function Add(queries: seq<string>, q: string): seq<string>
  {
    if q != [] && Lower(q) !in LowerSet(queries) then queries + [q] else queries
  }

  /**
   * What the nested loop keeps from `lines`, having kept `queries` already:
   * each line is added in turn, and the walk stops right after the line
   * that brings the count to `n`.
   */
  function Collect(lines: seq<string>, queries: seq<string>, n: nat): seq<string>
    decreases |lines|
  {
    if lines == [] then queries
    else
      var next := Add(queries, Clean(lines[0]));
      if |next| >= n then next else Collect(lines[1..], next, n)
  }

  /** The kept queries only grow, at the end, and by at most one per line walked. */
  lemma {:induction false} CollectExtends(lines: seq<string>, queries: seq<string>, n: nat)
    ensures queries <= Collect(lines, queries, n)
    ensures |Collect(lines, queries, n)| <= |queries| + |lines|
    decreases |lines|
  {
    if lines != [] {
      var next := Add(queries, Clean(lines[0]));
      if |next| < n {
        CollectExtends(lines[1..], next, n);
      }
    }
  }

  /**
   * The reference without early exit: the first occurrence of each
   * case-insensitively distinct non-empty candidate, in order.
   */
  function Unique(candidates: seq<string>, queries: seq<string>): seq<string>
    decreases |candidates|
  {
    if candidates == [] then queries else Unique(candidates[1..], Add(queries, candidates[0]))
  }

  /** `s[:n]`. */
  function Take<T>(s: seq<T>, n: nat): (r: seq<T>)
    ensures |r| <= n && |r| <= |s|
    ensures r == s[..|r|]
    ensures |s| <= n ==> r == s
  {
    if |s| <= n then s else s[..n]
  }

  /** `queries[:n] if queries else decoded[:n]`. */
  function Targets(decoded: seq<string>, n: nat): (targets: seq<string>)
    ensures |targets| <= n
  {
    var queries := Collect(AllLines(decoded), [], n);
    if queries != [] then Take(queries, n) else Take(decoded, n)
  }

  /** The lines still to walk at sequence `i`, line `j`. */
  lemma AllLinesStep(decoded: seq<string>, i: nat)
    requires i < |decoded|
    ensures AllLines(decoded[i..]) == Split(decoded[i], '\n') + AllLines(decoded[i + 1..])
  {
    assert decoded[i..][1..] == decoded[i + 1..];
  }

  /** One turn of the inner loop, on the lines that remain from line `j` of the current sequence on. */
  lemma CollectStep(lines: seq<string>, j: nat, rest: seq<string>, queries: seq<string>, n: nat)
    requires j < |lines|
    ensures |Add(queries, Clean(lines[j]))| >= n ==>
              Collect(lines[j..] + rest, queries, n) == Add(queries, Clean(lines[j]))
    ensures |Add(queries, Clean(lines[j]))| < n ==>
              Collect(lines[j..] + rest, queries, n) == Collect(lines[j + 1..] + rest, Add(queries, Clean(lines[j])), n)
  {
    assert (lines[j..] + rest)[0] == lines[j];
    assert (lines[j..] + rest)[1..] == lines[j + 1..] + rest;
  }

  lemma LowerSetAdd(queries: seq<string>, q: string)
    ensures LowerSet(queries + [q]) == LowerSet(queries) + {Lower(q)}
  {
    var extended := queries + [q];
    forall p | p in LowerSet(extended)
      ensures p in LowerSet(queries) + {Lower(q)}
    {
      var i :| 0 <= i < |extended| && p == Lower(extended[i]);
      if i < |queries| {
        assert extended[i] == queries[i];
      }
    }
    forall p | p in LowerSet(queries)
      ensures p in LowerSet(extended)
    {
      var i :| 0 <= i < |queries| && p == Lower(queries[i]);
      assert extended[i] == queries[i];
    }
    assert Lower(extended[|queries|]) in LowerSet(extended);
  }

  /**
   * `reformulate`'s post-processing: for each decoded sequence and each of
   * its lines, clean the line, keep it when it is non-empty and its lower
   * case is not in `seen`, and break out of both loops once `n` queries are
   * kept; then the first `n` queries, or the first `n` decoded sequences
   * when no query was kept.
   */
  method Reformulate(decoded: seq<string>, n: nat) returns (targets: seq<string>)
    ensures targets == Targets(decoded, n)
  {
    ghost var final := Collect(AllLines(decoded), [], n);
    var queries: seq<string> := [];
    var seen: set<string> := {};
    var i := 0;
    while i < |decoded|
      invariant 0 <= i <= |decoded|
      invariant seen == LowerSet(queries)
      invariant final == Collect(AllLines(decoded[i..]), queries, n)
      invariant i > 0 ==> |queries| < n
    {
      AllLinesStep(decoded, i);
      queries, seen := CollectLines(Split(decoded[i], '\n'), AllLines(decoded[i + 1..]), queries, seen, n);
      if |queries| >= n {
        break;
      }
      i := i + 1;
    }
    assert i == |decoded| ==> decoded[i..] == [];
    if queries != [] {
      targets := Take(queries, n);
    } else {
      targets := Take(decoded, n);
    }
  }

  /**
   * The inner loop of `reformulate` over the lines of one decoded sequence,
   * `rest` being the lines of the sequences after it: it stops after the line
   * that brings the count to `n`, and otherwise goes through every line.
   */
  method CollectLines(lines: seq<string>, ghost rest: seq<string>, queries: seq<string>, seen: set<string>, n: nat)
    returns (kept: seq<string>, seenAfter: set<string>)
    requires |lines| >= 1 && seen == LowerSet(queries)
    ensures seenAfter == LowerSet(kept)
    ensures |kept| >= n ==> kept == Collect(lines + rest, queries, n)
    ensures |kept| < n ==> Collect(rest, kept, n) == Collect(lines + rest, queries, n)
  {
    kept, seenAfter := queries, seen;
    var j := 0;
    while j < |lines|
      invariant 0 <= j <= |lines|
      invariant seenAfter == LowerSet(kept)
      invariant Collect(lines[j..] + rest, kept, n) == Collect(lines + rest, queries, n)
      invariant j > 0 ==> |kept| < n
    {
      var q := Clean(lines[j]);
      CollectStep(lines, j, rest, kept, n);
      ghost var before := kept;
      if q != [] && Lower(q) !in seenAfter {
        LowerSetAdd(kept, q);
        kept := kept + [q];
        seenAfter := seenAfter + {Lower(q)};
      }
      assert kept == Add(before, q);
      j := j + 1;
      if |kept| >= n {
        return;
      }
    }
    assert lines[j..] + rest == rest;
  }

  /** No two queries are the same once lower-cased. */
  predicate DistinctIgnoringCase(queries: seq<string>)
  {
    forall i, j :: 0 <= i < j < |queries| ==> Lower(queries[i]) != Lower(queries[j])
  }

  /** The cleaned form of every line, in order. */
  function CleanAll(lines: seq<string>): seq<string>
    decreases |lines|
  {
    if lines == [] then [] else [Clean(lines[0])] + CleanAll(lines[1..])
  }

  /** Adding candidates only ever appends: what was kept stays, in place. */
  lemma {:induction false} UniqueExtends(candidates: seq<string>, queries: seq<string>)
    ensures |queries| <= |Unique(candidates, queries)| && Unique(candidates, queries)[..|queries|] == queries
    decreases |candidates|
  {
    if candidates != [] {
      var next := Add(queries, candidates[0]);
      UniqueExtends(candidates[1..], next);
      assert next[..|queries|] == queries;
      assert Unique(candidates, queries)[..|queries|] == Unique(candidates[1..], next)[..|next|][..|queries|];
    }
  }

  /**
   * The early exit is the only difference from the reference: while fewer
   * than `n` queries are kept, the walk ends with the first `n` queries of
   * the walk over the cleaned lines that never stops early.
   */
  lemma {:induction false} CollectTakesUnique(lines: seq<string>, queries: seq<string>, n: nat)
    requires |queries| < n
    ensures Collect(lines, queries, n) == Take(Unique(CleanAll(lines), queries), n)
    decreases |lines|
  {
    if lines != [] {
      var next := Add(queries, Clean(lines[0]));
      assert CleanAll(lines)[1..] == CleanAll(lines[1..]);
      if |next| >= n {
        UniqueExtends(CleanAll(lines[1..]), next);
      } else {
        CollectTakesUnique(lines[1..], next, n);
      }
    }
  }

  /** A lower-cased query not yet seen differs from the lower case of every kept query. */
  lemma NotSeen(queries: seq<string>, q: string)
    requires Lower(q) !in LowerSet(queries)
    ensures forall i :: 0 <= i < |queries| ==> Lower(queries[i]) != Lower(q)
  {
    forall i | 0 <= i < |queries|
      ensures Lower(queries[i]) != Lower(q)
    {
      assert Lower(queries[i]) in LowerSet(queries);
    }
  }

  /** The `seen` check keeps the kept queries distinct, ignoring case. */
  lemma {:induction false} UniqueDistinct(candidates: seq<string>, queries: seq<string>)
    requires DistinctIgnoringCase(queries)
    ensures DistinctIgnoringCase(Unique(candidates, queries))
    decreases |candidates|
  {
    if candidates != [] {
      var q := candidates[0];
      if q != [] && Lower(q) !in LowerSet(queries) {
        NotSeen(queries, q);
        assert DistinctIgnoringCase(queries + [q]);
      }
      UniqueDistinct(candidates[1..], Add(queries, q));
    }
  }

  /** Every kept query is a non-empty candidate, or was kept before. */
  lemma {:induction false} UniqueFrom(candidates: seq<string>, queries: seq<string>)
    ensures forall i :: 0 <= i < |Unique(candidates, queries)| ==>
              Unique(candidates, queries)[i] in queries ||
              (Unique(candidates, queries)[i] != [] && Unique(candidates, queries)[i] in candidates)
    decreases |candidates|
  {
    if candidates != [] {
      UniqueFrom(candidates[1..], Add(queries, candidates[0]));
    }
  }

  /** What is kept before stays seen. */
  lemma LowerSetPrefix(queries: seq<string>, longer: seq<string>)
    requires |queries| <= |longer| && longer[..|queries|] == queries
    ensures LowerSet(queries) <= LowerSet(longer)
  {
    forall p | p in LowerSet(queries)
      ensures p in LowerSet(longer)
    {
      var i :| 0 <= i < |queries| && p == Lower(queries[i]);
      assert longer[i] == queries[i];
    }
  }

  /** Nothing is lost without the early exit: every non-empty candidate is seen, ignoring case. */
  lemma {:induction false} UniqueComplete(candidates: seq<string>, queries: seq<string>)
    ensures forall k :: 0 <= k < |candidates| && candidates[k] != [] ==>
              Lower(candidates[k]) in LowerSet(Unique(candidates, queries))
    decreases |candidates|
  {
    if candidates != [] {
      var q := candidates[0];
      var next := Add(queries, q);
      UniqueComplete(candidates[1..], next);
      UniqueExtends(candidates[1..], next);
      LowerSetPrefix(next, Unique(candidates[1..], next));
      if q != [] && Lower(q) !in LowerSet(queries) {
        LowerSetAdd(queries, q);
      }
    }
  }

  /** With `n >= 1`, at most `n` queries are kept, and they are the first `n` of the walk without early exit. */
  lemma KeptAtMostN(decoded: seq<string>, n: nat)
    requires n >= 1
    ensures |Collect(AllLines(decoded), [], n)| <= n
  {
    CollectTakesUnique(AllLines(decoded), [], n);
  }

  /** The queries `reformulate` keeps are distinct once lower-cased. */
  lemma KeptDistinct(decoded: seq<string>, n: nat)
    requires n >= 1
    ensures DistinctIgnoringCase(Collect(AllLines(decoded), [], n))
  {
    var lines := AllLines(decoded);
    CollectTakesUnique(lines, [], n);
    UniqueDistinct(CleanAll(lines), []);
  }

  /** Every query `reformulate` keeps is a non-empty cleaned line of a decoded sequence. */
  lemma KeptFromLines(decoded: seq<string>, n: nat)
    requires n >= 1
    ensures forall i :: 0 <= i < |Collect(AllLines(decoded), [], n)| ==>
              Collect(AllLines(decoded), [], n)[i] != [] &&
              Collect(AllLines(decoded), [], n)[i] in CleanAll(AllLines(decoded))
  {
    var lines := AllLines(decoded);
    CollectTakesUnique(lines, [], n);
    UniqueFrom(CleanAll(lines), []);
  }

  /**
   * When fewer than `n` queries are kept, every line of every decoded
   * sequence was looked at: each non-empty cleaned line is among them,
   * ignoring case.
   */
  lemma KeptAllWhenFewer(decoded: seq<string>, n: nat)
    requires n >= 1 && |Collect(AllLines(decoded), [], n)| < n
    ensures forall k :: 0 <= k < |CleanAll(AllLines(decoded))| && CleanAll(AllLines(decoded))[k] != [] ==>
              Lower(CleanAll(AllLines(decoded))[k]) in LowerSet(Collect(AllLines(decoded), [], n))
  {
    var lines := AllLines(decoded);
    CollectTakesUnique(lines, [], n);
    UniqueComplete(CleanAll(lines), []);
  }

  /** No query is kept exactly when every line cleans to the empty string. */
  lemma NoneKeptIff(decoded: seq<string>, n: nat)
    requires n >= 1
    ensures Collect(AllLines(decoded), [], n) == [] <==>
              forall k :: 0 <= k < |CleanAll(AllLines(decoded))| ==> CleanAll(AllLines(decoded))[k] == []
  {
    var lines := AllLines(decoded);
    var candidates := CleanAll(lines);
    CollectTakesUnique(lines, [], n);
    UniqueComplete(candidates, []);
    UniqueFrom(candidates, []);
    var kept := Unique(candidates, []);
    if kept != [] {
      assert kept[0] in candidates;
      var k :| 0 <= k < |candidates| && candidates[k] == kept[0];
    }
    assert LowerSet([]) == {};
  }

  /** The kept queries are never cut: when there are any, they are the targets. */
  lemma TargetsAreKept(decoded: seq<string>, n: nat)
    requires n >= 1 && Collect(AllLines(decoded), [], n) != []
    ensures Targets(decoded, n) == Collect(AllLines(decoded), [], n)
  {
    CollectTakesUnique(AllLines(decoded), [], n);
  }
}
