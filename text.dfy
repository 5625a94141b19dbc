/**
 * The string operations of Python that the rewriters rely on: `str.strip()`
 * with and without an argument, `str.split(sep)` for a one-character
 * separator, the keep-if-truthy filter `[q for q in pieces if q]`, and
 * `str.lower()` restricted to ASCII letters.
 */
module Text {

  /** The characters for which Python's `str.isspace()` holds; `str.strip()` with no argument removes them. */
  const Whitespace: set<char> :=
    { '\t', '\n', '\U{0B}', '\U{0C}', '\r', '\U{1C}', '\U{1D}', '\U{1E}', '\U{1F}', ' ',
      '\U{85}', '\U{A0}', '\U{1680}',
      '\U{2000}', '\U{2001}', '\U{2002}', '\U{2003}', '\U{2004}', '\U{2005}',
      '\U{2006}', '\U{2007}', '\U{2008}', '\U{2009}', '\U{200A}',
      '\U{2028}', '\U{2029}', '\U{202F}', '\U{205F}', '\U{3000}' }

  lemma NewlineIsSpace()
    ensures '\n' in Whitespace
  {
  }

  /** `s.lstrip(cs)`: drops the longest prefix made of characters of `cs`. */
  function TrimLeft(s: string, cs: set<char>): (r: string)
    ensures |r| <= |s| && r == s[|s| - |r|..]
    ensures forall k :: 0 <= k < |s| - |r| ==> s[k] in cs
    ensures r != [] ==> r[0] !in cs
    decreases |s|
  {
    if s != [] && s[0] in cs then TrimLeft(s[1..], cs) else s
  }

  /** `s.rstrip(cs)`: drops the longest suffix made of characters of `cs`. */
  function TrimRight(s: string, cs: set<char>): (r: string)
    ensures |r| <= |s| && r == s[..|r|]
    ensures forall k :: |r| <= k < |s| ==> s[k] in cs
    ensures r != [] ==> r[|r| - 1] !in cs
    decreases |s|
  {
    if s != [] && s[|s| - 1] in cs then TrimRight(s[..|s| - 1], cs) else s
  }

  /**
   * `s.strip(cs)`: the result is the slice of `s` that starts after the
   * leading run of `cs` characters and stops before the trailing one.
   */
  function StripChars(s: string, cs: set<char>): (r: string)
    ensures r != [] ==> r[0] !in cs && r[|r| - 1] !in cs
  {
    var left := TrimLeft(s, cs);
    var r := TrimRight(left, cs);
    assert r != [] ==> r[0] == left[0];
    r
  }

  /** Where the slice that `strip(cs)` keeps begins. */
  function StripStart(s: string, cs: set<char>): nat
  {
    |s| - |TrimLeft(s, cs)|
  }

  /** `strip(cs)` keeps one slice of `s`, beginning at `StripStart(s, cs)`. */
  lemma StripCharsSlice(s: string, cs: set<char>) returns (i: nat)
    ensures i == StripStart(s, cs) && i + |StripChars(s, cs)| <= |s|
    ensures StripChars(s, cs) == s[i..i + |StripChars(s, cs)|]
  {
    var left := TrimLeft(s, cs);
    var r := TrimRight(left, cs);
    i := |s| - |left|;
    SliceOfSuffix(s, left, r, i, cs);
  }

  /** What `strip(cs)` removes in front of and behind the slice it keeps consists of characters of `cs`. */
  lemma StripCharsRemoved(s: string, cs: set<char>)
    ensures forall k :: 0 <= k < StripStart(s, cs) ==> s[k] in cs
    ensures forall k :: StripStart(s, cs) + |StripChars(s, cs)| <= k < |s| ==> s[k] in cs
  {
    var left := TrimLeft(s, cs);
    var r := TrimRight(left, cs);
    SliceOfSuffix(s, left, r, |s| - |left|, cs);
  }

  /** A prefix `r` of the suffix `left == s[i..]` is a slice of `s`; what follows `r` in `left` follows it in `s`. */
  lemma SliceOfSuffix(s: string, left: string, r: string, i: nat, cs: set<char>)
    requires i <= |s| && left == s[i..]
    requires |r| <= |left| && r == left[..|r|]
    requires forall k :: |r| <= k < |left| ==> left[k] in cs
    ensures i + |r| <= |s| && r == s[i..i + |r|]
    ensures forall k :: i + |r| <= k < |s| ==> s[k] in cs
  {
    forall k | i + |r| <= k < |s|
      ensures s[k] in cs
    {
      assert s[k] == left[k - i];
    }
  }

  /** `strip(cs)` yields the empty string exactly when every character is in `cs`. */
  lemma StripCharsEmpty(s: string, cs: set<char>)
    ensures StripChars(s, cs) == [] <==> forall k :: 0 <= k < |s| ==> s[k] in cs
  {
    var i := StripCharsSlice(s, cs);
    StripCharsRemoved(s, cs);
    var r := StripChars(s, cs);
    if r != [] {
      assert s[i] == r[0];
    }
  }

  /** `s.strip()`: removes leading and trailing whitespace. */
  function Strip(s: string): (r: string)
    ensures r != [] ==> r[0] !in Whitespace && r[|r| - 1] !in Whitespace
  {
    StripChars(s, Whitespace)
  }

  /** A string is blank when every character of it is whitespace (the empty string included). */
  predicate Blank(s: string)
  {
    forall k :: 0 <= k < |s| ==> s[k] in Whitespace
  }

  /** `strip()` yields the empty string exactly for blank strings. */
  lemma StripBlank(s: string)
    ensures Strip(s) == [] <==> Blank(s)
  {
    StripCharsEmpty(s, Whitespace);
  }

  /** A string that neither starts nor ends with a character of `cs` is left alone by `strip(cs)`. */
  lemma StripCharsNoop(s: string, cs: set<char>)
    requires s != [] ==> s[0] !in cs && s[|s| - 1] !in cs
    ensures StripChars(s, cs) == s
  {
  }

  /**
   * `s.split(sep)`: the pieces between occurrences of `sep`, in order. Python
   * returns `[""]` for the empty string, so there is always at least one piece.
   */
  function Split(s: string, sep: char): (pieces: seq<string>)
    ensures |pieces| >= 1
    ensures forall i :: 0 <= i < |pieces| ==> sep !in pieces[i]
    ensures s != [] && s[0] != sep ==> pieces[0] != [] && pieces[0][0] == s[0]
    ensures s != [] && s[|s| - 1] != sep ==>
              var last := pieces[|pieces| - 1]; last != [] && last[|last| - 1] == s[|s| - 1]
    decreases |s|
  {
    if s == [] then [[]]
    else
      var rest := Split(s[1..], sep);
      if s[0] == sep then [[]] + rest
      else [[s[0]] + rest[0]] + rest[1..]
  }

  /** `sep.join(pieces)`. */
  function Join(pieces: seq<string>, sep: char): string
  {
    if pieces == [] then []
    else if |pieces| == 1 then pieces[0]
    else pieces[0] + [sep] + Join(pieces[1..], sep)
  }

  /** Joining the pieces of a split gives the string back. */
  lemma {:induction false} SplitJoin(s: string, sep: char)
    ensures Join(Split(s, sep), sep) == s
    decreases |s|
  {
    if s != [] {
      var rest := Split(s[1..], sep);
      SplitJoin(s[1..], sep);
      assert s == [s[0]] + s[1..];
      if s[0] == sep {
        assert Split(s, sep) == [[]] + rest;
        assert ([[]] + rest)[1..] == rest;
      } else {
        JoinPrepend(s[0], rest, sep);
      }
    }
  }

  /** Prepending a character to the first piece prepends it to the join. */
  lemma JoinPrepend(c: char, pieces: seq<string>, sep: char)
    requires |pieces| >= 1
    ensures Join([[c] + pieces[0]] + pieces[1..], sep) == [c] + Join(pieces, sep)
  {
    var longer := [[c] + pieces[0]] + pieces[1..];
    assert longer[1..] == pieces[1..];
  }

  /** A string without the separator is a single piece. */
  lemma {:induction false} SplitNoSeparator(w: string, sep: char)
    requires sep !in w
    ensures Split(w, sep) == [w]
    decreases |w|
  {
    if w != [] {
      SplitNoSeparator(w[1..], sep);
      assert w == [w[0]] + w[1..];
    }
  }

  /** Splitting `w + sep + t`, with no separator in `w`, yields `w` and then the pieces of `t`. */
  lemma {:induction false} SplitAtFirstSeparator(w: string, sep: char, t: string)
    requires sep !in w
    ensures Split(w + [sep] + t, sep) == [w] + Split(t, sep)
    decreases |w|
  {
    var s := w + [sep] + t;
    if w == [] {
      assert s[1..] == t;
    } else {
      assert s[1..] == w[1..] + [sep] + t;
      SplitAtFirstSeparator(w[1..], sep, t);
      assert w == [w[0]] + w[1..];
    }
  }

  /** Splitting a join of separator-free pieces gives the pieces back. */
  lemma {:induction false} JoinSplit(pieces: seq<string>, sep: char)
    requires |pieces| >= 1
    requires forall i :: 0 <= i < |pieces| ==> sep !in pieces[i]
    ensures Split(Join(pieces, sep), sep) == pieces
    decreases |pieces|
  {
    if |pieces| == 1 {
      SplitNoSeparator(pieces[0], sep);
    } else {
      JoinSplit(pieces[1..], sep);
      SplitAtFirstSeparator(pieces[0], sep, Join(pieces[1..], sep));
      assert pieces == [pieces[0]] + pieces[1..];
    }
  }

  /** There is one piece more than there are separators. */
  lemma {:induction false} SplitCount(s: string, sep: char)
    ensures |Split(s, sep)| == Count(s, sep) + 1
    decreases |s|
  {
    if s != [] {
      SplitCount(s[1..], sep);
    }
  }

  /** `s.count(c)` for a single character `c`. */
  function Count(s: string, c: char): nat
    decreases |s|
  {
    if s == [] then 0 else (if s[0] == c then 1 else 0) + Count(s[1..], c)
  }

  /** Counting distributes over concatenation. */
  lemma {:induction false} CountAppend(a: string, b: string, c: char)
    ensures Count(a + b, c) == Count(a, c) + Count(b, c)
    decreases |a|
  {
    if a == [] {
      assert a + b == b;
    } else {
      assert (a + b)[1..] == a[1..] + b;
      CountAppend(a[1..], b, c);
    }
  }

  /** A character occurs in `s` exactly when its count is positive. */
  lemma {:induction false} CountPositive(s: string, c: char)
    ensures c in s <==> Count(s, c) > 0
    decreases |s|
  {
    if s != [] {
      CountPositive(s[1..], c);
      assert s == [s[0]] + s[1..];
    }
  }

  /** The first and last characters of a join come from its first and last pieces. */
  lemma JoinEnds(pieces: seq<string>, sep: char)
    requires |pieces| >= 1 && pieces[0] != [] && pieces[|pieces| - 1] != []
    ensures var s := Join(pieces, sep); var last := pieces[|pieces| - 1];
            s != [] && s[0] == pieces[0][0] && s[|s| - 1] == last[|last| - 1]
  {
    JoinLastChar(pieces, sep);
  }

  /** The last character of a join of two or more pieces, the last of which is not empty. */
  lemma {:induction false} JoinLastChar(pieces: seq<string>, sep: char)
    requires |pieces| >= 1 && pieces[|pieces| - 1] != []
    ensures var s := Join(pieces, sep); var last := pieces[|pieces| - 1];
            s != [] && s[|s| - 1] == last[|last| - 1]
    decreases |pieces|
  {
    if |pieces| > 1 {
      JoinLastChar(pieces[1..], sep);
    }
  }

  /** `[q for q in pieces if q]`: the non-empty pieces, in order (see the lemmas below). */
  function NonEmpty(pieces: seq<string>): (kept: seq<string>)
    ensures |kept| <= |pieces|
  {
    if pieces == [] then []
    else (if pieces[0] == [] then [] else [pieces[0]]) + NonEmpty(pieces[1..])
  }

  /** Every kept piece is a non-empty piece of the input. */
  lemma {:induction false} NonEmptyKept(pieces: seq<string>)
    ensures forall i :: 0 <= i < |NonEmpty(pieces)| ==> NonEmpty(pieces)[i] != [] && NonEmpty(pieces)[i] in pieces
    decreases |pieces|
  {
    if pieces != [] {
      var head := if pieces[0] == [] then [] else [pieces[0]];
      var rest := NonEmpty(pieces[1..]);
      NonEmptyKept(pieces[1..]);
      assert NonEmpty(pieces) == head + rest;
      forall i | 0 <= i < |NonEmpty(pieces)|
        ensures NonEmpty(pieces)[i] != [] && NonEmpty(pieces)[i] in pieces
      {
        if i >= |head| {
          assert NonEmpty(pieces)[i] == rest[i - |head|];
          assert rest[i - |head|] in pieces[1..];
        }
      }
    }
  }

  /** A non-empty first or last piece is kept as the first or the last entry. */
  lemma {:induction false} NonEmptyEnds(pieces: seq<string>)
    ensures pieces != [] && pieces[0] != [] ==> NonEmpty(pieces) != [] && NonEmpty(pieces)[0] == pieces[0]
    ensures pieces != [] && pieces[|pieces| - 1] != [] ==>
              NonEmpty(pieces) != [] && NonEmpty(pieces)[|NonEmpty(pieces)| - 1] == pieces[|pieces| - 1]
    decreases |pieces|
  {
    if pieces != [] {
      var head := if pieces[0] == [] then [] else [pieces[0]];
      var rest := NonEmpty(pieces[1..]);
      assert NonEmpty(pieces) == head + rest;
      if |pieces| > 1 {
        NonEmptyEnds(pieces[1..]);
        assert pieces[1..][|pieces| - 2] == pieces[|pieces| - 1];
      }
    }
  }

  /** When no piece is empty, all of them are kept. */
  lemma {:induction false} NonEmptyAll(pieces: seq<string>)
    requires forall i :: 0 <= i < |pieces| ==> pieces[i] != []
    ensures NonEmpty(pieces) == pieces
    decreases |pieces|
  {
    if pieces != [] {
      NonEmptyAll(pieces[1..]);
      assert pieces == [pieces[0]] + pieces[1..];
    }
  }

  /** The filter distributes over concatenation: each part gives its own non-empty pieces, in order. */
  lemma {:induction false} NonEmptyAppend(a: seq<string>, b: seq<string>)
    ensures NonEmpty(a + b) == NonEmpty(a) + NonEmpty(b)
    decreases |a|
  {
    if a == [] {
      assert a + b == b;
    } else {
      assert (a + b)[1..] == a[1..] + b;
      NonEmptyAppend(a[1..], b);
    }
  }

  /** A single piece is kept exactly when it is non-empty. */
  lemma NonEmptySingle(p: string)
    ensures NonEmpty([p]) == if p == [] then [] else [p]
  {
    assert [p][1..] == [];
  }

  /** The ASCII part of `str.lower()`: upper-case letters map to lower case, everything else is kept. */
  function LowerChar(c: char): char
  {
    if 'A' <= c <= 'Z' then (c as int + 32) as char else c
  }

  /** `s.lower()`, character by character. */
  function Lower(s: string): (r: string)
    ensures |r| == |s|
  {
    seq(|s|, i requires 0 <= i < |s| => LowerChar(s[i]))
  }
}
