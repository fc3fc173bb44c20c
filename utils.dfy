/** `lines_span` of src/utils.rs: from a closed line/column range in a source text,
    the byte range of the lines it covers and the columns within that range.  A
    `char` stands for one byte of the text. */
module Utils {

  import opened Wrappers
  import opened Strings

  /** `split_inclusive('\n')`: the lines, each with its newline; the last one lacks
      it when the text does not end in a newline, and an empty text has no lines. */
  function SplitLines(s: string): (r: seq<string>)
    ensures forall k :: 0 <= k < |r| ==> |r[k]| > 0
    ensures |s| > 0 ==> |r| > 0
  {
    if |s| == 0 then []
    else
      var rest := SplitLines(s[1..]);
      if s[0] == '\n' || |rest| == 0 then [[s[0]]] + rest
      else [[s[0]] + rest[0]] + rest[1..]
  }

  /** The lines put back together are the text. */
  lemma {:induction false} SplitLinesConcat(s: string)
    ensures Concat(SplitLines(s)) == s
    decreases |s|
  {
    if |s| > 0 {
      SplitLinesConcat(s[1..]);
      var rest := SplitLines(s[1..]);
      if !(s[0] == '\n' || |rest| == 0) {
        assert rest == [rest[0]] + rest[1..];
        assert Concat(rest) == rest[0] + Concat(rest[1..]);
      }
    }
  }

  /** No line has a newline before its last character. */
  predicate NewlineOnlyLast(p: string)
  {
    forall j :: 0 <= j < |p| - 1 ==> p[j] != '\n'
  }

  /** Each line but the last ends in a newline, and no line has one before its end. */
  predicate AreLines(r: seq<string>)
  {
    && (forall k :: 0 <= k < |r| - 1 ==> |r[k]| > 0 && r[k][|r[k]| - 1] == '\n')
    && (forall k :: 0 <= k < |r| ==> NewlineOnlyLast(r[k]))
  }

  /** The pieces `split_inclusive('\n')` yields are lines. */
  lemma {:induction false} SplitLinesAreLines(s: string)
    ensures AreLines(SplitLines(s))
    decreases |s|
  {
    if |s| > 0 {
      SplitLinesAreLines(s[1..]);
      var rest := SplitLines(s[1..]);
      if s[0] == '\n' || |rest| == 0 {
        NewLineAreLines(s[0], rest);
      } else {
        JoinedAreLines(s[0], rest);
      }
    }
  }

  /** A line of its own in front of lines. */
  lemma NewLineAreLines(c: char, rest: seq<string>)
    requires AreLines(rest) && (c == '\n' || |rest| == 0)
    ensures AreLines([[c]] + rest)
  {
    var r := [[c]] + rest;
    forall k | 0 <= k < |r| - 1
      ensures |r[k]| > 0 && r[k][|r[k]| - 1] == '\n'
    {
      if k > 0 {
        assert r[k] == rest[k - 1];
      }
    }
    forall k | 0 <= k < |r|
      ensures NewlineOnlyLast(r[k])
    {
      if k > 0 {
        assert r[k] == rest[k - 1];
      }
    }
  }

  /** A character other than a newline in front of the first of some lines. */
  lemma JoinedAreLines(c: char, rest: seq<string>)
    requires AreLines(rest) && c != '\n' && |rest| > 0 && |rest[0]| > 0
    ensures AreLines([[c] + rest[0]] + rest[1..])
  {
    var first := [c] + rest[0];
    var r := [first] + rest[1..];
    assert NewlineOnlyLast(rest[0]);
    forall j | 0 <= j < |first| - 1
      ensures first[j] != '\n'
    {
      if j > 0 {
        assert first[j] == rest[0][j - 1];
      }
    }
    forall k | 0 <= k < |r| - 1
      ensures |r[k]| > 0 && r[k][|r[k]| - 1] == '\n'
    {
      if k == 0 {
        assert first[|first| - 1] == rest[0][|rest[0]| - 1];
      } else {
        assert r[k] == rest[k];
      }
    }
    forall k | 0 <= k < |r|
      ensures NewlineOnlyLast(r[k])
    {
      if k > 0 {
        assert r[k] == rest[k];
      }
    }
  }

  /** The concatenation of a prefix of lines is that of a shorter prefix followed
      by the lines in between. */
  lemma ConcatPrefixes(ps: seq<string>, i: nat, j: nat)
    requires i <= j <= |ps|
    ensures Concat(ps[..j]) == Concat(ps[..i]) + Concat(ps[i..j])
  {
    ConcatSplit(ps[..j], i);
    assert ps[..j][..i] == ps[..i] && ps[..j][i..] == ps[i..j];
  }

  /** One more line read by a loop. */
  lemma ConcatStep(ps: seq<string>, i: nat, j: nat)
    requires i <= j < |ps|
    ensures |Concat(ps[i..j + 1])| == |Concat(ps[i..j])| + |ps[j]|
  {
    ConcatSnoc(ps[i..j], ps[j]);
    assert ps[i..j + 1] == ps[i..j] + [ps[j]];
  }

  /** In a text made of lines, the text before the first `i` lines' length is those
      lines, and the text between the first `i` and the first `j` lines' lengths is
      the lines in between. */
  lemma ConcatSlices(s: string, ps: seq<string>, i: nat, j: nat)
    requires Concat(ps) == s && i <= j <= |ps|
    ensures |Concat(ps[..i])| <= |Concat(ps[..j])| <= |s|
    ensures s[..|Concat(ps[..i])|] == Concat(ps[..i])
    ensures s[|Concat(ps[..i])|..|Concat(ps[..j])|] == Concat(ps[i..j])
  {
    ConcatSplit(ps, j);
    ConcatPrefixes(ps, i, j);
  }

  /** The number of lines the first loop reads: those before line `lineStart`. */
  function Before(lineStart: nat): nat
  {
    if lineStart == 0 then 0 else lineStart - 1
  }

  /** The number of lines the second loop reads. */
  function Middle(lineStart: nat, lineEnd: nat): nat
  {
    if lineEnd <= lineStart then 0 else lineEnd - lineStart
  }

  const SubtractOverflow := "attempt to subtract with overflow"

  datatype Span = Span(start: nat, end: nat, colStart: nat, colEnd: nat)

  /** The byte range from the start of line `lineStart` to the end of line
      `lineEnd`, both counted from 1, and the columns `colStart - 1` and `colEnd`
      shifted by the lines before the last.  No span when the text has too few
      lines; `colStart - 1` on 0 is the debug build's overflow panic. */
  function LinesSpan(source: string, lineStart: nat, colStart: nat, lineEnd: nat, colEnd: nat)
    : Result<Option<Span>, string>
  {
    var lines := SplitLines(source);
    var b := Before(lineStart);
    var n := b + Middle(lineStart, lineEnd);
    if |lines| <= n then Ok(None)
    else if colStart == 0 then Err(SubtractOverflow)
    else
      var start := |Concat(lines[..b])|;
      var middle := |Concat(lines[b..n])|;
      Ok(Some(Span(start, start + middle + |lines[n]|, colStart - 1, middle + colEnd)))
  }

  /** `lines_span`, reading the lines through one iterator in its two loops and
      once more for the last line. */
  method LinesSpanOf(source: string, start: (nat, nat), end: (nat, nat)) returns (r: Result<Option<Span>, string>)
    ensures r == LinesSpan(source, start.0, start.1, end.0, end.1)
  {
    var lines := SplitLines(source);
    ghost var b := Before(start.0);
    ghost var n := b + Middle(start.0, end.0);
    var next := 0;
    var linesBefore := 0;
    var k := 1;
    while k < start.0
      invariant next == Before(k) && next <= b && 1 <= k
      invariant next <= |lines| && linesBefore == |Concat(lines[..next])|
    {
      if next == |lines| {
        return Ok(None);
      }
      ConcatStep(lines, 0, next);
      assert lines[0..next] == lines[..next] && lines[0..next + 1] == lines[..next + 1];
      linesBefore := linesBefore + |lines[next]|;
      next := next + 1;
      k := k + 1;
    }
    assert next == b;
    var linesMiddle := 0;
    k := start.0;
    while k < end.0
      invariant start.0 <= k && next == b + Middle(start.0, k) && next <= n
      invariant next <= |lines| && linesMiddle == |Concat(lines[b..next])|
    {
      if next == |lines| {
        return Ok(None);
      }
      ConcatStep(lines, b, next);
      linesMiddle := linesMiddle + |lines[next]|;
      next := next + 1;
      k := k + 1;
    }
    assert next == n;
    if next == |lines| {
      return Ok(None);
    }
    var linesAfter := |lines[next]|;
    if start.1 == 0 {
      return Err(SubtractOverflow);
    }
    r := Ok(Some(Span(linesBefore, linesBefore + linesMiddle + linesAfter, start.1 - 1, linesMiddle + end.1)));
  }

  // ---------------------------------------------------------------------------
  // What the span means

  /** There is no span exactly when the text has fewer lines than the range needs. */
  lemma LinesSpanNone(source: string, lineStart: nat, colStart: nat, lineEnd: nat, colEnd: nat)
    ensures LinesSpan(source, lineStart, colStart, lineEnd, colEnd) == Ok(None)
        <==> |SplitLines(source)| < Before(lineStart) + Middle(lineStart, lineEnd) + 1
  {
  }

  /** The span's ends are the lengths of the lines before line `lineStart` and of
      the lines up to `lineEnd`. */
  lemma LinesSpanEnds(source: string, lineStart: nat, colStart: nat, lineEnd: nat, colEnd: nat)
    requires LinesSpan(source, lineStart, colStart, lineEnd, colEnd).Ok?
    requires LinesSpan(source, lineStart, colStart, lineEnd, colEnd).value.Some?
    ensures var sp := LinesSpan(source, lineStart, colStart, lineEnd, colEnd).value.value;
      var lines := SplitLines(source);
      var b := Before(lineStart);
      var n := b + Middle(lineStart, lineEnd);
      && sp.start == |Concat(lines[..b])| && sp.end == |Concat(lines[..n + 1])|
      && sp.end - sp.start == |Concat(lines[b..n])| + |lines[n]|
  {
    var lines := SplitLines(source);
    var b := Before(lineStart);
    var n := b + Middle(lineStart, lineEnd);
    ConcatPrefixes(lines, b, n + 1);
    ConcatStep(lines, b, n);
  }

  /** The span starts where line `lineStart` starts and covers exactly the lines up
      to `lineEnd`, within the text; its length is theirs. */
  lemma LinesSpanRange(source: string, lineStart: nat, colStart: nat, lineEnd: nat, colEnd: nat)
    requires LinesSpan(source, lineStart, colStart, lineEnd, colEnd).Ok?
    requires LinesSpan(source, lineStart, colStart, lineEnd, colEnd).value.Some?
    ensures var sp := LinesSpan(source, lineStart, colStart, lineEnd, colEnd).value.value;
      var lines := SplitLines(source);
      var b := Before(lineStart);
      var n := b + Middle(lineStart, lineEnd);
      && sp.start <= sp.end <= |source|
      && source[..sp.start] == Concat(lines[..b])
      && source[sp.start..sp.end] == Concat(lines[b..n + 1])
      && sp.end - sp.start == |Concat(lines[b..n])| + |lines[n]|
  {
    var lines := SplitLines(source);
    SplitLinesConcat(source);
    LinesSpanEnds(source, lineStart, colStart, lineEnd, colEnd);
    ConcatSlices(source, lines, Before(lineStart), Before(lineStart) + Middle(lineStart, lineEnd) + 1);
  }

  /** The columns: the start column is made 0-based, the end column is shifted by
      the lines before the last, and is kept as it is on a one-line range. */
  lemma LinesSpanColumns(source: string, lineStart: nat, colStart: nat, lineEnd: nat, colEnd: nat)
    requires LinesSpan(source, lineStart, colStart, lineEnd, colEnd).Ok?
    requires LinesSpan(source, lineStart, colStart, lineEnd, colEnd).value.Some?
    ensures var sp := LinesSpan(source, lineStart, colStart, lineEnd, colEnd).value.value;
      var b := Before(lineStart);
      && sp.colStart + 1 == colStart
      && sp.colEnd == |Concat(SplitLines(source)[b..b + Middle(lineStart, lineEnd)])| + colEnd
      && (lineStart >= lineEnd ==> sp.colEnd == colEnd)
  {
    var b := Before(lineStart);
    if lineStart >= lineEnd {
      assert SplitLines(source)[b..b] == [];
    }
  }

  /** The debug build panics on a start column 0 once the lines are there. */
  lemma LinesSpanPanics(source: string, lineStart: nat, lineEnd: nat, colEnd: nat)
    requires |SplitLines(source)| > Before(lineStart) + Middle(lineStart, lineEnd)
    ensures LinesSpan(source, lineStart, 0, lineEnd, colEnd) == Err(SubtractOverflow)
  {
  }
}
