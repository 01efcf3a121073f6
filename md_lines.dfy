/** The line splitter of the highlighter (`parseText`): cuts the editor text
    into lines, each with its content and its `[start, end)` range. */
module LineSplitter {
  import opened JsStrings

  datatype Line = Line(content: string, range: (nat, nat))

  function Contents(lines: seq<Line>): (r: seq<string>)
    ensures |r| == |lines|
    ensures forall k :: 0 <= k < |lines| ==> r[k] == lines[k].content
  {
    if lines == [] then [] else [lines[0].content] + Contents(lines[1..])
  }

  /** The remaining work of `parseText` when the current line began at
      `lineStart`, the scan has reached `lineEnd`, and `lines` are done. The
      end-of-input test comes before the newline test, as in the source. */
  function SplitFrom(input: string, lineStart: nat, lineEnd: nat, lines: seq<Line>): seq<Line>
    requires lineStart <= lineEnd < |input|
    decreases |input| - lineEnd
  {
    if lineEnd == |input| - 1 then
      lines + [Line(input[lineStart..], (lineStart, |input|))]
    else if input[lineEnd] == '\n' then
      SplitFrom(input, lineEnd + 1, lineEnd + 1, lines + [Line(input[lineStart..lineEnd], (lineStart, lineEnd))])
    else
      SplitFrom(input, lineStart, lineEnd + 1, lines)
  }

  /** What `parseText(input)` returns. */
  function SplitLines(input: string): seq<Line> {
    if |input| == 0 then [] else SplitFrom(input, 0, 0, [])
  }

  /** Each line's content is the input between its range bounds. */
  predicate WellCut(input: string, l: Line) {
    l.range.0 <= l.range.1 <= |input| && l.content == input[l.range.0..l.range.1]
  }

  /** Every line but the last is newline-free, and is followed in the input
      by the newline it was cut at, one before where the next line starts. */
  predicate Separated(input: string, lines: seq<Line>, count: nat)
    requires count <= |lines|
  {
    forall k :: 0 <= k < count ==>
      WellCut(input, lines[k]) && '\n' !in lines[k].content &&
      lines[k].range.1 < |input| && input[lines[k].range.1] == '\n' &&
      (k + 1 < |lines| ==> lines[k + 1].range.0 == lines[k].range.1 + 1)
  }

  /** `lines` cover `input` from 0 up to (not including) `upTo`. */
  predicate CutsPrefix(input: string, lines: seq<Line>, upTo: nat) {
    Separated(input, lines, |lines|) &&
    (lines == [] ==> upTo == 0) &&
    (lines != [] ==> lines[0].range.0 == 0 && lines[|lines| - 1].range.1 + 1 == upTo)
  }

  /** The last line runs to the end of the input and holds a newline only as
      its final character. */
  predicate LastLine(input: string, l: Line) {
    WellCut(input, l) && l.range.1 == |input| && |l.content| > 0 &&
    '\n' !in l.content[..|l.content| - 1]
  }

  /** The lines tile the whole input: there is a line exactly when the input
      is non-empty; the first starts at 0, each next one starts one past the
      end of the previous one, where the input holds a newline; the last ends
      at the end of the input. No line but the last holds a newline, and the
      last holds one only as its final character. */
  predicate Tiles(input: string, lines: seq<Line>) {
    (lines == [] <==> |input| == 0) &&
    (lines != [] ==>
       lines[0].range.0 == 0 &&
       Separated(input, lines, |lines| - 1) &&
       LastLine(input, lines[|lines| - 1]))
  }

  lemma CutAtNewline(input: string, lines: seq<Line>, lineStart: nat, lineEnd: nat)
    requires lineStart <= lineEnd < |input| && input[lineEnd] == '\n'
    requires CutsPrefix(input, lines, lineStart)
    requires '\n' !in input[lineStart..lineEnd]
    ensures CutsPrefix(input, lines + [Line(input[lineStart..lineEnd], (lineStart, lineEnd))], lineEnd + 1)
  {
    var next := lines + [Line(input[lineStart..lineEnd], (lineStart, lineEnd))];
    forall k | 0 <= k < |next|
      ensures WellCut(input, next[k]) && '\n' !in next[k].content
      ensures next[k].range.1 < |input| && input[next[k].range.1] == '\n'
      ensures k + 1 < |next| ==> next[k + 1].range.0 == next[k].range.1 + 1
    {
      if k < |lines| {
        assert next[k] == lines[k];
      }
    }
  }

  lemma CutAtEnd(input: string, lines: seq<Line>, lineStart: nat)
    requires lineStart < |input|
    requires CutsPrefix(input, lines, lineStart)
    requires '\n' !in input[lineStart..|input| - 1]
    ensures Tiles(input, lines + [Line(input[lineStart..], (lineStart, |input|))])
  {
    var last := Line(input[lineStart..], (lineStart, |input|));
    var r := lines + [last];
    assert last.content[..|last.content| - 1] == input[lineStart..|input| - 1];
    forall k | 0 <= k < |r| - 1
      ensures WellCut(input, r[k]) && '\n' !in r[k].content
      ensures r[k].range.1 < |input| && input[r[k].range.1] == '\n'
      ensures k + 1 < |r| ==> r[k + 1].range.0 == r[k].range.1 + 1
    {
      assert r[k] == lines[k];
    }
    if lines != [] {
      assert r[0] == lines[0];
    }
  }

  lemma {:induction false} SplitFromTiles(input: string, lineStart: nat, lineEnd: nat, lines: seq<Line>)
    requires lineStart <= lineEnd < |input|
    requires CutsPrefix(input, lines, lineStart)
    requires '\n' !in input[lineStart..lineEnd]
    ensures Tiles(input, SplitFrom(input, lineStart, lineEnd, lines))
    decreases |input| - lineEnd
  {
    if lineEnd == |input| - 1 {
      CutAtEnd(input, lines, lineStart);
    } else if input[lineEnd] == '\n' {
      CutAtNewline(input, lines, lineStart, lineEnd);
      assert input[lineEnd + 1..lineEnd + 1] == [];
      SplitFromTiles(input, lineEnd + 1, lineEnd + 1, lines + [Line(input[lineStart..lineEnd], (lineStart, lineEnd))]);
    } else {
      assert input[lineStart..lineEnd + 1] == input[lineStart..lineEnd] + [input[lineEnd]];
      SplitFromTiles(input, lineStart, lineEnd + 1, lines);
    }
  }

  /** `parseText` tiles its input. */
  lemma SplitLinesTiles(input: string)
    ensures Tiles(input, SplitLines(input))
  {
    if |input| > 0 {
      SplitFromTiles(input, 0, 0, []);
    }
  }

  lemma ContentsFrom(lines: seq<Line>, k: nat)
    requires k < |lines|
    ensures Contents(lines[k..]) == [lines[k].content] + Contents(lines[k + 1..])
  {
    assert lines[k..][1..] == lines[k + 1..];
  }

  /** The input from a separated line's start is that line, its newline, and
      the input from the next line's start. */
  lemma SeparatedStep(input: string, lines: seq<Line>, k: nat)
    requires k + 1 < |lines| && Separated(input, lines, |lines| - 1)
    ensures lines[k].range.0 <= lines[k + 1].range.0 <= |input|
    ensures input[lines[k].range.0..] == lines[k].content + "\n" + input[lines[k + 1].range.0..]
  {
    var a, e := lines[k].range.0, lines[k].range.1;
    assert WellCut(input, lines[k]) && input[e] == '\n' && lines[k + 1].range.0 == e + 1;
    assert input[a..] == input[a..e] + [input[e]] + input[e + 1..];
  }

  /** Joining the contents of lines `k..` of a tiling with "\n" gives the
      input from line `k`'s start onward. */
  lemma {:induction false} JoinTail(input: string, lines: seq<Line>, k: nat)
    requires Tiles(input, lines)
    requires k < |lines|
    ensures lines[k].range.0 <= |input|
    ensures Join(Contents(lines[k..]), "\n") == input[lines[k].range.0..]
    decreases |lines| - k
  {
    if k == |lines| - 1 {
      assert Contents(lines[k..]) == [lines[k].content];
    } else {
      JoinTail(input, lines, k + 1);
      ContentsFrom(lines, k);
      SeparatedStep(input, lines, k);
    }
  }

  /** Joining the lines of a tiling with "\n" rebuilds the input. */
  lemma JoinTiles(input: string, lines: seq<Line>)
    requires Tiles(input, lines)
    ensures Join(Contents(lines), "\n") == input
  {
    if lines != [] {
      JoinTail(input, lines, 0);
      assert lines[0..] == lines;
    }
  }

  /** Because the end-of-input test precedes the newline test, a trailing
      newline stays inside the last line's content. */
  lemma TrailingNewlineKept(input: string)
    requires |input| > 0 && input[|input| - 1] == '\n'
    ensures var lines := SplitLines(input);
            lines != [] && |lines[|lines| - 1].content| > 0 &&
            lines[|lines| - 1].content[|lines[|lines| - 1].content| - 1] == '\n'
  {
    SplitLinesTiles(input);
  }

  /** `parseText`: an outer loop over lines and an inner loop that advances
      `lineEnd` until the end of the input or a newline. */
  method ParseText(input: string) returns (lines: seq<Line>)
    ensures lines == SplitLines(input)
    ensures Tiles(input, lines)
    ensures Join(Contents(lines), "\n") == input
  {
    SplitLinesTiles(input);
    JoinTiles(input, SplitLines(input));
    lines := [];
    var lineStart := 0;
    while lineStart < |input|
      invariant lineStart <= |input|
      invariant lines == [] <==> lineStart == 0
      invariant 0 < |input| ==> lineStart < |input| && SplitFrom(input, lineStart, lineStart, lines) == SplitLines(input)
      decreases |input| - lineStart
    {
      var lineEnd := lineStart;
      while lineEnd < |input|
        invariant lineStart <= lineEnd < |input|
        invariant SplitFrom(input, lineStart, lineEnd, lines) == SplitLines(input)
        decreases |input| - lineEnd
      {
        if lineEnd == |input| - 1 {
          lines := lines + [Line(input[lineStart..], (lineStart, |input|))];
          return;
        }
        if input[lineEnd] == '\n' {
          lines := lines + [Line(input[lineStart..lineEnd], (lineStart, lineEnd))];
          lineStart := lineEnd + 1;
          break;
        }
        lineEnd := lineEnd + 1;
      }
    }
  }
}
