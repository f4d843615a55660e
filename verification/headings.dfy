/**
 * Heading-based chunking of a markdown document
 * (`DocumentChunker.chunk_by_headings`).
 *
 * The document is split into lines; every heading line closes the lines
 * gathered so far (emitted joined and stripped, when not blank) and opens a
 * new group. The reference description used by the lemmas is the preamble
 * (lines before the first heading) plus one section per heading line.
 */
module Headings {
  import opened Text

  /** A line opens a chunk iff its stripped form starts with '#' and is longer than one character. */
  predicate IsHeadingLine(line: string) {
    var t := Strip(line);
    |t| > 1 && t[0] == '#'
  }

  /** Emit the gathered lines as one chunk: joined by newlines, stripped, dropped when blank. */
  function Flush(acc: seq<string>): (r: seq<string>)
    ensures |r| <= 1
    ensures |r| == 1 ==> r[0] != [] && Strip(r[0]) == r[0]
  {
    if acc == [] then []
    else
      var c := Strip(Join("\n", acc));
      StripIdempotent(Join("\n", acc));
      if c == [] then [] else [c]
  }

  /** The line loop: `acc` holds the lines of the chunk being built. */
  function Scan(lines: seq<string>, acc: seq<string>): seq<string>
    decreases |lines|
  {
    if lines == [] then Flush(acc)
    else if IsHeadingLine(lines[0]) then Flush(acc) + Scan(lines[1..], [lines[0]])
    else Scan(lines[1..], acc + [lines[0]])
  }

  /** `chunk_by_headings`: a blank document is returned as it is. */
  function ChunkByHeadings(s: string): seq<string> {
    if Blank(s) then [s]
    else
      var chunks := Scan(Split(s, "\n"), []);
      if chunks == [] then [Strip(s)] else chunks
  }

  // ---------------------------------------------------------------- reference description

  /** Number of lines before the first heading line. */
  function PreambleLength(lines: seq<string>): (n: nat)
    ensures n <= |lines|
  {
    if lines == [] || IsHeadingLine(lines[0]) then 0 else 1 + PreambleLength(lines[1..])
  }

  /** The preamble is the longest prefix without a heading line. */
  lemma {:induction false} PreambleSpec(lines: seq<string>)
    ensures forall i :: 0 <= i < PreambleLength(lines) ==> !IsHeadingLine(lines[i])
    ensures PreambleLength(lines) < |lines| ==> IsHeadingLine(lines[PreambleLength(lines)])
    decreases |lines|
  {
    if lines != [] && !IsHeadingLine(lines[0]) {
      PreambleSpec(lines[1..]);
      forall i | 1 <= i < PreambleLength(lines)
        ensures !IsHeadingLine(lines[i])
      {
        assert lines[i] == lines[1..][i - 1];
      }
      assert PreambleLength(lines) < |lines| ==> lines[PreambleLength(lines)] == lines[1..][PreambleLength(lines[1..])];
    }
  }

  /** The heading lines, in document order. */
  function HeadingLines(lines: seq<string>): (h: seq<string>)
    ensures forall i :: 0 <= i < |h| ==> IsHeadingLine(h[i])
  {
    if lines == [] then []
    else if IsHeadingLine(lines[0]) then [lines[0]] + HeadingLines(lines[1..])
    else HeadingLines(lines[1..])
  }

  /** A preamble chunk exists iff the text before the first heading is not blank. */
  function PreambleChunks(lines: seq<string>): nat {
    if Blank(Join("\n", lines[..PreambleLength(lines)])) then 0 else 1
  }

  // ---------------------------------------------------------------- lemmas

  lemma {:induction false} FlushWords(acc: seq<string>)
    ensures ConcatWords(Flush(acc)) == Words(Join("\n", acc))
  {
    if acc != [] {
      var j := Join("\n", acc);
      WordsStrip(j);
      if Strip(j) == [] {
        StripEmptyIffBlank(j);
        WordsOfBlank(j);
      } else {
        assert ConcatWords(Flush(acc)) == Words(Strip(j)) + ConcatWords([]);
      }
    }
  }

  lemma {:induction false} FlushCount(acc: seq<string>)
    ensures |Flush(acc)| == if Blank(Join("\n", acc)) then 0 else 1
  {
    if acc != [] {
      StripEmptyIffBlank(Join("\n", acc));
    }
  }

  /** A group opened by a heading line always yields exactly one chunk, which starts with the stripped heading. */
  lemma {:induction false} HeadedFlush(h: string, rest: seq<string>)
    requires IsHeadingLine(h)
    ensures |Flush([h] + rest)| == 1
    ensures StartsWith(Flush([h] + rest)[0], Strip(h))
  {
    var j := Join("\n", [h] + rest);
    assert !Blank(h) by {
      StripEmptyIffBlank(h);
    }
    if |rest| == 0 {
      assert j == h;
    } else {
      assert ([h] + rest)[1..] == rest;
      assert j == h + ("\n" + Join("\n", rest));
    }
    StripKeepsPrefix(h, j[|h|..]);
    assert j == h + j[|h|..];
    assert Strip(j) != [];
  }

  lemma {:induction false} ScanWords(lines: seq<string>, acc: seq<string>)
    ensures ConcatWords(Scan(lines, acc)) == Words(Join("\n", acc + lines))
    decreases |lines|
  {
    if lines == [] {
      FlushWords(acc);
      assert acc + lines == acc;
    } else if IsHeadingLine(lines[0]) {
      ScanWords(lines[1..], [lines[0]]);
      assert [lines[0]] + lines[1..] == lines;
      ConcatWordsAppend(Flush(acc), Scan(lines[1..], [lines[0]]));
      FlushWords(acc);
      WordsOfJoinAppend(acc, lines);
    } else {
      ScanWords(lines[1..], acc + [lines[0]]);
      assert acc + [lines[0]] + lines[1..] == acc + lines;
    }
  }

  /** Joining two groups of lines with a newline keeps the words of both, in order. */
  lemma WordsOfJoinAppend(acc: seq<string>, lines: seq<string>)
    requires lines != []
    ensures Words(Join("\n", acc + lines)) == Words(Join("\n", acc)) + Words(Join("\n", lines))
  {
    if acc == [] {
      assert acc + lines == lines;
    } else {
      JoinAppend("\n", acc, lines);
      WordsOfTwo(Join("\n", acc), "\n", Join("\n", lines));
    }
  }

  /** With no preamble, the accumulator is emitted on its own before the rest. */
  lemma ScanAtHeading(lines: seq<string>, acc: seq<string>)
    requires lines == [] || IsHeadingLine(lines[0])
    ensures Scan(lines, acc) == Flush(acc) + Scan(lines, [])
  {
    if lines == [] {
      assert Scan(lines, acc) == Flush(acc) + [];
    } else {
      var tail := Scan(lines[1..], [lines[0]]);
      assert Scan(lines, []) == [] + tail;
    }
  }

  /** Lines without a heading only extend the accumulator. */
  lemma {:induction false} ScanPlainLines(pre: seq<string>, tail: seq<string>, acc: seq<string>)
    requires forall i :: 0 <= i < |pre| ==> !IsHeadingLine(pre[i])
    ensures Scan(pre + tail, acc) == Scan(tail, acc + pre)
    decreases |pre|
  {
    if pre == [] {
      assert pre + tail == tail;
      assert acc + pre == acc;
    } else {
      var lines := pre + tail;
      assert lines[0] == pre[0];
      assert lines[1..] == pre[1..] + tail;
      assert Scan(lines, acc) == Scan(pre[1..] + tail, acc + [pre[0]]);
      forall i | 0 <= i < |pre[1..]|
        ensures !IsHeadingLine(pre[1..][i])
      {
        assert pre[1..][i] == pre[i + 1];
      }
      ScanPlainLines(pre[1..], tail, acc + [pre[0]]);
      assert acc + [pre[0]] + pre[1..] == acc + pre;
    }
  }

  /** The scan first emits the accumulator extended by the preamble, then scans the rest afresh. */
  lemma ScanSplit(lines: seq<string>, acc: seq<string>)
    ensures var p := PreambleLength(lines);
      Scan(lines, acc) == Flush(acc + lines[..p]) + Scan(lines[p..], [])
  {
    var p := PreambleLength(lines);
    var pre := lines[..p];
    var tail := lines[p..];
    PreambleSpec(lines);
    assert pre + tail == lines;
    forall i | 0 <= i < |pre|
      ensures !IsHeadingLine(pre[i])
    {
      assert pre[i] == lines[i];
    }
    ScanPlainLines(pre, tail, acc);
    assert tail == [] || tail[0] == lines[p];
    ScanAtHeading(tail, acc + pre);
  }

  /** The preamble holds no heading line. */
  lemma {:induction false} HeadingLinesAfterPreamble(lines: seq<string>)
    ensures HeadingLines(lines) == HeadingLines(lines[PreambleLength(lines)..])
    decreases |lines|
  {
    if lines != [] && !IsHeadingLine(lines[0]) {
      HeadingLinesAfterPreamble(lines[1..]);
      assert lines[1..][PreambleLength(lines[1..])..] == lines[PreambleLength(lines)..];
    }
  }

  /** A heading line and its section: one flush, then a fresh scan from the next heading. */
  lemma HeadedStep(lines: seq<string>)
    requires lines != [] && IsHeadingLine(lines[0])
    ensures var rest := lines[1..];
      var q := PreambleLength(rest);
      && Scan(lines, []) == Flush([lines[0]] + rest[..q]) + Scan(rest[q..], [])
      && HeadingLines(lines) == [lines[0]] + HeadingLines(rest[q..])
      && (rest[q..] == [] || IsHeadingLine(rest[q..][0]))
  {
    var rest := lines[1..];
    var q := PreambleLength(rest);
    assert Scan(lines, []) == Flush([]) + Scan(rest, [lines[0]]);
    ScanSplit(rest, [lines[0]]);
    HeadingLinesAfterPreamble(rest);
    PreambleSpec(rest);
  }

  /** From a heading line on, the scan emits exactly one chunk per heading, each starting with it. */
  lemma {:induction false} HeadedScan(lines: seq<string>)
    requires lines == [] || IsHeadingLine(lines[0])
    ensures |Scan(lines, [])| == |HeadingLines(lines)|
    ensures forall k :: 0 <= k < |HeadingLines(lines)| ==>
      StartsWith(Scan(lines, [])[k], Strip(HeadingLines(lines)[k]))
    decreases |lines|
  {
    if lines != [] {
      var rest := lines[1..];
      var tail := rest[PreambleLength(rest)..];
      HeadedStep(lines);
      HeadedFlush(lines[0], rest[..PreambleLength(rest)]);
      HeadedScan(tail);
    }
  }

  /** Every chunk the scan emits is non-empty and stripped. */
  lemma {:induction false} ScanStripped(lines: seq<string>, acc: seq<string>)
    ensures forall i :: 0 <= i < |Scan(lines, acc)| ==>
      Scan(lines, acc)[i] != [] && Strip(Scan(lines, acc)[i]) == Scan(lines, acc)[i]
    decreases |lines|
  {
    if lines != [] {
      if IsHeadingLine(lines[0]) {
        ScanStripped(lines[1..], [lines[0]]);
        var f := Flush(acc);
        var tail := Scan(lines[1..], [lines[0]]);
        forall i | 0 <= i < |f + tail|
          ensures (f + tail)[i] != [] && Strip((f + tail)[i]) == (f + tail)[i]
        {
          if i >= |f| {
            assert (f + tail)[i] == tail[i - |f|];
          }
        }
      } else {
        ScanStripped(lines[1..], acc + [lines[0]]);
      }
    }
  }

  /** Non-blank document: the scan of its lines is the result, and it is not empty. */
  lemma {:induction false} ScanOfDocument(s: string)
    requires !Blank(s)
    ensures ConcatWords(Scan(Split(s, "\n"), [])) == Words(s)
    ensures Scan(Split(s, "\n"), []) != []
    ensures ChunkByHeadings(s) == Scan(Split(s, "\n"), [])
  {
    var lines := Split(s, "\n");
    ScanWords(lines, []);
    assert [] + lines == lines;
    WordsNonEmptyOfNonBlank(s);
  }

  /** A blank document comes back unchanged; otherwise every chunk is non-empty and stripped. */
  lemma {:induction false} ChunkByHeadingsShape(s: string)
    ensures Blank(s) ==> ChunkByHeadings(s) == [s]
    ensures !Blank(s) ==> ChunkByHeadings(s) != []
    ensures !Blank(s) ==> forall i :: 0 <= i < |ChunkByHeadings(s)| ==>
      ChunkByHeadings(s)[i] != [] && Strip(ChunkByHeadings(s)[i]) == ChunkByHeadings(s)[i]
  {
    if !Blank(s) {
      ScanOfDocument(s);
      ScanStripped(Split(s, "\n"), []);
    }
  }

  /** The chunks' words, concatenated in order, are the document's words. */
  lemma {:induction false} ChunkByHeadingsWords(s: string)
    requires !Blank(s)
    ensures ConcatWords(ChunkByHeadings(s)) == Words(s)
  {
    ScanOfDocument(s);
  }

  /** The result is the preamble chunk, if any, followed by one chunk per heading line. */
  lemma {:induction false} ChunkByHeadingsStructure(s: string)
    requires !Blank(s)
    ensures var lines := Split(s, "\n");
      var p := PreambleLength(lines);
      ChunkByHeadings(s) == Flush(lines[..p]) + Scan(lines[p..], [])
  {
    var lines := Split(s, "\n");
    var p := PreambleLength(lines);
    ScanOfDocument(s);
    ScanSplit(lines, []);
    assert [] + lines[..p] == lines[..p];
  }

  /**
   * There is one chunk per heading line plus one for a non-blank preamble, and
   * the chunk of the k-th heading line starts with that line stripped.
   */
  lemma {:induction false} ChunkByHeadingsCount(s: string)
    requires !Blank(s)
    ensures var lines := Split(s, "\n");
      |ChunkByHeadings(s)| == PreambleChunks(lines) + |HeadingLines(lines)|
    ensures var lines := Split(s, "\n");
      forall k :: 0 <= k < |HeadingLines(lines)| ==>
        StartsWith(ChunkByHeadings(s)[PreambleChunks(lines) + k], Strip(HeadingLines(lines)[k]))
  {
    var lines := Split(s, "\n");
    var p := PreambleLength(lines);
    ChunkByHeadingsStructure(s);
    FlushCount(lines[..p]);
    HeadingLinesAfterPreamble(lines);
    PreambleSpec(lines);
    assert lines[p..] == [] || lines[p..][0] == lines[p];
    HeadedScan(lines[p..]);
    var pre := Flush(lines[..p]);
    assert |pre| == PreambleChunks(lines);
    AfterPreamble(pre, Scan(lines[p..], []), HeadingLines(lines));
  }

  /** Chunks that each start with their heading keep doing so behind a preamble. */
  lemma AfterPreamble(pre: seq<string>, rest: seq<string>, hs: seq<string>)
    requires |rest| == |hs|
    requires forall k :: 0 <= k < |hs| ==> StartsWith(rest[k], Strip(hs[k]))
    ensures |pre + rest| == |pre| + |hs|
    ensures forall k :: 0 <= k < |hs| ==> StartsWith((pre + rest)[|pre| + k], Strip(hs[k]))
  {
  }

  /** With no heading line the result is the whole document, stripped. */
  lemma {:induction false} ChunkByHeadingsNoHeading(s: string)
    requires !Blank(s) && HeadingLines(Split(s, "\n")) == []
    ensures ChunkByHeadings(s) == [Strip(s)]
  {
    var lines := Split(s, "\n");
    var p := PreambleLength(lines);
    ChunkByHeadingsStructure(s);
    HeadingLinesAfterPreamble(lines);
    PreambleSpec(lines);
    assert lines[p..] == [];
    assert lines[..p] == lines;
    StripEmptyIffBlank(s);
  }

  lemma {:induction false} WordsNonEmptyOfNonBlank(s: string)
    requires !Blank(s)
    ensures Words(s) != []
  {
    StripEmptyIffBlank(s);
  }

  /** Any run of '#' opens a chunk, '###' included, while a lone '#' does not. */
  lemma HeadingLevels()
    ensures IsHeadingLine("# A") && IsHeadingLine("## B") && IsHeadingLine("### C")
    ensures IsHeadingLine(" ## ") && !IsHeadingLine("#") && !IsHeadingLine(" # ")
  {
    StripOfTrimmed("# A");
    StripOfTrimmed("## B");
    StripOfTrimmed("### C");
    StripOfTrimmed("#");
    StripOfPadded(" ## ", "##");
    StripOfPadded(" # ", "#");
  }

  /** A level-3 heading opens its own chunk. */
  lemma ThirdLevelHeadingSplits()
    ensures ChunkByHeadings("# A\n### B") == ["# A", "### B"]
  {
    ExampleNotBlank();
    ExampleLines();
    ExampleScan();
  }

  lemma ExampleNotBlank()
    ensures !Blank("# A\n### B")
  {
    assert !IsSpace("# A\n### B"[0]);
  }

  lemma ExampleLines()
    ensures Split("# A\n### B", "\n") == ["# A", "### B"]
  {
    var a, b := "# A", "### B";
    SplitFromNoSeparator(b, "\n", "");
    assert "" + b == b;
    assert "" + a == a;
    assert "# A\n### B" == a + "\n" + b;
    SplitFromBeforeSeparator(a, "\n", b, "");
  }

  lemma ExampleScan()
    ensures Scan(["# A", "### B"], []) == ["# A", "### B"]
  {
    ExampleScanFirst();
    ExampleScanSecond();
  }

  lemma ExampleScanFirst()
    ensures Scan(["# A", "### B"], []) == Scan(["### B"], ["# A"])
  {
    var lines := ["# A", "### B"];
    assert lines[0] == "# A" && lines[1..] == ["### B"];
    StripOfTrimmed("# A");
    assert IsHeadingLine(lines[0]);
    assert Flush([]) == [];
    assert Scan(lines, []) == Flush([]) + Scan(lines[1..], [lines[0]]);
  }

  lemma ExampleScanSecond()
    ensures Scan(["### B"], ["# A"]) == ["# A", "### B"]
  {
    var lines := ["### B"];
    assert lines[0] == "### B" && lines[1..] == [];
    StripOfTrimmed("# A");
    StripOfTrimmed("### B");
    assert IsHeadingLine(lines[0]);
    assert Join("\n", ["# A"]) == "# A";
    assert Join("\n", ["### B"]) == "### B";
    assert Flush(["# A"]) == ["# A"];
    assert Flush(["### B"]) == ["### B"];
    assert Scan(lines, ["# A"]) == Flush(["# A"]) + Scan([], ["### B"]);
  }
}
