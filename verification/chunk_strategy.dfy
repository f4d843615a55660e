/**
 * Per-chunk statistics (`get_chunk_info`) and the strategy dispatcher
 * (`chunk_educational_content`) of `DocumentChunker`.
 */
module ChunkStrategy {
  import opened Text
  import opened Values
  import opened Headings
  import opened LargeChunks
  import opened Buckets

  datatype ChunkInfo = ChunkInfo(
    content: string,
    chunkIndex: nat,
    totalChunks: nat,
    chunkId: string,
    heading: Option<string>,
    wordCount: nat,
    charCount: nat)

  /** A line whose stripped form starts with '#'; unlike a heading line, a lone '#' counts. */
  predicate HashLine(line: string) {
    |Strip(line)| > 0 && Strip(line)[0] == '#'
  }

  /** The stripped form of the first hash line, if any. */
  function FirstHashLine(lines: seq<string>): Option<string>
    decreases |lines|
  {
    if lines == [] then None
    else if HashLine(lines[0]) then Some(Strip(lines[0]))
    else FirstHashLine(lines[1..])
  }

  /** There is no result exactly when no line is a hash line; otherwise it is the first one, stripped. */
  lemma {:induction false} FirstHashLineSpec(lines: seq<string>)
    ensures FirstHashLine(lines).None? <==> forall i :: 0 <= i < |lines| ==> !HashLine(lines[i])
    ensures FirstHashLine(lines).Some? ==>
      exists i :: 0 <= i < |lines| && HashLine(lines[i]) && FirstHashLine(lines).value == Strip(lines[i])
                  && forall j :: 0 <= j < i ==> !HashLine(lines[j])
    decreases |lines|
  {
    if lines != [] && !HashLine(lines[0]) {
      FirstHashLineSpec(lines[1..]);
      assert forall j :: 1 <= j < |lines| ==> lines[j] == lines[1..][j - 1];
      if FirstHashLine(lines).Some? {
        var i :| 0 <= i < |lines[1..]| && HashLine(lines[1..][i]) && FirstHashLine(lines).value == Strip(lines[1..][i])
                 && forall j :: 0 <= j < i ==> !HashLine(lines[1..][j]);
        assert HashLine(lines[i + 1]) && FirstHashLine(lines).value == Strip(lines[i + 1]);
      }
    }
  }

  function Info(chunk: string, i: nat, total: nat): ChunkInfo {
    ChunkInfo(chunk, i, total, "chunk_" + NatToString(i), FirstHashLine(Split(chunk, "\n")), |Words(chunk)|, |chunk|)
  }

  /**
   * `get_chunk_info`: record i describes chunk i, with its position, identifier,
   * counts, and the stripped first line of the chunk that starts with '#'.
   */
  function GetChunkInfo(chunks: seq<string>): (r: seq<ChunkInfo>)
    ensures |r| == |chunks|
    ensures forall i :: 0 <= i < |r| ==>
      && r[i].content == chunks[i]
      && r[i].chunkIndex == i && r[i].totalChunks == |chunks|
      && r[i].chunkId == "chunk_" + NatToString(i)
      && r[i].charCount == |chunks[i]| && r[i].wordCount == |Words(chunks[i])|
  {
    seq(|chunks|, i requires 0 <= i < |chunks| => Info(chunks[i], i, |chunks|))
  }

  /**
   * The heading recorded for chunk i: none exactly when no line of the chunk
   * starts with '#' after stripping, otherwise the first such line, stripped.
   */
  lemma ChunkHeading(chunks: seq<string>, i: int)
    requires 0 <= i < |chunks|
    ensures var lines := Split(chunks[i], "\n");
      var h := GetChunkInfo(chunks)[i].heading;
      && (h.None? <==> forall k :: 0 <= k < |lines| ==> !HashLine(lines[k]))
      && (h.Some? ==>
            exists k :: 0 <= k < |lines| && HashLine(lines[k]) && h.value == Strip(lines[k])
                        && forall j :: 0 <= j < k ==> !HashLine(lines[j]))
  {
    FirstHashLineSpec(Split(chunks[i], "\n"));
  }

  /** The identifiers of different chunks differ. */
  lemma ChunkIdsDistinct(chunks: seq<string>, i: int, j: int)
    requires 0 <= i < |chunks| && 0 <= j < |chunks| && i != j
    ensures GetChunkInfo(chunks)[i].chunkId != GetChunkInfo(chunks)[j].chunkId
  {
    var a := GetChunkInfo(chunks)[i].chunkId;
    var b := GetChunkInfo(chunks)[j].chunkId;
    if a == b {
      assert a[6..] == NatToString(i) && b[6..] == NatToString(j);
      NatToStringInjective(i, j);
    }
  }

  /** A lone '#' line is reported as the heading, though it never opens a chunk. */
  lemma LoneHashIsReported(chunk: string)
    requires chunk == "#"
    ensures GetChunkInfo([chunk])[0].heading == Some("#")
    ensures !IsHeadingLine(chunk)
  {
    assert Split(chunk, "\n") == [chunk] by {
      SplitFromNoSeparator(chunk, "\n", "");
    }
    assert chunk[0] == '#';
    assert !IsSpace(chunk[0]);
    LStripOfNonBlankStart(chunk);
    assert Strip(chunk) == chunk;
  }

  // ---------------------------------------------------------------- dispatcher

  /** The keyword arguments `chunk_educational_content` reads; `None` = not passed. */
  datatype Options = Options(
    maxChunkSize: Option<int>,
    overlapSize: Option<int>,
    maxSentences: Option<int>,
    maxParagraphs: Option<int>)

  function OrDefault(o: Option<int>, default: int): int {
    match o
    case None => default
    case Some(v) => v
  }

  predicate KnownStrategy(strategy: string) {
    strategy in ["headings", "advanced", "sentences", "paragraphs"]
  }

  /** `chunk_educational_content`: dispatch by name; an unknown name means "headings". */
  function ChunkEducationalContent(content: string, strategy: string, opts: Options): (r: seq<string>)
    ensures Blank(content) ==> r == [content]
    ensures !KnownStrategy(strategy) ==> r == ChunkByHeadings(content)
  {
    if strategy == "advanced" then
      ChunkByHeadingsAdvanced(content, OrDefault(opts.maxChunkSize, 1000), OrDefault(opts.overlapSize, 100))
    else if strategy == "sentences" then
      ChunkBySentences(content, OrDefault(opts.maxSentences, 5))
    else if strategy == "paragraphs" then
      ChunkByParagraphs(content, OrDefault(opts.maxParagraphs, 3))
    else
      ChunkByHeadings(content)
  }

  /**
   * The whitespace words of the document survive every strategy but "sentences"
   * (which drops the terminators and rewrites them as ". "), in order, with
   * nothing added unless the advanced strategy carries an overlap.
   */
  lemma ChunkEducationalContentWords(content: string, strategy: string, opts: Options)
    requires !Blank(content)
    requires strategy != "sentences"
    ensures strategy != "advanced" || OrDefault(opts.overlapSize, 100) <= 0 ==>
      ConcatWords(ChunkEducationalContent(content, strategy, opts)) == Words(content)
    ensures multiset(Words(content)) <= multiset(ConcatWords(ChunkEducationalContent(content, strategy, opts)))
  {
    var r := ChunkEducationalContent(content, strategy, opts);
    if strategy == "advanced" {
      ChunkByHeadingsAdvancedSpec(content, OrDefault(opts.maxChunkSize, 1000), OrDefault(opts.overlapSize, 100));
    } else if strategy == "paragraphs" {
      ChunkByParagraphsSpec(content, OrDefault(opts.maxParagraphs, 3));
    } else {
      ChunkByHeadingsWords(content);
    }
  }
}
