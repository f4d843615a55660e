/**
 * Size-limited chunking (`DocumentChunker.chunk_by_headings_advanced` and
 * `DocumentChunker._split_large_chunk`).
 *
 * An oversized heading chunk is cut into paragraphs ('\n\n', or '\n' when the
 * chunk has no blank line) which are packed greedily into a buffer. A
 * paragraph that does not fit flushes the buffer and may carry the buffer's
 * last `overlap` characters forward. A paragraph longer than the limit that
 * meets an empty buffer is packed word by word (words split on ' ').
 *
 * Only the word-level pieces are bounded by the limit: a whole paragraph
 * that follows a flush is never re-split, so pieces elsewhere can exceed it.
 */
module LargeChunks {
  import opened Text
  import opened Headings

  /** The emitted pieces so far and the buffer being filled. */
  datatype Packing = Packing(pieces: seq<string>, buffer: string)

  /** Words of the emitted pieces followed by the words of the buffer. */
  function PackedWords(p: Packing): seq<string> {
    ConcatWords(p.pieces) + Words(p.buffer)
  }

  function Max(a: int, b: int): int {
    if a >= b then a else b
  }

  // ---------------------------------------------------------------- word fallback

  /** One word of the fallback loop: a word that does not fit (with its separating space) flushes the buffer. */
  function PackWord(p: Packing, word: string, maxSize: int): Packing {
    if |p.buffer| + |word| + 1 > maxSize then
      if p.buffer != "" then Packing(p.pieces + [Strip(p.buffer)], word)
      else Packing(p.pieces + [word], "")
    else Packing(p.pieces, if p.buffer != "" then p.buffer + " " + word else word)
  }

  function PackWords(words: seq<string>, maxSize: int, p: Packing): Packing
    decreases |words|
  {
    if words == [] then p else PackWords(words[1..], maxSize, PackWord(p, words[0], maxSize))
  }

  // ---------------------------------------------------------------- paragraph loop

  /** The text carried into the next buffer after a flush. */
  function Carry(buffer: string, para: string, overlap: int): string {
    if overlap > 0 && |buffer| > overlap then buffer[|buffer| - overlap..] + "\n\n" + para else para
  }

  /** One paragraph of the loop in `_split_large_chunk`. */
  function PackParagraph(p: Packing, para: string, maxSize: int, overlap: int): Packing {
    if |p.buffer| + |para| + 2 > maxSize then
      if p.buffer != "" then Packing(p.pieces + [Strip(p.buffer)], Carry(p.buffer, para, overlap))
      else if |para| > maxSize then PackWords(Split(para, " "), maxSize, Packing(p.pieces, ""))
      else Packing(p.pieces, para)
    else Packing(p.pieces, if p.buffer != "" then p.buffer + "\n\n" + para else para)
  }

  function PackParagraphs(paras: seq<string>, maxSize: int, overlap: int, p: Packing): Packing
    decreases |paras|
  {
    if paras == [] then p
    else PackParagraphs(paras[1..], maxSize, overlap, PackParagraph(p, paras[0], maxSize, overlap))
  }

  /** The final flush of a non-empty buffer. */
  function Finish(p: Packing): seq<string> {
    if p.buffer != "" then p.pieces + [Strip(p.buffer)] else p.pieces
  }

  /** Paragraphs on blank lines, or on line breaks when there is no blank line. */
  function Paragraphs(chunk: string): seq<string> {
    var paras := Split(chunk, "\n\n");
    if |paras| == 1 then Split(chunk, "\n") else paras
  }

  /** `_split_large_chunk`. */
  function SplitLargeChunk(chunk: string, maxSize: int, overlap: int): seq<string> {
    if |chunk| <= maxSize then [chunk]
    else Finish(PackParagraphs(Paragraphs(chunk), maxSize, overlap, Packing([], "")))
  }

  /** Heading chunks in order, each kept when it fits and otherwise replaced by its pieces. */
  function ExpandChunks(chunks: seq<string>, maxSize: int, overlap: int): seq<string>
    decreases |chunks|
  {
    if chunks == [] then []
    else
      var c := chunks[0];
      (if |c| <= maxSize then [c] else SplitLargeChunk(c, maxSize, overlap))
      + ExpandChunks(chunks[1..], maxSize, overlap)
  }

  /** `chunk_by_headings_advanced`. */
  function ChunkByHeadingsAdvanced(s: string, maxSize: int, overlap: int): seq<string> {
    if Blank(s) then [s] else ExpandChunks(ChunkByHeadings(s), maxSize, overlap)
  }

  // ---------------------------------------------------------------- word-level bound

  /** A word-level piece fits the limit, or is one word no longer than `longest`. */
  predicate WordPiece(x: string, maxSize: int, longest: int) {
    |x| <= maxSize || (' ' !in x && |x| <= longest)
  }

  lemma {:induction false} StripWordPiece(x: string, maxSize: int, longest: int)
    requires WordPiece(x, maxSize, longest)
    ensures WordPiece(Strip(x), maxSize, longest)
  {
    StripChars(x);
  }

  /**
   * The word fallback keeps the pieces already emitted, and every piece it adds,
   * and its leftover buffer, is within the limit or a single word.
   */
  lemma {:induction false} PackWordsBound(words: seq<string>, maxSize: int, longest: int, p: Packing)
    requires forall i :: 0 <= i < |words| ==> ' ' !in words[i] && |words[i]| <= longest
    requires WordPiece(p.buffer, maxSize, longest)
    ensures |p.pieces| <= |PackWords(words, maxSize, p).pieces|
    ensures PackWords(words, maxSize, p).pieces[..|p.pieces|] == p.pieces
    ensures forall i :: |p.pieces| <= i < |PackWords(words, maxSize, p).pieces| ==>
      WordPiece(PackWords(words, maxSize, p).pieces[i], maxSize, longest)
    ensures WordPiece(PackWords(words, maxSize, p).buffer, maxSize, longest)
    decreases |words|
  {
    if words != [] {
      var q := PackWord(p, words[0], maxSize);
      StripWordPiece(p.buffer, maxSize, longest);
      assert forall i :: |p.pieces| <= i < |q.pieces| ==> WordPiece(q.pieces[i], maxSize, longest);
      PackWordsBound(words[1..], maxSize, longest, q);
      var r := PackWords(words, maxSize, p);
      assert r == PackWords(words[1..], maxSize, q);
      assert r.pieces[..|q.pieces|] == q.pieces;
      assert q.pieces[..|p.pieces|] == p.pieces;
      assert r.pieces[..|p.pieces|] == q.pieces[..|p.pieces|];
    }
  }

  /** The words of the ' '-split of a paragraph hold no space and are no longer than it. */
  lemma {:induction false} SpaceSplitWords(para: string)
    ensures forall i :: 0 <= i < |Split(para, " ")| ==>
      ' ' !in Split(para, " ")[i] && |Split(para, " ")[i]| <= |para|
  {
    SplitPiecesLackSeparator(para, " ", "");
    forall i | 0 <= i < |Split(para, " ")| ensures |Split(para, " ")[i]| <= |para| {
      JoinPartLength(" ", Split(para, " "), i);
    }
  }

  /**
   * The word fallback of one paragraph: each piece it emits, and its leftover,
   * is at most `maxSize` long or is a single space-free word of the paragraph.
   */
  lemma {:induction false} WordFallbackBound(para: string, maxSize: int, pieces: seq<string>)
    ensures var r := PackWords(Split(para, " "), maxSize, Packing(pieces, ""));
      && |pieces| <= |r.pieces|
      && r.pieces[..|pieces|] == pieces
      && (forall i :: |pieces| <= i < |r.pieces| ==> WordPiece(r.pieces[i], maxSize, |para|))
      && WordPiece(r.buffer, maxSize, |para|)
  {
    SpaceSplitWords(para);
    PackWordsBound(Split(para, " "), maxSize, |para|, Packing(pieces, ""));
  }

  // ---------------------------------------------------------------- word preservation

  /** Emitting a stripped buffer adds exactly the buffer's words. */
  lemma {:induction false} EmitWords(pieces: seq<string>, x: string)
    ensures ConcatWords(pieces + [Strip(x)]) == ConcatWords(pieces) + Words(x)
  {
    ConcatWordsAppend(pieces, [Strip(x)]);
    WordsStrip(x);
    assert ConcatWords([Strip(x)]) == Words(Strip(x)) + ConcatWords([]);
  }

  lemma {:induction false} EmptyBufferWords(pieces: seq<string>)
    ensures PackedWords(Packing(pieces, "")) == ConcatWords(pieces)
  {
    WordsOfBlank("");
  }

  lemma {:induction false} PackWordWords(p: Packing, word: string, maxSize: int)
    ensures PackedWords(PackWord(p, word, maxSize)) == PackedWords(p) + Words(word)
  {
    if |p.buffer| + |word| + 1 > maxSize {
      if p.buffer != "" {
        EmitWords(p.pieces, p.buffer);
      } else {
        ConcatWordsAppend(p.pieces, [word]);
        assert ConcatWords([word]) == Words(word) + ConcatWords([]);
        EmptyBufferWords(p.pieces + [word]);
        EmptyBufferWords(p.pieces);
      }
    } else if p.buffer != "" {
      WordsOfTwo(p.buffer, " ", word);
    } else {
      EmptyBufferWords(p.pieces);
    }
  }

  /** The word fallback neither loses nor repeats a word. */
  lemma {:induction false} PackWordsWords(words: seq<string>, maxSize: int, p: Packing)
    ensures PackedWords(PackWords(words, maxSize, p)) == PackedWords(p) + ConcatWords(words)
    decreases |words|
  {
    if words != [] {
      var q := PackWord(p, words[0], maxSize);
      var r := PackWords(words[1..], maxSize, q);
      PackWordWords(p, words[0], maxSize);
      PackWordsWords(words[1..], maxSize, q);
      AppendAssoc(PackedWords(p), Words(words[0]), ConcatWords(words[1..]));
    }
  }

  /** The words a flush carries forward in the overlap, if it carries any. */
  function CarriedWords(p: Packing, para: string, maxSize: int, overlap: int): seq<string> {
    if |p.buffer| + |para| + 2 > maxSize && p.buffer != "" && overlap > 0 && |p.buffer| > overlap
    then Words(p.buffer[|p.buffer| - overlap..])
    else []
  }

  /** The words of a carried paragraph: the overlap's words, if any, then the paragraph's. */
  lemma {:induction false} CarryWords(cur: string, para: string, overlap: int)
    ensures Words(Carry(cur, para, overlap))
         == (if overlap > 0 && |cur| > overlap then Words(cur[|cur| - overlap..]) else []) + Words(para)
  {
    if overlap > 0 && |cur| > overlap {
      assert Blank("\n\n") by { assert IsSpace("\n\n"[0]) && IsSpace("\n\n"[1]); }
      WordsOfTwo(cur[|cur| - overlap..], "\n\n", para);
    } else {
      assert [] + Words(para) == Words(para);
    }
  }

  lemma {:induction false} FlushParagraphWords(p: Packing, para: string, maxSize: int, overlap: int)
    requires |p.buffer| + |para| + 2 > maxSize && p.buffer != ""
    ensures PackedWords(PackParagraph(p, para, maxSize, overlap))
         == PackedWords(p) + CarriedWords(p, para, maxSize, overlap) + Words(para)
  {
    var q := PackParagraph(p, para, maxSize, overlap);
    var carried := CarriedWords(p, para, maxSize, overlap);
    assert q == Packing(p.pieces + [Strip(p.buffer)], Carry(p.buffer, para, overlap));
    EmitWords(p.pieces, p.buffer);
    assert ConcatWords(q.pieces) == PackedWords(p);
    CarryWords(p.buffer, para, overlap);
    assert Words(q.buffer) == carried + Words(para);
    AppendAssoc(PackedWords(p), carried, Words(para));
  }

  lemma {:induction false} FallbackParagraphWords(p: Packing, para: string, maxSize: int, overlap: int)
    requires p.buffer == "" && |para| > maxSize
    ensures PackedWords(PackParagraph(p, para, maxSize, overlap)) == PackedWords(p) + Words(para)
  {
    var ws := Split(para, " ");
    assert p == Packing(p.pieces, "");
    assert PackParagraph(p, para, maxSize, overlap) == PackWords(ws, maxSize, p);
    EmptyBufferWords(p.pieces);
    PackWordsWords(ws, maxSize, p);
    assert Blank(" ") by { assert IsSpace(" "[0]); }
    WordsJoin(" ", ws);
    assert Words(para) == ConcatWords(ws);
  }

  /** One paragraph adds its own words, preceded by the words of any carried overlap. */
  lemma {:induction false} PackParagraphWords(p: Packing, para: string, maxSize: int, overlap: int)
    ensures PackedWords(PackParagraph(p, para, maxSize, overlap))
         == PackedWords(p) + CarriedWords(p, para, maxSize, overlap) + Words(para)
  {
    var cur := p.buffer;
    if |cur| + |para| + 2 > maxSize {
      if cur != "" {
        FlushParagraphWords(p, para, maxSize, overlap);
      } else if |para| > maxSize {
        FallbackParagraphWords(p, para, maxSize, overlap);
      } else {
        EmptyBufferWords(p.pieces);
      }
    } else if cur != "" {
      WordsOfTwo(cur, "\n\n", para);
    } else {
      EmptyBufferWords(p.pieces);
    }
  }

  /** Bookkeeping for one step of a fold that may add extra words. */
  lemma GrowthStep<T>(before: seq<T>, extra: seq<T>, w: seq<T>, rest: seq<T>, q: seq<T>, all: seq<T>, r: seq<T>)
    requires q == before + extra + w && all == w + rest
    requires multiset(q + rest) <= multiset(r)
    ensures multiset(before + all) <= multiset(r)
  {
    assert multiset(q + rest) == multiset(before + all) + multiset(extra);
  }

  /** The paragraph loop loses no word; it may repeat words carried in an overlap. */
  lemma {:induction false} PackParagraphsWords(paras: seq<string>, maxSize: int, overlap: int, p: Packing)
    ensures multiset(PackedWords(p) + ConcatWords(paras))
         <= multiset(PackedWords(PackParagraphs(paras, maxSize, overlap, p)))
    decreases |paras|
  {
    if paras == [] {
      assert PackedWords(p) + ConcatWords(paras) == PackedWords(p);
    } else {
      var q := PackParagraph(p, paras[0], maxSize, overlap);
      var r := PackParagraphs(paras[1..], maxSize, overlap, q);
      PackParagraphWords(p, paras[0], maxSize, overlap);
      PackParagraphsWords(paras[1..], maxSize, overlap, q);
      assert PackParagraphs(paras, maxSize, overlap, p) == r;
      assert ConcatWords(paras) == Words(paras[0]) + ConcatWords(paras[1..]);
      GrowthStep(PackedWords(p), CarriedWords(p, paras[0], maxSize, overlap), Words(paras[0]),
                 ConcatWords(paras[1..]), PackedWords(q), ConcatWords(paras), PackedWords(r));
    }
  }

  /** Without overlap the paragraph loop keeps exactly the words, in order. */
  lemma {:induction false} PackParagraphsWordsExact(paras: seq<string>, maxSize: int, overlap: int, p: Packing)
    requires overlap <= 0
    ensures PackedWords(PackParagraphs(paras, maxSize, overlap, p)) == PackedWords(p) + ConcatWords(paras)
    decreases |paras|
  {
    if paras == [] {
      AppendEmpty(PackedWords(p));
    } else {
      var q := PackParagraph(p, paras[0], maxSize, overlap);
      PackParagraphWords(p, paras[0], maxSize, overlap);
      AppendEmpty(PackedWords(p));
      PackParagraphsWordsExact(paras[1..], maxSize, overlap, q);
      AppendAssoc(PackedWords(p), Words(paras[0]), ConcatWords(paras[1..]));
    }
  }

  lemma {:induction false} FinishWords(p: Packing)
    ensures ConcatWords(Finish(p)) == PackedWords(p)
  {
    if p.buffer != "" {
      ConcatWordsAppend(p.pieces, [Strip(p.buffer)]);
      WordsStrip(p.buffer);
      assert ConcatWords([Strip(p.buffer)]) == Words(Strip(p.buffer)) + ConcatWords([]);
    } else {
      WordsOfBlank(p.buffer);
    }
  }

  /** The paragraphs hold the chunk's words, in order, and none is longer than the chunk. */
  lemma {:induction false} ParagraphsOfChunk(chunk: string)
    ensures ConcatWords(Paragraphs(chunk)) == Words(chunk)
    ensures forall i :: 0 <= i < |Paragraphs(chunk)| ==> |Paragraphs(chunk)[i]| <= |chunk|
  {
    var paras := Split(chunk, "\n\n");
    if |paras| == 1 {
      WordsJoin("\n", Split(chunk, "\n"));
      forall i | 0 <= i < |Split(chunk, "\n")| ensures |Split(chunk, "\n")[i]| <= |chunk| {
        JoinPartLength("\n", Split(chunk, "\n"), i);
      }
    } else {
      WordsJoin("\n\n", paras);
      forall i | 0 <= i < |paras| ensures |paras[i]| <= |chunk| {
        JoinPartLength("\n\n", paras, i);
      }
    }
  }

  /**
   * Every word of the chunk survives the split, at least as often as it occurs;
   * without overlap the pieces' words are exactly the chunk's words, in order.
   */
  lemma {:induction false} SplitLargeChunkWords(chunk: string, maxSize: int, overlap: int)
    ensures multiset(Words(chunk)) <= multiset(ConcatWords(SplitLargeChunk(chunk, maxSize, overlap)))
    ensures overlap <= 0 ==> ConcatWords(SplitLargeChunk(chunk, maxSize, overlap)) == Words(chunk)
  {
    if |chunk| <= maxSize {
      assert ConcatWords([chunk]) == Words(chunk) + ConcatWords([]);
    } else {
      var start := Packing([], "");
      WordsOfBlank("");
      assert PackedWords(start) == [];
      ParagraphsOfChunk(chunk);
      PackParagraphsWords(Paragraphs(chunk), maxSize, overlap, start);
      if overlap <= 0 {
        PackParagraphsWordsExact(Paragraphs(chunk), maxSize, overlap, start);
      }
      FinishWords(PackParagraphs(Paragraphs(chunk), maxSize, overlap, start));
      assert PackedWords(start) + Words(chunk) == Words(chunk);
    }
  }

  // ---------------------------------------------------------------- the only size bound there is

  /** Extra length a carried overlap can add in front of a paragraph. */
  function OverlapExtra(overlap: int): nat {
    if overlap > 0 then overlap + 2 else 0
  }

  predicate Bounded(p: Packing, bound: int) {
    |p.buffer| <= bound && forall i :: 0 <= i < |p.pieces| ==> |p.pieces[i]| <= bound
  }

  lemma {:induction false} PackParagraphBound(p: Packing, para: string, maxSize: int, overlap: int, longest: int)
    requires |para| <= longest
    requires Bounded(p, Max(maxSize, OverlapExtra(overlap) + longest))
    ensures Bounded(PackParagraph(p, para, maxSize, overlap), Max(maxSize, OverlapExtra(overlap) + longest))
  {
    var bound := Max(maxSize, OverlapExtra(overlap) + longest);
    if |p.buffer| + |para| + 2 > maxSize && p.buffer == "" && |para| > maxSize {
      WordFallbackBound(para, maxSize, p.pieces);
      var r := PackWords(Split(para, " "), maxSize, Packing(p.pieces, ""));
      forall i | 0 <= i < |r.pieces| ensures |r.pieces[i]| <= bound {
        if i < |p.pieces| {
          assert r.pieces[i] == r.pieces[..|p.pieces|][i];
        }
      }
    }
  }

  lemma {:induction false} PackParagraphsBound(paras: seq<string>, maxSize: int, overlap: int, longest: int, p: Packing)
    requires forall i :: 0 <= i < |paras| ==> |paras[i]| <= longest
    requires Bounded(p, Max(maxSize, OverlapExtra(overlap) + longest))
    ensures Bounded(PackParagraphs(paras, maxSize, overlap, p), Max(maxSize, OverlapExtra(overlap) + longest))
    decreases |paras|
  {
    if paras != [] {
      PackParagraphBound(p, paras[0], maxSize, overlap, longest);
      PackParagraphsBound(paras[1..], maxSize, overlap, longest,
                          PackParagraph(p, paras[0], maxSize, overlap));
    }
  }

  /**
   * The pieces of an oversized chunk are bounded only by the larger of the limit
   * and a whole paragraph (plus the overlap and its separator): a paragraph that
   * follows a flush is kept whole, however long.
   */
  lemma {:induction false} SplitLargeChunkBound(chunk: string, maxSize: int, overlap: int)
    ensures forall i :: 0 <= i < |SplitLargeChunk(chunk, maxSize, overlap)| ==>
      |SplitLargeChunk(chunk, maxSize, overlap)[i]| <= Max(maxSize, OverlapExtra(overlap) + |chunk|)
  {
    if |chunk| > maxSize {
      var bound := Max(maxSize, OverlapExtra(overlap) + |chunk|);
      var start := Packing([], "");
      ParagraphsOfChunk(chunk);
      PackParagraphsBound(Paragraphs(chunk), maxSize, overlap, |chunk|, start);
      var p := PackParagraphs(Paragraphs(chunk), maxSize, overlap, start);
      FinishBound(p, bound);
      assert SplitLargeChunk(chunk, maxSize, overlap) == Finish(p);
    }
  }

  lemma {:induction false} FinishBound(p: Packing, bound: int)
    requires Bounded(p, bound)
    ensures forall i :: 0 <= i < |Finish(p)| ==> |Finish(p)[i]| <= bound
  {
  }

  // ---------------------------------------------------------------- the advanced chunker

  /** Chunks that fit are kept unchanged and in place. */
  lemma {:induction false} ExpandChunksFitting(chunks: seq<string>, maxSize: int, overlap: int)
    requires forall i :: 0 <= i < |chunks| ==> |chunks[i]| <= maxSize
    ensures ExpandChunks(chunks, maxSize, overlap) == chunks
    decreases |chunks|
  {
    if chunks != [] {
      ExpandChunksFitting(chunks[1..], maxSize, overlap);
    }
  }

  lemma {:induction false} ExpandChunksWords(chunks: seq<string>, maxSize: int, overlap: int)
    ensures multiset(ConcatWords(chunks)) <= multiset(ConcatWords(ExpandChunks(chunks, maxSize, overlap)))
    ensures overlap <= 0 ==> ConcatWords(ExpandChunks(chunks, maxSize, overlap)) == ConcatWords(chunks)
    decreases |chunks|
  {
    if chunks != [] {
      var c := chunks[0];
      var head := if |c| <= maxSize then [c] else SplitLargeChunk(c, maxSize, overlap);
      assert head == SplitLargeChunk(c, maxSize, overlap);
      SplitLargeChunkWords(c, maxSize, overlap);
      ExpandChunksWords(chunks[1..], maxSize, overlap);
      ConcatWordsAppend(head, ExpandChunks(chunks[1..], maxSize, overlap));
    }
  }

  /**
   * The advanced chunker: a blank document comes back unchanged; when every
   * heading chunk fits the result is the heading chunks themselves; no word of
   * the document is lost, and without overlap the words are exactly preserved.
   */
  lemma {:induction false} ChunkByHeadingsAdvancedSpec(s: string, maxSize: int, overlap: int)
    ensures Blank(s) ==> ChunkByHeadingsAdvanced(s, maxSize, overlap) == [s]
    ensures (forall i :: 0 <= i < |ChunkByHeadings(s)| ==> |ChunkByHeadings(s)[i]| <= maxSize) ==>
      ChunkByHeadingsAdvanced(s, maxSize, overlap) == ChunkByHeadings(s)
    ensures multiset(Words(s)) <= multiset(ConcatWords(ChunkByHeadingsAdvanced(s, maxSize, overlap)))
    ensures overlap <= 0 ==> ConcatWords(ChunkByHeadingsAdvanced(s, maxSize, overlap)) == Words(s)
  {
    if Blank(s) {
      assert ConcatWords([s]) == Words(s) + ConcatWords([]);
    } else {
      ChunkByHeadingsWords(s);
      ExpandChunksWords(ChunkByHeadings(s), maxSize, overlap);
      if forall i :: 0 <= i < |ChunkByHeadings(s)| ==> |ChunkByHeadings(s)[i]| <= maxSize {
        ExpandChunksFitting(ChunkByHeadings(s), maxSize, overlap);
      }
    }
  }

  // ---------------------------------------------------------------- pieces longer than the limit

  /** Two lines joined by a single line break hold no blank line. */
  lemma NoBlankLine(a: string, b: string)
    requires '\n' !in a && '\n' !in b
    ensures |Split(a + "\n" + b, "\n\n")| == 1
  {
    var s := a + "\n" + b;
    forall i ensures !OccursAt(s, "\n\n", i) {
      if 0 <= i && i + 2 <= |s| {
        assert s[i..i + 2][0] == s[i] && s[i..i + 2][1] == s[i + 1];
        if i < |a| {
          assert s[i] == a[i];
        } else if i > |a| {
          assert s[i] == b[i - |a| - 1];
        } else {
          assert s[i + 1] == b[0];
        }
      }
    }
    SplitFromNoOccurrence(s, "\n\n", "");
  }

  lemma TwoLineSplit(a: string, b: string)
    requires '\n' !in a && '\n' !in b
    ensures Split(a + "\n" + b, "\n") == [a, b]
  {
    SplitFromNoSeparator(b, "\n", "");
    SplitFromBeforeSeparator(a, "\n", b, "");
    assert "" + a == a && "" + b == b;
  }

  lemma ExampleOverlapSteps()
    ensures PackParagraphs(["abcd", "efgh"], 5, 3, Packing([], ""))
         == Packing(["abcd"], "bcd\n\nefgh")
  {
    var p1 := PackParagraph(Packing([], ""), "abcd", 5, 3);
    assert p1 == Packing([], "abcd");
    assert Strip("abcd") == "abcd";
    assert Carry("abcd", "efgh", 3) == "bcd\n\nefgh";
    assert PackParagraph(p1, "efgh", 5, 3) == Packing(["abcd"], "bcd\n\nefgh");
  }

  lemma ExampleOverlapFinish()
    ensures Finish(Packing(["abcd"], "bcd\n\nefgh")) == ["abcd", "bcd\n\nefgh"]
  {
    assert Strip("bcd\n\nefgh") == "bcd\n\nefgh";
  }

  /** A carried overlap makes a piece longer than the limit: here 9 characters against a limit of 5. */
  lemma OverlapExceedsLimit(chunk: string)
    requires chunk == "abcd\nefgh"
    ensures SplitLargeChunk(chunk, 5, 3) == ["abcd", "bcd\n\nefgh"]
    ensures |SplitLargeChunk(chunk, 5, 3)[1]| > 5
  {
    assert chunk == "abcd" + "\n" + "efgh";
    NoBlankLine("abcd", "efgh");
    TwoLineSplit("abcd", "efgh");
    assert Paragraphs(chunk) == ["abcd", "efgh"];
    ExampleOverlapSteps();
    ExampleOverlapFinish();
  }

  lemma ExampleFlushSteps()
    ensures PackParagraphs(["ab", "cd ef gh"], 5, 0, Packing([], ""))
         == Packing(["ab"], "cd ef gh")
  {
    var p1 := PackParagraph(Packing([], ""), "ab", 5, 0);
    assert p1 == Packing([], "ab");
    assert Strip("ab") == "ab";
    assert PackParagraph(p1, "cd ef gh", 5, 0) == Packing(["ab"], "cd ef gh");
  }

  lemma ExampleFlushFinish()
    ensures Finish(Packing(["ab"], "cd ef gh")) == ["ab", "cd ef gh"]
  {
    assert Strip("cd ef gh") == "cd ef gh";
  }

  /**
   * Without any overlap a paragraph that follows a flush is kept whole:
   * the word fallback only runs on an empty buffer.
   */
  lemma ParagraphAfterFlushExceedsLimit(chunk: string)
    requires chunk == "ab\ncd ef gh"
    ensures SplitLargeChunk(chunk, 5, 0) == ["ab", "cd ef gh"]
    ensures |SplitLargeChunk(chunk, 5, 0)[1]| > 5
  {
    assert chunk == "ab" + "\n" + "cd ef gh";
    NoBlankLine("ab", "cd ef gh");
    TwoLineSplit("ab", "cd ef gh");
    assert Paragraphs(chunk) == ["ab", "cd ef gh"];
    ExampleFlushSteps();
    ExampleFlushFinish();
  }
}
