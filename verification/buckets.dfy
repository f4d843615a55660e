/**
 * Fixed-size grouping of fragments, and the two chunkers built on it:
 * `DocumentChunker.chunk_by_sentences` and `DocumentChunker.chunk_by_paragraphs`.
 *
 * Both collect fragments into a bucket and close the bucket as soon as it
 * holds `limit` fragments; a non-empty last bucket is closed at the end.
 */
module Buckets {
  import opened Text

  function Flatten<T>(xss: seq<seq<T>>): seq<T>
    decreases |xss|
  {
    if xss == [] then [] else xss[0] + Flatten(xss[1..])
  }

  /** The bucket size the loop actually produces: a limit below 1 closes every bucket at once. */
  function Width(limit: int): nat {
    if limit >= 1 then limit else 1
  }

  /** ceil(n / Width(limit)): how many buckets n fragments fill. */
  function BucketCount(n: int, limit: int): int {
    (n + Width(limit) - 1) / Width(limit)
  }

  /** The bucket loop; `current` is the open bucket. */
  function Group<T>(xs: seq<T>, limit: int, current: seq<T>): seq<seq<T>>
    decreases |xs|
  {
    if xs == [] then (if current == [] then [] else [current])
    else
      var c := current + [xs[0]];
      if |c| >= limit then [c] + Group(xs[1..], limit, []) else Group(xs[1..], limit, c)
  }

  lemma MulAtLeast(k: int, w: int)
    requires k >= 1 && w > 0
    ensures k * w >= w
  {
  }

  /** Quotient and remainder are unique. */
  lemma DivUnique(x: int, w: int, q: int, r: int)
    requires w > 0 && 0 <= r < w && x == q * w + r
    ensures x / w == q
  {
    var q', r' := x / w, x % w;
    assert x == q' * w + r';
    assert (q - q') * w == r' - r;
    if q > q' {
      MulAtLeast(q - q', w);
    } else if q < q' {
      MulAtLeast(q' - q, w);
    }
  }

  lemma DivStep(a: int, w: int)
    requires w > 0 && a >= 0
    ensures (a + w) / w == a / w + 1
  {
    var q, r := a / w, a % w;
    assert a == q * w + r;
    assert a + w == (q + 1) * w + r;
    DivUnique(a + w, w, q + 1, r);
  }

  /** The buckets hold the open bucket and then the fragments, in order. */
  lemma {:induction false} GroupFlatten<T>(xs: seq<T>, limit: int, current: seq<T>)
    ensures Flatten(Group(xs, limit, current)) == current + xs
    decreases |xs|
  {
    if xs == [] {
      if current != [] {
        assert Flatten([current]) == current + Flatten([]);
      }
    } else {
      var c := current + [xs[0]];
      assert c + xs[1..] == current + xs;
      if |c| >= limit {
        GroupFlatten(xs[1..], limit, []);
        assert [] + xs[1..] == xs[1..];
        assert Flatten([c] + Group(xs[1..], limit, [])) == c + Flatten(Group(xs[1..], limit, []));
      } else {
        GroupFlatten(xs[1..], limit, c);
      }
    }
  }

  /** Every bucket is non-empty and at most `Width(limit)` long; all but the last are full. */
  lemma {:induction false} GroupSizes<T>(xs: seq<T>, limit: int, current: seq<T>)
    requires |current| < Width(limit)
    ensures forall i :: 0 <= i < |Group(xs, limit, current)| ==>
      0 < |Group(xs, limit, current)[i]| <= Width(limit)
    ensures forall i :: 0 <= i < |Group(xs, limit, current)| - 1 ==>
      |Group(xs, limit, current)[i]| == Width(limit)
    decreases |xs|
  {
    if xs != [] {
      var c := current + [xs[0]];
      if |c| >= limit {
        GroupSizes(xs[1..], limit, []);
        var rest := Group(xs[1..], limit, []);
        assert Group(xs, limit, current) == [c] + rest;
      } else {
        GroupSizes(xs[1..], limit, c);
      }
    }
  }

  /** There are ceil(n / Width(limit)) buckets. */
  lemma {:induction false} GroupCount<T>(xs: seq<T>, limit: int, current: seq<T>)
    requires |current| < Width(limit)
    ensures |Group(xs, limit, current)| == (|current| + |xs| + Width(limit) - 1) / Width(limit)
    decreases |xs|
  {
    var w := Width(limit);
    if xs == [] {
      if current == [] {
        DivUnique(w - 1, w, 0, w - 1);
      } else {
        DivUnique(|current| + w - 1, w, 1, |current| - 1);
      }
    } else {
      var c := current + [xs[0]];
      if |c| >= limit {
        GroupCount(xs[1..], limit, []);
        assert |Group(xs, limit, current)| == 1 + |Group(xs[1..], limit, [])|;
        DivStep(|xs| - 1 + w - 1, w);
      } else {
        GroupCount(xs[1..], limit, c);
      }
    }
  }

  // ---------------------------------------------------------------- sentences

  /** The characters of the pattern `[.!?]+`. */
  predicate IsTerminator(c: char) {
    c == '.' || c == '!' || c == '?'
  }

  /**
   * Python `re.split(r'[.!?]+', s)`: the text between maximal runs of
   * terminators. A terminator followed by another one is absorbed into the run;
   * the last terminator of a run closes the current piece.
   */
  function SplitOnTerminators(s: string, current: string): (r: seq<string>)
    ensures |r| >= 1
    decreases |s|
  {
    if s == [] then [current]
    else if IsTerminator(s[0]) then
      if |s| > 1 && IsTerminator(s[1]) then SplitOnTerminators(s[1..], current)
      else [current] + SplitOnTerminators(s[1..], "")
    else SplitOnTerminators(s[1..], current + [s[0]])
  }

  /** Python `[p.strip() for p in pieces if p.strip()]`. */
  function StrippedNonEmpty(pieces: seq<string>): (r: seq<string>)
    decreases |pieces|
  {
    if pieces == [] then []
    else
      var t := Strip(pieces[0]);
      (if t == [] then [] else [t]) + StrippedNonEmpty(pieces[1..])
  }

  /** Every piece kept is non-empty and already stripped. */
  lemma {:induction false} StrippedNonEmptyStripped(pieces: seq<string>)
    ensures forall i :: 0 <= i < |StrippedNonEmpty(pieces)| ==>
      StrippedNonEmpty(pieces)[i] != [] && Strip(StrippedNonEmpty(pieces)[i]) == StrippedNonEmpty(pieces)[i]
    decreases |pieces|
  {
    if pieces != [] {
      StripIdempotent(pieces[0]);
      StrippedNonEmptyStripped(pieces[1..]);
    }
  }

  function Sentences(s: string): seq<string> {
    StrippedNonEmpty(SplitOnTerminators(s, ""))
  }

  /** One sentence chunk: the sentences joined by ". " and closed by ".". */
  function SentenceChunk(bucket: seq<string>): string {
    Join(". ", bucket) + "."
  }

  function SentenceChunks(buckets: seq<seq<string>>): (r: seq<string>)
    ensures |r| == |buckets|
    ensures forall i :: 0 <= i < |r| ==> r[i] == SentenceChunk(buckets[i])
    decreases |buckets|
  {
    if buckets == [] then [] else [SentenceChunk(buckets[0])] + SentenceChunks(buckets[1..])
  }

  /** `chunk_by_sentences`. */
  function ChunkBySentences(s: string, maxSentences: int): seq<string> {
    if Blank(s) then [s] else SentenceChunks(Group(Sentences(s), maxSentences, []))
  }

  // ---------------------------------------------------------------- paragraphs

  function ParagraphChunks(buckets: seq<seq<string>>): (r: seq<string>)
    ensures |r| == |buckets|
    ensures forall i :: 0 <= i < |r| ==> r[i] == Join("\n\n", buckets[i])
    decreases |buckets|
  {
    if buckets == [] then [] else [Join("\n\n", buckets[0])] + ParagraphChunks(buckets[1..])
  }

  /** The non-blank paragraphs of a document, stripped: its pieces between blank-line separators. */
  function Paragraphs(s: string): seq<string> {
    StrippedNonEmpty(Split(s, "\n\n"))
  }

  /** `chunk_by_paragraphs`. */
  function ChunkByParagraphs(s: string, maxParagraphs: int): seq<string> {
    if Blank(s) then [s]
    else
      var paras := Paragraphs(s);
      if paras == [] then [s] else ParagraphChunks(Group(paras, maxParagraphs, []))
  }

  // ---------------------------------------------------------------- lemmas

  lemma {:induction false} StrippedNonEmptyWords(pieces: seq<string>)
    ensures ConcatWords(StrippedNonEmpty(pieces)) == ConcatWords(pieces)
    decreases |pieces|
  {
    if pieces != [] {
      var t := Strip(pieces[0]);
      var rest := StrippedNonEmpty(pieces[1..]);
      StrippedNonEmptyWords(pieces[1..]);
      WordsStrip(pieces[0]);
      if t == [] {
        StripEmptyIffBlank(pieces[0]);
        WordsOfBlank(pieces[0]);
        assert StrippedNonEmpty(pieces) == rest;
      } else {
        assert StrippedNonEmpty(pieces) == [t] + rest;
        assert ConcatWords([t] + rest) == Words(t) + ConcatWords(rest);
      }
    }
  }

  lemma {:induction false} FlattenWords(xss: seq<seq<string>>)
    ensures ConcatWords(ParagraphChunks(xss)) == ConcatWords(Flatten(xss))
    decreases |xss|
  {
    if xss != [] {
      FlattenWords(xss[1..]);
      WordsJoin("\n\n", xss[0]);
      ConcatWordsAppend(xss[0], Flatten(xss[1..]));
      assert ConcatWords(ParagraphChunks(xss))
          == Words(Join("\n\n", xss[0])) + ConcatWords(ParagraphChunks(xss[1..]));
    }
  }

  /** A non-blank document always has a non-blank paragraph. */
  lemma {:induction false} ParagraphsOfNonBlank(s: string)
    requires !Blank(s)
    ensures Paragraphs(s) != []
    ensures ConcatWords(Paragraphs(s)) == Words(s)
  {
    StrippedNonEmptyWords(Split(s, "\n\n"));
    WordsJoin("\n\n", Split(s, "\n\n"));
    StripEmptyIffBlank(s);
    WordsStrip(s);
    assert Words(s) != [];
  }

  /**
   * The paragraph chunker: a blank document comes back unchanged; otherwise the
   * chunks' words are the document's words in order, and there are
   * ceil(p / Width(limit)) chunks for the p non-blank paragraphs, each joining
   * between 1 and Width(limit) of them.
   */
  lemma {:induction false} ChunkByParagraphsSpec(s: string, maxParagraphs: int)
    ensures Blank(s) ==> ChunkByParagraphs(s, maxParagraphs) == [s]
    ensures !Blank(s) ==> ConcatWords(ChunkByParagraphs(s, maxParagraphs)) == Words(s)
    ensures !Blank(s) ==> |ChunkByParagraphs(s, maxParagraphs)| == BucketCount(|Paragraphs(s)|, maxParagraphs)
  {
    if !Blank(s) {
      ParagraphsOfNonBlank(s);
      var paras := Paragraphs(s);
      var g := Group(paras, maxParagraphs, []);
      assert ChunkByParagraphs(s, maxParagraphs) == ParagraphChunks(g);
      ParagraphWords(paras, maxParagraphs);
      ParagraphCount(paras, maxParagraphs);
    }
  }

  lemma ParagraphWords(paras: seq<string>, maxParagraphs: int)
    ensures ConcatWords(ParagraphChunks(Group(paras, maxParagraphs, []))) == ConcatWords(paras)
  {
    var g := Group(paras, maxParagraphs, []);
    GroupFlatten(paras, maxParagraphs, []);
    assert Flatten(g) == paras by {
      assert [] + paras == paras;
    }
    FlattenWords(g);
  }

  lemma ParagraphCount(paras: seq<string>, maxParagraphs: int)
    ensures |ParagraphChunks(Group(paras, maxParagraphs, []))| == BucketCount(|paras|, maxParagraphs)
  {
    var w := Width(maxParagraphs);
    var g := Group(paras, maxParagraphs, []);
    GroupCount(paras, maxParagraphs, []);
    assert |g| == (0 + |paras| + w - 1) / w;
    assert 0 + |paras| + w - 1 == |paras| + w - 1;
  }

  /**
   * The sentence chunker: a blank document comes back unchanged; otherwise the
   * buckets hold the sentences in order, each with between 1 and Width(limit)
   * sentences, and chunk i is bucket i joined by ". " and closed by ".".
   */
  lemma {:induction false} ChunkBySentencesSpec(s: string, maxSentences: int)
    ensures Blank(s) ==> ChunkBySentences(s, maxSentences) == [s]
    ensures !Blank(s) ==>
      var g := Group(Sentences(s), maxSentences, []);
      && Flatten(g) == Sentences(s)
      && (forall i :: 0 <= i < |g| ==> 0 < |g[i]| <= Width(maxSentences))
      && |ChunkBySentences(s, maxSentences)| == |g|
      && (forall i :: 0 <= i < |g| ==> ChunkBySentences(s, maxSentences)[i] == SentenceChunk(g[i]))
  {
    if !Blank(s) {
      var xs := Sentences(s);
      GroupFlatten(xs, maxSentences, []);
      GroupSizes(xs, maxSentences, []);
      assert [] + xs == xs;
    }
  }

  /** There are ceil(n / Width(limit)) sentence chunks for n sentences. */
  lemma {:induction false} ChunkBySentencesCount(s: string, maxSentences: int)
    requires !Blank(s)
    ensures |ChunkBySentences(s, maxSentences)| == BucketCount(|Sentences(s)|, maxSentences)
  {
    var xs := Sentences(s);
    GroupCount(xs, maxSentences, []);
    assert |ChunkBySentences(s, maxSentences)| == |Group(xs, maxSentences, [])|;
  }

  /** A sentence as the splitter yields it: non-empty, stripped, free of terminators. */
  predicate IsSentence(x: string) {
    x != [] && Strip(x) == x && forall i :: 0 <= i < |x| ==> !IsTerminator(x[i])
  }

  predicate TerminatorFree(x: string) {
    forall i :: 0 <= i < |x| ==> !IsTerminator(x[i])
  }

  lemma {:induction false} SplitOnTerminatorsPieces(s: string, current: string)
    requires TerminatorFree(current)
    ensures forall i :: 0 <= i < |SplitOnTerminators(s, current)| ==> TerminatorFree(SplitOnTerminators(s, current)[i])
    decreases |s|
  {
    if s != [] {
      if IsTerminator(s[0]) {
        if |s| > 1 && IsTerminator(s[1]) {
          SplitOnTerminatorsPieces(s[1..], current);
        } else {
          SplitOnTerminatorsPieces(s[1..], "");
        }
      } else {
        SplitOnTerminatorsPieces(s[1..], current + [s[0]]);
      }
    }
  }

  lemma {:induction false} StrippedNonEmptyMembers(pieces: seq<string>)
    requires forall i :: 0 <= i < |pieces| ==> TerminatorFree(pieces[i])
    ensures forall i :: 0 <= i < |StrippedNonEmpty(pieces)| ==> IsSentence(StrippedNonEmpty(pieces)[i])
    decreases |pieces|
  {
    if pieces != [] {
      StrippedNonEmptyMembers(pieces[1..]);
      StripChars(pieces[0]);
      var t := Strip(pieces[0]);
      forall i | 0 <= i < |t| ensures !IsTerminator(t[i]) {
        assert t[i] in pieces[0];
      }
    }
  }

  /** Every sentence the splitter yields is non-empty, stripped and free of terminators. */
  lemma {:induction false} SentencesAreSentences(s: string)
    ensures forall i :: 0 <= i < |Sentences(s)| ==> IsSentence(Sentences(s)[i])
  {
    SplitOnTerminatorsPieces(s, "");
    StrippedNonEmptyMembers(SplitOnTerminators(s, ""));
  }

  /** A terminator-free prefix closed by one terminator becomes one piece. */
  lemma {:induction false} SplitOnTerminatorsPrefix(a: string, rest: string, current: string)
    requires TerminatorFree(a)
    requires rest == [] || !IsTerminator(rest[0])
    ensures SplitOnTerminators(a + "." + rest, current) == [current + a] + SplitOnTerminators(rest, "")
    decreases |a|
  {
    var s := a + "." + rest;
    if a == [] {
      assert s == "." + rest;
      assert s[1..] == rest;
      assert current + a == current;
    } else {
      assert s[0] == a[0];
      assert s[1..] == a[1..] + "." + rest;
      SplitOnTerminatorsPrefix(a[1..], rest, current + [a[0]]);
      assert current + [a[0]] + a[1..] == current + a;
    }
  }

  lemma {:induction false} StripBlankThenStripped(pad: string, x: string)
    requires Blank(pad) && Strip(x) == x
    ensures Strip(pad + x) == x
  {
    LStripBlankPrefix(pad, x);
  }

  lemma {:induction false} ResplitChunk(bucket: seq<string>, pad: string)
    requires |bucket| > 0 && Blank(pad)
    requires forall i :: 0 <= i < |bucket| ==> IsSentence(bucket[i])
    ensures StrippedNonEmpty(SplitOnTerminators(Join(". ", bucket) + ".", pad)) == bucket
    decreases |bucket|
  {
    if |bucket| == 1 {
      ResplitLast(bucket[0], pad);
    } else {
      var tail := bucket[1..];
      ResplitChunk(tail, " ");
      ResplitFirst(bucket, pad);
    }
  }

  lemma StrippedNonEmptyCons(x: string, xs: seq<string>)
    ensures StrippedNonEmpty([x] + xs) == (if Strip(x) == [] then [] else [Strip(x)]) + StrippedNonEmpty(xs)
  {
    assert ([x] + xs)[1..] == xs;
  }

  /** The last sentence of a chunk, closed by its ".", comes back alone. */
  lemma ResplitLast(b: string, pad: string)
    requires Blank(pad) && IsSentence(b)
    ensures StrippedNonEmpty(SplitOnTerminators(Join(". ", [b]) + ".", pad)) == [b]
  {
    StripBlankThenStripped(pad, b);
    assert Join(". ", [b]) + "." == b + "." + "";
    SplitOnTerminatorsPrefix(b, "", pad);
    StrippedNonEmptyCons(pad + b, [""]);
    StrippedNonEmptyCons("", []);
  }

  /** The first sentence of a chunk comes back first; the rest is split after its separating space. */
  lemma ResplitFirst(bucket: seq<string>, pad: string)
    requires |bucket| > 1 && Blank(pad) && IsSentence(bucket[0])
    ensures StrippedNonEmpty(SplitOnTerminators(Join(". ", bucket) + ".", pad))
         == [bucket[0]] + StrippedNonEmpty(SplitOnTerminators(Join(". ", bucket[1..]) + ".", " "))
  {
    var b0 := bucket[0];
    var x := Join(". ", bucket[1..]) + ".";
    StripBlankThenStripped(pad, b0);
    SentenceThenRest(b0, Join(". ", bucket[1..]));
    assert Join(". ", bucket) == b0 + ". " + Join(". ", bucket[1..]);
    SplitOnTerminatorsPrefix(b0, " " + x, pad);
    SplitAfterSpace(x);
    StrippedNonEmptyCons(pad + b0, SplitOnTerminators(" " + x, ""));
  }

  lemma SentenceThenRest(b: string, j: string)
    ensures b + ". " + j + "." == b + "." + (" " + (j + "."))
  {
    AppendAssoc(b + ". ", j, ".");
    assert ". " == "." + " ";
    AppendAssoc(b, ".", " ");
    AppendAssoc(b + ".", " ", j + ".");
  }

  lemma SplitAfterSpace(x: string)
    ensures SplitOnTerminators(" " + x, "") == SplitOnTerminators(x, " ")
  {
    assert (" " + x)[1..] == x;
    assert "" + [(" " + x)[0]] == " ";
  }

  /** Splitting a sentence chunk into sentences gives back its bucket. */
  lemma {:induction false} SentenceChunkRoundTrip(bucket: seq<string>)
    requires |bucket| > 0
    requires forall i :: 0 <= i < |bucket| ==> IsSentence(bucket[i])
    ensures Sentences(SentenceChunk(bucket)) == bucket
  {
    ResplitChunk(bucket, "");
  }

  lemma {:induction false} FlattenMember<T>(xss: seq<seq<T>>, i: int, j: int)
    requires 0 <= i < |xss| && 0 <= j < |xss[i]|
    ensures xss[i][j] in Flatten(xss)
    decreases |xss|
  {
    if i > 0 {
      FlattenMember(xss[1..], i - 1, j);
    }
  }

  /** Each sentence chunk, split into sentences again, gives back exactly the sentences it was built from. */
  lemma {:induction false} ChunkBySentencesRoundTrip(s: string, maxSentences: int)
    requires !Blank(s)
    ensures var g := Group(Sentences(s), maxSentences, []);
      forall i :: 0 <= i < |g| ==> Sentences(ChunkBySentences(s, maxSentences)[i]) == g[i]
  {
    var g := Group(Sentences(s), maxSentences, []);
    SentencesAreSentences(s);
    GroupFlatten(Sentences(s), maxSentences, []);
    GroupSizes(Sentences(s), maxSentences, []);
    assert [] + Sentences(s) == Sentences(s);
    forall i | 0 <= i < |g| ensures Sentences(ChunkBySentences(s, maxSentences)[i]) == g[i] {
      forall j | 0 <= j < |g[i]| ensures IsSentence(g[i][j]) {
        FlattenMember(g, i, j);
      }
      SentenceChunkRoundTrip(g[i]);
    }
  }

  lemma {:induction false} SplitOnTerminatorsBlank(s: string, current: string)
    requires Blank(current)
    requires forall i :: 0 <= i < |s| ==> IsTerminator(s[i]) || IsSpace(s[i])
    ensures forall i :: 0 <= i < |SplitOnTerminators(s, current)| ==> Blank(SplitOnTerminators(s, current)[i])
    decreases |s|
  {
    if s != [] {
      if IsTerminator(s[0]) {
        if |s| > 1 && IsTerminator(s[1]) {
          SplitOnTerminatorsBlank(s[1..], current);
        } else {
          SplitOnTerminatorsBlank(s[1..], "");
        }
      } else {
        SplitOnTerminatorsBlank(s[1..], current + [s[0]]);
      }
    }
  }

  lemma {:induction false} StrippedNonEmptyOfBlanks(pieces: seq<string>)
    requires forall i :: 0 <= i < |pieces| ==> Blank(pieces[i])
    ensures StrippedNonEmpty(pieces) == []
    decreases |pieces|
  {
    if pieces != [] {
      StripEmptyIffBlank(pieces[0]);
      StrippedNonEmptyOfBlanks(pieces[1..]);
    }
  }

  /** A document of terminators and whitespace only, but not blank, yields no chunk at all. */
  lemma {:induction false} PunctuationOnlyYieldsNothing(s: string, maxSentences: int)
    requires !Blank(s)
    requires forall i :: 0 <= i < |s| ==> IsTerminator(s[i]) || IsSpace(s[i])
    ensures ChunkBySentences(s, maxSentences) == []
  {
    SplitOnTerminatorsBlank(s, "");
    StrippedNonEmptyOfBlanks(SplitOnTerminators(s, ""));
  }

  lemma LetterIsSentence(x: string)
    requires x == "A" || x == "B" || x == "C" || x == "D" || x == "E" || x == "F"
    ensures IsSentence(x)
  {
    assert !IsSpace(x[0]);
    assert Strip(x) == x;
  }

  lemma GroupPair<T>(a: T, b: T, rest: seq<T>)
    ensures Group([a, b] + rest, 2, []) == [[a, b]] + Group(rest, 2, [])
  {
    var xs := [a, b] + rest;
    assert xs[1..] == [b] + rest;
    assert xs[1..][1..] == rest;
    assert [] + [xs[0]] == [a];
    assert Group(xs, 2, []) == Group(xs[1..], 2, [a]);
    assert [a] + [xs[1..][0]] == [a, b];
  }

  lemma ExampleGroups(xs: seq<string>)
    requires xs == ["A", "B", "C", "D", "E", "F"]
    ensures Group(xs, 2, []) == [["A", "B"], ["C", "D"], ["E", "F"]]
  {
    GroupPair("E", "F", []);
    GroupPair("C", "D", ["E", "F"]);
    GroupPair("A", "B", ["C", "D", "E", "F"]);
    assert ["C", "D"] + ["E", "F"] == ["C", "D", "E", "F"];
    assert ["A", "B"] + ["C", "D", "E", "F"] == xs;
  }

  lemma JoinTwo(sep: string, a: string, b: string)
    ensures Join(sep, [a, b]) == a + sep + b
  {
    assert [a, b][1..] == [b];
  }

  lemma ExampleJoin(xs: seq<string>, s: string)
    requires xs == ["A", "B", "C", "D", "E", "F"]
    requires s == "A. B. C. D. E. F."
    ensures s == SentenceChunk(xs)
  {
    JoinTwo(". ", "E", "F");
    assert xs[4..] == ["E", "F"];
    assert xs[2..][1..] == xs[3..];
    assert xs[3..][1..] == xs[4..];
    assert xs[1..][1..] == xs[2..];
    assert xs[1..] == xs[1..];
    assert Join(". ", xs[3..]) == "D" + ". " + Join(". ", xs[4..]);
    assert Join(". ", xs[2..]) == "C" + ". " + Join(". ", xs[3..]);
    assert Join(". ", xs[1..]) == "B" + ". " + Join(". ", xs[2..]);
    assert Join(". ", xs) == "A" + ". " + Join(". ", xs[1..]);
  }

  /** A bucket of two one-letter sentences. */
  lemma PairChunk(a: char, b: char)
    ensures SentenceChunk([[a], [b]]) == [a, '.', ' ', b, '.']
  {
    JoinTwo(". ", [a], [b]);
    assert [a] + ". " + [b] + "." == [a, '.', ' ', b, '.'];
  }

  lemma ExampleSentences(s: string)
    requires s == "A. B. C. D. E. F."
    ensures !Blank(s) && Sentences(s) == ["A", "B", "C", "D", "E", "F"]
  {
    var xs := ["A", "B", "C", "D", "E", "F"];
    ExampleJoin(xs, s);
    forall i | 0 <= i < |xs| ensures IsSentence(xs[i]) {
      LetterIsSentence(xs[i]);
    }
    SentenceChunkRoundTrip(xs);
    assert !Blank(s) by {
      assert !IsSpace(s[0]);
    }
  }

  /** Six one-letter sentences in buckets of two give three chunks. */
  lemma SixSentencesInPairs(s: string)
    requires s == "A. B. C. D. E. F."
    ensures ChunkBySentences(s, 2) == ["A. B.", "C. D.", "E. F."]
  {
    var xs := ["A", "B", "C", "D", "E", "F"];
    ExampleSentences(s);
    ExampleGroups(xs);
    PairChunk('A', 'B');
    PairChunk('C', 'D');
    PairChunk('E', 'F');
    var r := SentenceChunks([["A", "B"], ["C", "D"], ["E", "F"]]);
    assert ChunkBySentences(s, 2) == r;
    assert r[0] == "A. B." && r[1] == "C. D." && r[2] == "E. F.";
  }

}
