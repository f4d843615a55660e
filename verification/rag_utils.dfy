/**
 * Retrieval post-processing of `RAGManager`: board classification, the
 * metadata attached at ingestion, filtering and truncation of retrieved
 * candidates, and the context string handed to the tutor. The vector store
 * is outside the model: what it returns is the `Retriever` parameter.
 */
module RagUtils {
  import opened Text
  import opened Values

  /** A LangChain `Document`: page content plus metadata. */
  datatype Doc = Doc(content: string, metadata: Record)

  /** The configured retriever: absent, raising on a query, or returning candidates. */
  datatype Retriever = NoRetriever | Fails | Returns(candidates: seq<Doc>)

  // ---------------------------------------------------------------- board classification

  predicate NationalBoard(b: string) {
    Contains(b, "cbse") || Contains(b, "ncert") || Contains(b, "icse")
  }

  /** `_get_curriculum_type`: the first matching rule, on the lowercased board name. */
  function CurriculumType(board: string): (r: string)
    ensures r == "National" <==> NationalBoard(Lower(board))
    ensures r == "State" <==> !NationalBoard(Lower(board)) && Contains(Lower(board), "state")
    ensures r == "International" <==>
      !NationalBoard(Lower(board)) && !Contains(Lower(board), "state")
      && (Contains(Lower(board), "international") || Contains(Lower(board), "ib"))
    ensures r in ["National", "State", "International", "Other"]
  {
    var b := Lower(board);
    if Contains(b, "cbse") then "National"
    else if Contains(b, "ncert") then "National"
    else if Contains(b, "icse") then "National"
    else if Contains(b, "state") then "State"
    else if Contains(b, "international") || Contains(b, "ib") then "International"
    else "Other"
  }

  /** The state boards, in the order they are tried, with the region each names. */
  const StateBoards: seq<(string, string)> := [
    ("maharashtra", "Maharashtra"),
    ("karnataka", "Karnataka"),
    ("tamil nadu", "Tamil Nadu"),
    ("kerala", "Kerala"),
    ("gujarat", "Gujarat"),
    ("rajasthan", "Rajasthan"),
    ("west bengal", "West Bengal"),
    ("uttar pradesh", "Uttar Pradesh"),
    ("delhi", "Delhi")
  ]

  /** The region of the first listed state whose name occurs in `b`. */
  function FirstState(b: string, boards: seq<(string, string)>): (r: Option<string>)
    ensures r.None? <==> forall i :: 0 <= i < |boards| ==> !Contains(b, boards[i].0)
    ensures r.Some? ==> exists i :: 0 <= i < |boards| && Contains(b, boards[i].0) && r.value == boards[i].1
                                    && forall j :: 0 <= j < i ==> !Contains(b, boards[j].0)
    decreases |boards|
  {
    if boards == [] then None
    else if Contains(b, boards[0].0) then Some(boards[0].1)
    else
      assert forall j :: 1 <= j < |boards| ==> boards[j] == boards[1..][j - 1];
      FirstState(b, boards[1..])
  }

  /** `_get_board_region`. */
  function BoardRegion(board: string): (r: string)
    ensures FirstState(Lower(board), StateBoards).Some? ==> r == FirstState(Lower(board), StateBoards).value
    ensures FirstState(Lower(board), StateBoards).None? ==>
      r == (if NationalBoard(Lower(board)) then "National" else "Unknown")
  {
    var b := Lower(board);
    match FirstState(b, StateBoards)
    case Some(region) => region
    case None => if NationalBoard(b) then "National" else "Unknown"
  }

  /** The two classifiers agree on national boards: a "National" region has a "National" curriculum. */
  lemma NationalRegionIsNationalCurriculum(board: string)
    ensures BoardRegion(board) == "National" ==> CurriculumType(board) == "National"
    ensures BoardRegion(board) == "Unknown" ==> CurriculumType(board) != "National"
  {
    var s := FirstState(Lower(board), StateBoards);
    if s.Some? {
      var i :| 0 <= i < |StateBoards| && s.value == StateBoards[i].1;
      RegionNames(i);
    }
  }

  lemma RegionNames(i: int)
    requires 0 <= i < |StateBoards|
    ensures StateBoards[i].1 != "National" && StateBoards[i].1 != "Unknown"
  {
  }

  lemma ClassifyCbse(board: string)
    requires board == "CBSE"
    ensures CurriculumType(board) == "National"
    ensures BoardRegion(board) == "National"
  {
    var b := Lower(board);
    assert b == "cbse";
    assert OccursAt(b, "cbse", 0);
    ContainsIff(b, "cbse");
    forall i | 0 <= i < |StateBoards| ensures !Contains(b, StateBoards[i].0) {
      ContainsIff(b, StateBoards[i].0);
      assert |StateBoards[i].0| > |b|;
    }
  }

  // ---------------------------------------------------------------- ingestion

  /** `chunk_documents`: the whole page is one chunk. */
  function ChunkDocuments(content: string): (r: seq<string>)
    ensures |r| == 1 && r[0] == content
  {
    [content]
  }

  /** A copy of `page` per chunk of its content, each differing from the page only in content. */
  function ChunkPage(page: Doc): (r: seq<Doc>)
    ensures |r| == |ChunkDocuments(page.content)|
    ensures forall j :: 0 <= j < |r| ==> r[j] == page.(content := ChunkDocuments(page.content)[j])
  {
    var pieces := ChunkDocuments(page.content);
    seq(|pieces|, j requires 0 <= j < |pieces| => page.(content := pieces[j]))
  }

  function Classified(page: Doc, board: string): Doc {
    page.(metadata := page.metadata["region" := Str(BoardRegion(board))]
                                   ["curriculum_type" := Str(CurriculumType(board))])
  }

  function ChunkPages(pages: seq<Doc>): (r: seq<Doc>)
    decreases |pages|
  {
    if pages == [] then [] else ChunkPage(pages[0]) + ChunkPages(pages[1..])
  }

  /**
   * The loop of `load_pdf_with_board` after the pages are read: the pages it
   * returns (their metadata now classified) and the chunk documents it stores.
   */
  function LoadPdfWithBoard(pages: seq<Doc>, board: string): (r: (seq<Doc>, seq<Doc>))
  {
    var classified := seq(|pages|, i requires 0 <= i < |pages| => Classified(pages[i], board));
    (classified, ChunkPages(classified))
  }

  lemma {:induction false} ChunkPagesOneEach(pages: seq<Doc>)
    ensures ChunkPages(pages) == pages
    decreases |pages|
  {
    if pages != [] {
      ChunkPagesOneEach(pages[1..]);
      assert ChunkPage(pages[0]) == [pages[0]];
      assert pages == [pages[0]] + pages[1..];
    }
  }

  /** Classifying a page adds region and curriculum type and keeps everything else. */
  lemma ClassifiedSpec(page: Doc, board: string)
    ensures var c := Classified(page, board);
      && c.content == page.content
      && c.metadata["region"] == Str(BoardRegion(board))
      && c.metadata["curriculum_type"] == Str(CurriculumType(board))
      && c.metadata.Keys == page.metadata.Keys + {"region", "curriculum_type"}
      && forall k :: k in page.metadata && k != "region" && k != "curriculum_type" ==>
           c.metadata[k] == page.metadata[k]
  {
    SetTwo(page.metadata, Str(BoardRegion(board)), Str(CurriculumType(board)));
  }

  lemma SetTwo(m: Record, region: Value, curriculum: Value)
    ensures var u := m["region" := region]["curriculum_type" := curriculum];
      && u["region"] == region && u["curriculum_type"] == curriculum
      && u.Keys == m.Keys + {"region", "curriculum_type"}
      && forall k :: k in m && k != "region" && k != "curriculum_type" ==> u[k] == m[k]
  {
  }

  /**
   * Every page, and every chunk stored for it, carries the board's region and
   * curriculum type and otherwise the page's own metadata; with one chunk per
   * page, chunk i is page i.
   */
  lemma LoadPdfWithBoardSpec(pages: seq<Doc>, board: string)
    ensures var (returned, stored) := LoadPdfWithBoard(pages, board);
      && |returned| == |pages| && stored == returned
      && forall i :: 0 <= i < |pages| ==> returned[i] == Classified(pages[i], board)
  {
    var (returned, stored) := LoadPdfWithBoard(pages, board);
    ChunkPagesOneEach(returned);
  }

  // ---------------------------------------------------------------- filtering

  /** A filter argument that takes part: given and non-empty. */
  predicate Active(filter: Option<string>) {
    filter.Some? && filter.value != ""
  }

  /**
   * One filter on one document: `metadata.get(key, '').lower()` must contain the
   * lowercased filter; a present non-string value has no `lower` and raises.
   */
  function FieldMatches(metadata: Record, key: string, filter: Option<string>): (r: Attempt<bool>)
    ensures !Active(filter) ==> r == Done(true)
    ensures Active(filter) && key !in metadata ==> r == Done(false)
    ensures Active(filter) && key in metadata && metadata[key].Str? ==>
      r == Done(Contains(Lower(metadata[key].s), Lower(filter.value)))
    ensures Active(filter) && key in metadata && !metadata[key].Str? ==> r.Raised?
  {
    if !Active(filter) then Done(true)
    else if key !in metadata then
      assert !OccursAt("", Lower(filter.value), IndexOf("", Lower(filter.value), 0));
      Done(Contains("", Lower(filter.value)))
    else if metadata[key].Str? then Done(Contains(Lower(metadata[key].s), Lower(filter.value)))
    else Raised
  }

  /** The three board/class/subject filters, checked in order; a failed check skips the rest. */
  datatype Filters = Filters(board: Option<string>, grade: Option<string>, subject: Option<string>)

  predicate AnyActive(f: Filters) {
    Active(f.board) || Active(f.grade) || Active(f.subject)
  }

  function Keep(d: Doc, f: Filters): Attempt<bool> {
    match FieldMatches(d.metadata, "board", f.board)
    case Raised => Raised
    case Done(false) => Done(false)
    case Done(true) =>
      match FieldMatches(d.metadata, "class", f.grade)
      case Raised => Raised
      case Done(false) => Done(false)
      case Done(true) => FieldMatches(d.metadata, "subject", f.subject)
  }

  /** `a` is `b` with some elements left out, the rest in their original order. */
  predicate IsSubsequence<T(==)>(a: seq<T>, b: seq<T>)
    decreases |b|
  {
    if a == [] then true
    else if b == [] then false
    else (a[0] == b[0] && IsSubsequence(a[1..], b[1..])) || IsSubsequence(a, b[1..])
  }

  lemma {:induction false} SubsequencePrefix<T>(a: seq<T>, b: seq<T>, k: nat)
    requires IsSubsequence(a, b) && k <= |a|
    ensures IsSubsequence(a[..k], b)
    decreases |b|
  {
    if k > 0 && a != [] && b != [] {
      if a[0] == b[0] && IsSubsequence(a[1..], b[1..]) {
        SubsequencePrefix(a[1..], b[1..], k - 1);
        assert a[..k][1..] == a[1..][..k - 1];
      } else {
        SubsequencePrefix(a, b[1..], k);
      }
    }
  }

  lemma {:induction false} SubsequenceSelf<T>(a: seq<T>)
    ensures IsSubsequence(a, a)
    decreases |a|
  {
    if a != [] {
      SubsequenceSelf(a[1..]);
    }
  }

  /**
   * The filtering loop of `retrieve_context_by_board`: the candidates it keeps,
   * or `Raised` when a check raises.
   */
  function FilterDocs(docs: seq<Doc>, f: Filters): (r: Attempt<seq<Doc>>)
    ensures r.Raised? <==> exists i :: 0 <= i < |docs| && Keep(docs[i], f).Raised?
    ensures r.Done? ==> IsSubsequence(r.value, docs)
    ensures r.Done? ==> forall d :: d in r.value <==> d in docs && Keep(d, f) == Done(true)
    decreases |docs|
  {
    if docs == [] then Done([])
    else
      var rest := FilterDocs(docs[1..], f);
      assert forall j :: 1 <= j < |docs| ==> docs[j] == docs[1..][j - 1];
      assert forall d :: d in docs <==> d == docs[0] || d in docs[1..];
      match Keep(docs[0], f)
      case Raised => Raised
      case Done(keep) =>
        match rest
        case Raised => Raised
        case Done(kept) => Done(if keep then [docs[0]] + kept else kept)
  }

  /**
   * The query can be cut with `[:50]`: a string or a list. The log line that
   * does so sits inside the `try`, so any other query makes the retrieval
   * return [].
   */
  predicate Sliceable(query: Value) {
    query.Str? || query.List?
  }

  /**
   * `retrieve_context_by_board`: never raises; every failure, a raising
   * metadata check included, gives []. Otherwise the result is the first
   * `top_k` of the kept candidates (all candidates when no filter is active).
   */
  function RetrieveByBoard(retriever: Retriever, query: Value, f: Filters, topK: nat): (r: seq<Doc>)
    ensures retriever.NoRetriever? || retriever.Fails? || !Sliceable(query) ==> r == []
    ensures retriever.Returns? && FilterDocs(retriever.candidates, f).Raised? ==> r == []
    ensures retriever.Returns? && Sliceable(query) && FilterDocs(retriever.candidates, f).Done? ==>
      var kept := if AnyActive(f) then FilterDocs(retriever.candidates, f).value else retriever.candidates;
      |r| == (if topK < |kept| then topK else |kept|) && r == kept[..|r|]
    ensures |r| <= topK
  {
    match retriever
    case NoRetriever => []
    case Fails => []
    case Returns(docs) =>
      match FilterDocs(docs, f)
      case Raised => []
      case Done(kept) => if Sliceable(query) then Take(if AnyActive(f) then kept else docs, topK) else []
  }

  /** Unfiltered, the result is the first `top_k` candidates exactly, for a query that can be sliced. */
  lemma NoFiltersTakesFirst(docs: seq<Doc>, query: Value, f: Filters, topK: nat)
    requires !AnyActive(f)
    ensures RetrieveByBoard(Returns(docs), query, f, topK) == if Sliceable(query) then Take(docs, topK) else []
  {
    assert FilterDocs(docs, f).Done? by {
      forall i | 0 <= i < |docs| ensures Keep(docs[i], f) == Done(true) {
      }
    }
  }

  /**
   * Filtered, the result is an order-preserving selection of the candidates,
   * a candidate is selected only if every active filter matches it, and the
   * selection is the first `top_k` of those that pass; a raising check gives [].
   */
  lemma RetrieveByBoardFiltered(docs: seq<Doc>, query: Value, f: Filters, topK: nat)
    ensures var r := RetrieveByBoard(Returns(docs), query, f, topK);
      && IsSubsequence(r, docs)
      && (AnyActive(f) ==> forall d :: d in r ==> Keep(d, f) == Done(true))
      && (FilterDocs(docs, f).Raised? ==> r == [])
      && (Sliceable(query) && AnyActive(f) && FilterDocs(docs, f).Done? ==>
            var kept := FilterDocs(docs, f).value;
            |r| == (if topK < |kept| then topK else |kept|) && r == kept[..|r|])
    ensures Sliceable(query) && AnyActive(f) && FilterDocs(docs, f).Done? && |FilterDocs(docs, f).value| <= topK ==>
      forall d :: d in docs && Keep(d, f) == Done(true) ==> d in RetrieveByBoard(Returns(docs), query, f, topK)
  {
    var r := RetrieveByBoard(Returns(docs), query, f, topK);
    match FilterDocs(docs, f)
    case Raised =>
    case Done(kept) =>
      var all := if AnyActive(f) then kept else docs;
      SubsequenceSelf(docs);
      if topK < |all| {
        SubsequencePrefix(all, docs, topK);
      }
  }

  /** A candidate passes `Keep` exactly when each active filter is a substring of its field. */
  lemma KeepSpec(d: Doc, f: Filters)
    requires forall k :: k in d.metadata ==> d.metadata[k].Str?
    ensures Keep(d, f) == Done(
      && (Active(f.board) ==> "board" in d.metadata && Contains(Lower(d.metadata["board"].s), Lower(f.board.value)))
      && (Active(f.grade) ==> "class" in d.metadata && Contains(Lower(d.metadata["class"].s), Lower(f.grade.value)))
      && (Active(f.subject) ==> "subject" in d.metadata && Contains(Lower(d.metadata["subject"].s), Lower(f.subject.value))))
  {
  }

  // ---------------------------------------------------------------- advanced filter

  /**
   * The inner loop of `retrieve_context_advanced_filter`: every (key, value)
   * pair must name a present string field containing the value, case-insensitively.
   */
  function MatchesAll(metadata: Record, filters: seq<(string, string)>): (r: Attempt<bool>)
    ensures filters == [] ==> r == Done(true)
    decreases |filters|
  {
    if filters == [] then Done(true)
    else
      var (key, value) := filters[0];
      if key !in metadata then Done(false)
      else if !metadata[key].Str? then Raised
      else if !Contains(Lower(metadata[key].s), Lower(value)) then Done(false)
      else MatchesAll(metadata, filters[1..])
  }

  /** With string-valued metadata, a candidate matches iff every filter key is present and matches. */
  lemma {:induction false} MatchesAllSpec(metadata: Record, filters: seq<(string, string)>)
    requires forall k :: k in metadata ==> metadata[k].Str?
    ensures MatchesAll(metadata, filters) == Done(forall i :: 0 <= i < |filters| ==>
      filters[i].0 in metadata && Contains(Lower(metadata[filters[i].0].s), Lower(filters[i].1)))
    decreases |filters|
  {
    if filters != [] {
      MatchesAllSpec(metadata, filters[1..]);
      assert forall j :: 1 <= j < |filters| ==> filters[j] == filters[1..][j - 1];
    }
  }

  function AdvancedKept(docs: seq<Doc>, filters: seq<(string, string)>): (r: Attempt<seq<Doc>>)
    ensures r.Raised? <==> exists i :: 0 <= i < |docs| && MatchesAll(docs[i].metadata, filters).Raised?
    ensures r.Done? ==> IsSubsequence(r.value, docs)
    ensures r.Done? ==> forall d :: d in r.value <==> d in docs && MatchesAll(d.metadata, filters) == Done(true)
    decreases |docs|
  {
    if docs == [] then Done([])
    else
      var rest := AdvancedKept(docs[1..], filters);
      assert forall j :: 1 <= j < |docs| ==> docs[j] == docs[1..][j - 1];
      assert forall d :: d in docs <==> d == docs[0] || d in docs[1..];
      match MatchesAll(docs[0].metadata, filters)
      case Raised => Raised
      case Done(keep) =>
        match rest
        case Raised => Raised
        case Done(kept) => Done(if keep then [docs[0]] + kept else kept)
  }

  /**
   * `retrieve_context_advanced_filter`: every failure, a raising metadata
   * check included, gives []; otherwise the first `top_k` matching candidates.
   */
  function RetrieveAdvanced(retriever: Retriever, query: Value, filters: seq<(string, string)>, topK: nat): (r: seq<Doc>)
    ensures retriever.NoRetriever? || retriever.Fails? || !Sliceable(query) ==> r == []
    ensures retriever.Returns? && AdvancedKept(retriever.candidates, filters).Raised? ==> r == []
    ensures retriever.Returns? && Sliceable(query) && AdvancedKept(retriever.candidates, filters).Done? ==>
      var kept := AdvancedKept(retriever.candidates, filters).value;
      |r| == (if topK < |kept| then topK else |kept|) && r == kept[..|r|]
    ensures |r| <= topK
  {
    match retriever
    case NoRetriever => []
    case Fails => []
    case Returns(docs) =>
      match AdvancedKept(docs, filters)
      case Raised => []
      case Done(kept) => if Sliceable(query) then Take(kept, topK) else []
  }

  /**
   * An empty filter dict keeps every candidate; otherwise the result is the
   * first `top_k` of the matching candidates, in order, and a raising check gives [].
   */
  lemma RetrieveAdvancedSpec(docs: seq<Doc>, query: Value, filters: seq<(string, string)>, topK: nat)
    ensures filters == [] && Sliceable(query) ==> RetrieveAdvanced(Returns(docs), query, filters, topK) == Take(docs, topK)
    ensures var r := RetrieveAdvanced(Returns(docs), query, filters, topK);
      && IsSubsequence(r, docs)
      && (forall d :: d in r ==> MatchesAll(d.metadata, filters) == Done(true))
      && (AdvancedKept(docs, filters).Raised? ==> r == [])
      && (Sliceable(query) && AdvancedKept(docs, filters).Done? ==>
            var kept := AdvancedKept(docs, filters).value;
            |r| == (if topK < |kept| then topK else |kept|) && r == kept[..|r|])
  {
    var r := RetrieveAdvanced(Returns(docs), query, filters, topK);
    SubsequenceSelf(docs);
    match AdvancedKept(docs, filters)
    case Raised =>
    case Done(kept) =>
      if filters == [] {
        AllKept(docs, filters);
      }
      if topK < |kept| {
        SubsequencePrefix(kept, docs, topK);
      }
  }

  lemma {:induction false} AllKept(docs: seq<Doc>, filters: seq<(string, string)>)
    requires filters == []
    ensures AdvancedKept(docs, filters) == Done(docs)
    decreases |docs|
  {
    if docs != [] {
      AllKept(docs[1..], filters);
      assert [docs[0]] + docs[1..] == docs;
    }
  }

  // ---------------------------------------------------------------- context string

  /** The opening of every "nothing found" message. */
  const NoContext: string := "No relevant context" + " found in the knowledge base"

  function Field(metadata: Record, key: string): string {
    if key in metadata then Render(metadata[key]) else "Unknown"
  }

  function Header(i: nat): string {
    "\nContext " + NatToString(i) + ":"
  }

  function Body(d: Doc): string {
    "\nBoard: " + Field(d.metadata, "board")
    + "\nSubject: " + Field(d.metadata, "subject")
    + "\nClass: " + Field(d.metadata, "class")
    + "\nChapter: " + Field(d.metadata, "chapter")
    + "\nCurriculum Type: " + Field(d.metadata, "curriculum_type")
    + "\nRegion: " + Field(d.metadata, "region")
    + "\nContent: " + Strip(d.content) + "\n"
  }

  /** The block for the `i`-th document (counting from 1). */
  function Block(i: nat, d: Doc): string {
    Header(i) + Body(d)
  }

  /** The blocks of `docs`, numbered from `first`. */
  function Blocks(docs: seq<Doc>, first: nat): seq<string> {
    seq(|docs|, i requires 0 <= i < |docs| => Block(first + i, docs[i]))
  }

  /** The " for ..." clause naming the active filters, or "" when none is active. */
  function FilterDescription(f: Filters): string {
    var parts := (if Active(f.board) then [f.board.value + " board"] else [])
                 + (if Active(f.grade) then [f.grade.value] else [])
                 + (if Active(f.subject) then [f.subject.value] else []);
    if parts == [] then "" else " for " + Join(", ", parts)
  }

  function FormatContext(docs: seq<Doc>): string {
    Join("\n", Blocks(docs, 1))
  }

  /** `get_context_string_with_board`. */
  function ContextStringWithBoard(retriever: Retriever, query: Value, f: Filters, topK: nat): (r: string)
  {
    var docs := RetrieveByBoard(retriever, query, f, topK);
    if docs == [] then NoContext + FilterDescription(f) + "." else FormatContext(docs)
  }

  function AdvancedDescription(filters: seq<(string, string)>): (r: seq<string>)
    ensures |r| == |filters|
    ensures forall i :: 0 <= i < |r| ==> r[i] == filters[i].0 + ": " + filters[i].1
  {
    seq(|filters|, i requires 0 <= i < |filters| => filters[i].0 + ": " + filters[i].1)
  }

  /** `get_context_string_advanced`. */
  function ContextStringAdvanced(retriever: Retriever, query: Value, filters: seq<(string, string)>, topK: nat): (r: string)
  {
    var docs := RetrieveAdvanced(retriever, query, filters, topK);
    if docs == [] then NoContext + " for filters: " + Join(", ", AdvancedDescription(filters)) + "."
    else FormatContext(docs)
  }

  lemma NoContextPrefix(tail: string)
    ensures StartsWith(NoContext + tail, NoContext)
  {
    assert (NoContext + tail)[..|NoContext|] == NoContext;
  }

  /** A formatted context opens with the first document's block, headed "\nContext 1:". */
  lemma FormatContextShape(docs: seq<Doc>)
    requires docs != []
    ensures StartsWith(FormatContext(docs), Block(1, docs[0]))
    ensures StartsWith(FormatContext(docs), "\nContext 1:")
    ensures !StartsWith(FormatContext(docs), NoContext)
  {
    var r := FormatContext(docs);
    var b := Block(1, docs[0]);
    FormatContextFirst(docs);
    StartsWithAppend(Header(1), Body(docs[0]));
    StartsWithTrans(r, b, Header(1));
    HeaderOne();
    NotNoContext(r);
  }

  lemma FormatContextFirst(docs: seq<Doc>)
    requires docs != []
    ensures StartsWith(FormatContext(docs), Block(1, docs[0]))
  {
    assert Blocks(docs, 1)[0] == Block(1, docs[0]);
  }

  lemma HeaderOne()
    ensures Header(1) == "\nContext 1:"
  {
    assert NatToString(1) == "1";
  }

  /** A text opening with a newline is never the "nothing found" message. */
  lemma NotNoContext(r: string)
    requires StartsWith(r, "\nContext 1:")
    ensures !StartsWith(r, NoContext)
  {
    assert r[0] == '\n';
    assert NoContext[0] == 'N';
  }

  /**
   * The context string names every active filter when nothing is found (no
   * retriever, or a query that cannot be sliced, included), and otherwise is
   * the documents' blocks — never the "no context" message.
   */
  lemma ContextStringWithBoardSpec(retriever: Retriever, query: Value, f: Filters, topK: nat)
    ensures var docs := RetrieveByBoard(retriever, query, f, topK);
      var r := ContextStringWithBoard(retriever, query, f, topK);
      && (docs == [] ==> r == NoContext + FilterDescription(f) + ".")
      && (docs != [] ==> StartsWith(r, Block(1, docs[0])) && !StartsWith(r, NoContext))
      && (docs != [] ==> r == Join("\n", Blocks(docs, 1)))
    ensures StartsWith(ContextStringWithBoard(retriever, query, f, topK), NoContext) <==>
      RetrieveByBoard(retriever, query, f, topK) == []
    ensures retriever.NoRetriever? || !Sliceable(query) ==>
      ContextStringWithBoard(retriever, query, f, topK) == NoContext + FilterDescription(f) + "."
  {
    var docs := RetrieveByBoard(retriever, query, f, topK);
    if docs == [] {
      NoContextPrefix(FilterDescription(f) + ".");
      assert NoContext + FilterDescription(f) + "." == NoContext + (FilterDescription(f) + ".");
    } else {
      FormatContextShape(docs);
    }
  }

  /**
   * The advanced context string lists the filters as "key: value" when
   * nothing is found, and otherwise is the retrieved documents' blocks,
   * numbered from 1 and joined by newlines.
   */
  lemma ContextStringAdvancedSpec(retriever: Retriever, query: Value, filters: seq<(string, string)>, topK: nat)
    ensures var docs := RetrieveAdvanced(retriever, query, filters, topK);
      var r := ContextStringAdvanced(retriever, query, filters, topK);
      && (docs == [] ==> r == NoContext + " for filters: " + Join(", ", AdvancedDescription(filters)) + ".")
      && (docs != [] ==> r == Join("\n", Blocks(docs, 1)) && StartsWith(r, Block(1, docs[0])))
    ensures StartsWith(ContextStringAdvanced(retriever, query, filters, topK), NoContext) <==>
      RetrieveAdvanced(retriever, query, filters, topK) == []
  {
    var docs := RetrieveAdvanced(retriever, query, filters, topK);
    if docs == [] {
      var tail := " for filters: " + Join(", ", AdvancedDescription(filters)) + ".";
      NoContextPrefix(tail);
      assert NoContext + " for filters: " + Join(", ", AdvancedDescription(filters)) + "." == NoContext + tail;
    } else {
      FormatContextShape(docs);
    }
  }

  /**
   * With all three filters active and nothing retrieved, the message names the
   * board, then the class, then the subject.
   */
  lemma NoContextMessage(query: Value, f: Filters, topK: nat)
    requires Active(f.board) && Active(f.grade) && Active(f.subject)
    ensures ContextStringWithBoard(NoRetriever, query, f, topK)
         == NoContext + " for " + f.board.value + " board, " + f.grade.value + ", " + f.subject.value + "."
  {
    var parts := [f.board.value + " board"] + [f.grade.value] + [f.subject.value];
    assert parts[1..][1..] == [f.subject.value];
    var tail := f.grade.value + ", " + f.subject.value;
    assert Join(", ", parts[1..]) == tail;
    var joined := f.board.value + " board" + ", " + tail;
    assert Join(", ", parts) == joined;
    assert joined == f.board.value + " board, " + f.grade.value + ", " + f.subject.value;
    assert FilterDescription(f) == " for " + joined;
    assert RetrieveByBoard(NoRetriever, query, f, topK) == [];
    assert NoContext + (" for " + joined) + "."
        == NoContext + " for " + f.board.value + " board, " + f.grade.value + ", " + f.subject.value + ".";
  }

}
