/**
 * Page-metadata shaping of `app/study_agent/pdf_reader_utils.py`: the
 * metadata of one rendered page, the analysis stored with a page's
 * extracted text, and the objects prepared for the vector store. Rendering
 * and the vision-model call are outside the model: the model's response
 * text is a parameter.
 */
module PdfReader {
  import opened Text
  import opened Values

  /** A processed page: its number, its extracted text and its metadata. */
  datatype PageContent = PageContent(pageNumber: int, content: string, metadata: Record)

  // ---------------------------------------------------------------- page metadata

  /** The fields `create_page_metadata` writes over the base metadata. */
  function PageFields(filename: Value, pageNum: int, width: int, height: int, contentLength: int): Record {
    map[
      "page_number" := Int(pageNum),
      "page_id" := Str(PageId(filename, pageNum)),
      "image_width" := Int(width),
      "image_height" := Int(height),
      "content_length" := Int(contentLength),
      "extraction_method" := Str("gemini_vision"),
      "chunk_type" := Str("page"),
      "weaviate_class" := Str("EducationalDocument"),
      "searchable_content" := Bool(true)]
  }

  /** `f"{filename}_page_{page_num}"`. */
  function PageId(filename: Value, pageNum: int): string {
    Render(filename) + "_page_" + IntToString(pageNum)
  }

  /**
   * `create_page_metadata`: a copy of the base updated with the page fields,
   * then with the additional metadata when it is a non-empty dict. A base
   * without `filename` raises `KeyError`.
   */
  function CreatePageMetadata(base: Record, pageNum: int, imageSize: (int, int), contentLength: int,
                              additional: Option<Record>): (r: Attempt<Record>)
    ensures r.Raised? <==> "filename" !in base
  {
    if "filename" !in base then Raised
    else
      var page := base + PageFields(base["filename"], pageNum, imageSize.0, imageSize.1, contentLength);
      match additional
      case Some(extra) => if |extra| > 0 then Done(page + extra) else Done(page)
      case None => Done(page)
  }

  /**
   * Key by key: an additional entry wins, then a page field, then the base
   * entry; no other key appears. So `page_id`, `chunk_type` and
   * `extraction_method` hold their page values unless the additional
   * metadata overrides them.
   */
  lemma CreatePageMetadataSpec(base: Record, pageNum: int, imageSize: (int, int), contentLength: int,
                               additional: Option<Record>, k: string)
    requires "filename" in base
    ensures var r := CreatePageMetadata(base, pageNum, imageSize, contentLength, additional).value;
      var fields := PageFields(base["filename"], pageNum, imageSize.0, imageSize.1, contentLength);
      var extra := if additional.Some? then additional.value else map[];
      && (k in r <==> k in base || k in fields || k in extra)
      && (k in extra ==> r[k] == extra[k])
      && (k !in extra && k in fields ==> r[k] == fields[k])
      && (k !in extra && k !in fields && k in base ==> r[k] == base[k])
      && ("page_id" !in extra ==> r["page_id"] == Str(Render(base["filename"]) + "_page_" + IntToString(pageNum)))
      && ("chunk_type" !in extra ==> r["chunk_type"] == Str("page"))
      && ("extraction_method" !in extra ==> r["extraction_method"] == Str("gemini_vision"))
  {
  }

  // ---------------------------------------------------------------- content analysis

  /** The characters that mark a page as holding formulas. */
  const FormulaChars: seq<char> := ['=', '+', '-', '\U{00D7}', '\U{00F7}', '\U{2211}', '\U{222B}']
  const ExerciseWords: seq<string> := ["exercise", "question", "problem", "solve"]
  const DiagramWords: seq<string> := ["figure", "diagram", "image", "chart", "graph"]
  const WordsPerMinute: nat := 200

  /** The content stored for a page whose response text is empty. */
  function Placeholder(pageNum: int): string {
    "# Page " + IntToString(pageNum) + "\n\n*No content extracted*"
  }

  /** The page's content: the response text, or the placeholder when it is empty. */
  function PageText(pageNum: int, text: string): (r: string)
    ensures r != ""
    ensures text != "" ==> r == text
  {
    if text != "" then text else Placeholder(pageNum)
  }

  /**
   * The analysis entries of `process_image_with_gemini`: the content's
   * length and extraction status, then the formula, exercise and diagram
   * flags, the reading time and the word count.
   */
  function Analysis(content: string, text: string): Record {
    var words := |Words(content)|;
    var lower := Lower(content);
    map[
      "content_length" := Int(|content|),
      "extraction_status" := Str(if text != "" then "success" else "empty_response"),
      "has_formulas" := Bool(HasAnyChar(content, FormulaChars)),
      "has_exercises" := Bool(ContainsAny(lower, ExerciseWords)),
      "has_diagrams" := Bool(ContainsAny(lower, DiagramWords)),
      "estimated_reading_time" := Int(words / WordsPerMinute),
      "word_count" := Int(words)]
  }

  /**
   * Lines 239-258 of `process_image_with_gemini`: the page built from the
   * model's response text `text`. The caller passes as `pageNum` the page
   * number the source reads from `metadata["page_number"]`; the model does
   * not check that the two agree.
   */
  function AnalysePage(metadata: Record, pageNum: int, text: string): (r: PageContent)
    ensures r.content == PageText(pageNum, text)
    ensures r.pageNumber == pageNum
  {
    var content := PageText(pageNum, text);
    PageContent(pageNum, content, metadata + Analysis(content, text))
  }

  /**
   * The counts of a page's analysis: its length, "success" exactly for a
   * non-empty response, and a reading time that is the word count in whole
   * units of 200.
   */
  lemma AnalysisCounts(content: string, text: string)
    ensures var m := Analysis(content, text);
      var words := |Words(content)|;
      && m["content_length"] == Int(|content|)
      && (m["extraction_status"] == Str("success") <==> text != "")
      && (text == "" ==> m["extraction_status"] == Str("empty_response"))
      && m["word_count"] == Int(words)
      && m["estimated_reading_time"].Int?
      && WordsPerMinute * m["estimated_reading_time"].i <= words < WordsPerMinute * (m["estimated_reading_time"].i + 1)
  {
    var m := Analysis(content, text);
    var words := |Words(content)|;
    assert m["estimated_reading_time"] == Int(words / WordsPerMinute);
  }

  /**
   * The flags of a page's analysis: whether a listed character occurs, and
   * whether a listed keyword occurs case-insensitively.
   */
  lemma AnalysisFlags(content: string, text: string)
    ensures var m := Analysis(content, text);
      && (m["has_formulas"] == Bool(true) <==> exists i :: 0 <= i < |content| && content[i] in FormulaChars)
      && (m["has_exercises"] == Bool(true) <==> exists w :: w in ExerciseWords && Contains(Lower(content), w))
      && (m["has_diagrams"] == Bool(true) <==> exists w :: w in DiagramWords && Contains(Lower(content), w))
  {
    var m := Analysis(content, text);
    assert m["has_formulas"] == Bool(HasAnyChar(content, FormulaChars));
    assert m["has_exercises"] == Bool(ContainsAny(Lower(content), ExerciseWords));
    assert m["has_diagrams"] == Bool(ContainsAny(Lower(content), DiagramWords));
    assert HasAnyChar(content, FormulaChars) <==> exists i :: 0 <= i < |content| && content[i] in FormulaChars by {
      if exists i :: 0 <= i < |content| && content[i] in FormulaChars {
        var i :| 0 <= i < |content| && content[i] in FormulaChars;
        var j :| 0 <= j < |FormulaChars| && FormulaChars[j] == content[i];
      }
    }
  }

  /**
   * The analysed page keeps every metadata key outside the analysis, adds
   * the analysis entries, and stores the analysis of its own content.
   */
  lemma AnalysePageSpec(metadata: Record, pageNum: int, text: string, k: string)
    ensures var r := AnalysePage(metadata, pageNum, text);
      var analysis := Analysis(r.content, text);
      && (k in r.metadata <==> k in metadata || k in analysis)
      && (k in metadata && k !in analysis ==> r.metadata[k] == metadata[k])
      && (k in analysis ==> r.metadata[k] == analysis[k])
      && (text == "" ==> r.content == Placeholder(pageNum))
  {
  }

  /** An empty response is recorded as such, with the placeholder's length. */
  lemma EmptyResponse(metadata: Record, pageNum: int)
    ensures var r := AnalysePage(metadata, pageNum, "");
      && r.content == Placeholder(pageNum)
      && r.metadata["extraction_status"] == Str("empty_response")
      && r.metadata["content_length"] == Int(|Placeholder(pageNum)|)
      && StartsWith(r.content, "# Page ")
  {
    var r := AnalysePage(metadata, pageNum, "");
    var analysis := Analysis(r.content, "");
    assert r.metadata == metadata + analysis;
    assert r.metadata["extraction_status"] == analysis["extraction_status"];
    assert r.content[..7] == "# Page ";
  }

  // ---------------------------------------------------------------- vector-store objects

  /** The metadata values the vector store takes as they are: `str`, `int`, `float`, `bool`. */
  predicate Scalar(v: Value) {
    v.Str? || v.Int? || v.Float? || v.Bool?
  }

  /** The strings of a list whose items are all strings. */
  function Strings(items: seq<Value>): (r: Option<seq<string>>)
    ensures r.Some? <==> forall i :: 0 <= i < |items| ==> items[i].Str?
    ensures r.Some? ==> |r.value| == |items| && forall i :: 0 <= i < |items| ==> items[i] == Str(r.value[i])
  {
    if forall i :: 0 <= i < |items| ==> items[i].Str? then
      Some(seq(|items|, i requires 0 <= i < |items| && items[i].Str? => items[i].s))
    else None
  }

  /**
   * The `topics` property: a list joined by ", ", where a non-string item
   * makes `join` raise `TypeError`; any other value as `str` renders it;
   * no `topics` key gives "".
   */
  function TopicsText(metadata: Record): (r: Attempt<string>)
    ensures "topics" !in metadata ==> r == Done("")
    ensures "topics" in metadata && metadata["topics"].Str? ==> r == Done(metadata["topics"].s)
  {
    if "topics" !in metadata then Done("")
    else
      var t := metadata["topics"];
      if t.List? then
        match Strings(t.items)
        case Some(names) => Done(Join(", ", names))
        case None => Raised
      else Done(Render(t))
  }

  /** A Weaviate import object. */
  datatype WeaviateObject = WeaviateObject(content: string, properties: Record)

  /** The properties of one page: its scalar metadata, with `topics` flattened to text. */
  function Properties(metadata: Record, topics: string): (r: Record)
    ensures forall k :: k in r ==> Scalar(r[k])
    ensures "topics" in r && r["topics"] == Str(topics)
    ensures forall k :: k != "topics" ==>
      (k in r <==> k in metadata && Scalar(metadata[k])) && (k in r ==> r[k] == metadata[k])
  {
    (map k | k in metadata && Scalar(metadata[k]) :: metadata[k])["topics" := Str(topics)]
  }

  /** `prepare_for_weaviate`: one object per page, in order; a page whose topics cannot be joined raises. */
  function PrepareForWeaviate(pages: seq<PageContent>): (r: Attempt<seq<WeaviateObject>>)
    decreases |pages|
  {
    if pages == [] then Done([])
    else
      match TopicsText(pages[0].metadata)
      case Raised => Raised
      case Done(topics) =>
        match PrepareForWeaviate(pages[1..])
        case Raised => Raised
        case Done(rest) => Done([WeaviateObject(pages[0].content, Properties(pages[0].metadata, topics))] + rest)
  }

  /**
   * The preparation succeeds exactly when every page's topics can be
   * rendered; then object `i` carries page `i`'s content verbatim and
   * properties built from its metadata and topics text.
   */
  lemma {:induction false} PrepareForWeaviateSpec(pages: seq<PageContent>)
    ensures var r := PrepareForWeaviate(pages);
      && (r.Done? <==> forall i :: 0 <= i < |pages| ==> TopicsText(pages[i].metadata).Done?)
      && (r.Done? ==> |r.value| == |pages| && forall i :: 0 <= i < |pages| ==>
            && r.value[i].content == pages[i].content
            && r.value[i].properties == Properties(pages[i].metadata, TopicsText(pages[i].metadata).value))
    decreases |pages|
  {
    if pages != [] {
      PrepareForWeaviateSpec(pages[1..]);
      var r := PrepareForWeaviate(pages);
      if r.Done? {
        var rest := PrepareForWeaviate(pages[1..]).value;
        forall i | 0 <= i < |pages|
          ensures r.value[i].content == pages[i].content
          ensures r.value[i].properties == Properties(pages[i].metadata, TopicsText(pages[i].metadata).value)
        {
          if i > 0 {
            assert r.value[i] == rest[i - 1];
            assert pages[i] == pages[1..][i - 1];
          }
        }
      }
      if forall i :: 0 <= i < |pages| ==> TopicsText(pages[i].metadata).Done? {
        assert forall i :: 0 <= i < |pages| - 1 ==> pages[1..][i] == pages[i + 1];
      }
      if !(forall i :: 0 <= i < |pages| ==> TopicsText(pages[i].metadata).Done?) {
        var i :| 0 <= i < |pages| && TopicsText(pages[i].metadata).Raised?;
        if i > 0 {
          assert pages[1..][i - 1] == pages[i];
        }
      }
    }
  }

  /** Metadata that is already flat, with string topics, passes into the properties unchanged. */
  lemma FlatMetadataKept(metadata: Record)
    requires forall k :: k in metadata ==> Scalar(metadata[k])
    requires "topics" in metadata && metadata["topics"].Str?
    ensures Properties(metadata, TopicsText(metadata).value) == metadata
  {
  }

  /** A list of topic names is joined with ", ". */
  lemma TopicsJoined(metadata: Record, names: seq<string>)
    requires "topics" in metadata
    requires metadata["topics"] == List(seq(|names|, i requires 0 <= i < |names| => Str(names[i])))
    ensures TopicsText(metadata) == Done(Join(", ", names))
  {
    var items := metadata["topics"].items;
    assert forall i :: 0 <= i < |items| ==> items[i] == Str(names[i]);
    var strings := Strings(items).value;
    assert forall i :: 0 <= i < |names| ==> strings[i] == names[i];
    assert strings == names;
  }
}
