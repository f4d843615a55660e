/**
 * Similar-question generation (`similar_question_utils.py`): cleaning a
 * fenced JSON reply, normalising the parsed questions, the fixed fallback
 * questions, the conversion to question records and the comprehensive
 * question set.
 */
module SimilarQuestions {
  import opened Text
  import opened Values

  const JsonFence: string := "```json"
  const Fence: string := "```"

  /**
   * The text between an opening fence ending at `start` and the next "```",
   * stripped; the whole text stripped when no closing fence follows.
   */
  function BetweenFences(text: string, start: nat): (r: string)
    requires start <= |text|
    ensures Strip(r) == r
    ensures var end := IndexOf(text, Fence, start); end != -1 ==> r == Strip(text[start..end])
  {
    var end := IndexOf(text, Fence, start);
    if end != -1 then
      StripIdempotent(text[start..end]);
      Strip(text[start..end])
    else
      StripIdempotent(text);
      Strip(text)
  }

  /**
   * `clean_json_response`: the body of the first "```json" block, or else of
   * the first "```" block, stripped; an unclosed fence or no fence at all
   * leaves the text stripped.
   */
  function CleanJsonResponse(text: string): (r: string)
    ensures Strip(r) == r
    ensures !Contains(text, Fence) ==> r == Strip(text)
  {
    JsonFenceHasFence(text);
    StripIdempotent(text);
    if Contains(text, JsonFence) then BetweenFences(text, IndexOf(text, JsonFence, 0) + |JsonFence|)
    else if Contains(text, Fence) then BetweenFences(text, IndexOf(text, Fence, 0) + |Fence|)
    else Strip(text)
  }

  /** A "```json" fence is in particular a "```" fence. */
  lemma JsonFenceHasFence(text: string)
    ensures Contains(text, JsonFence) ==> Contains(text, Fence)
  {
    if Contains(text, JsonFence) {
      var i := IndexOf(text, JsonFence, 0);
      assert text[i..i + 3] == text[i..i + 7][..3];
      assert OccursAt(text, Fence, i);
      ContainsIff(text, Fence);
    }
  }

  /** No fence, plain or "```json", starts inside a stretch of text free of backticks. */
  lemma NoFenceIn(text: string, seg: string, offset: nat, needle: string)
    requires offset + |seg| <= |text| && text[offset..offset + |seg|] == seg && '`' !in seg
    requires |needle| > 0 && needle[0] == '`'
    ensures forall i :: offset <= i < offset + |seg| ==> !OccursAt(text, needle, i)
  {
    forall i | offset <= i < offset + |seg|
      ensures !OccursAt(text, needle, i)
    {
      assert text[i] == seg[i - offset];
    }
  }

  /** A backtick-free body that runs from `start` up to a fence is what lies between the fences. */
  lemma ClosedBody(text: string, start: nat, body: string)
    requires start + |body| <= |text| && text[start..start + |body|] == body && '`' !in body
    requires OccursAt(text, Fence, start + |body|)
    ensures BetweenFences(text, start) == Strip(body)
  {
    NoFenceIn(text, body, start, Fence);
    IndexOfFirst(text, Fence, start, start + |body|);
  }

  /**
   * A "```json" block around a body without backticks yields the body,
   * stripped, whatever backtick-free prose comes before the fence.
   */
  lemma CleanJsonFenced(prefix: string, body: string, rest: string)
    requires '`' !in prefix && '`' !in body
    ensures CleanJsonResponse(prefix + JsonFence + body + Fence + rest) == Strip(body)
  {
    var text := prefix + JsonFence + body + Fence + rest;
    var p := |prefix|;
    assert text[0..p] == prefix;
    NoFenceIn(text, prefix, 0, JsonFence);
    assert text[p..p + 7] == JsonFence;
    assert text[p + 7..p + 7 + |body|] == body;
    assert text[p + 7 + |body|..p + 10 + |body|] == Fence;
    IndexOfFirst(text, JsonFence, 0, p);
    ClosedBody(text, p + 7, body);
    assert Contains(text, JsonFence);
    assert CleanJsonResponse(text) == BetweenFences(text, p + 7);
  }

  /**
   * Without a "```json", a plain "```" block around a body without backticks
   * yields the body, stripped, whatever backtick-free prose comes before it.
   */
  lemma CleanPlainFenced(prefix: string, body: string, rest: string)
    requires '`' !in prefix && '`' !in body && !Contains(prefix + Fence + body + Fence + rest, JsonFence)
    ensures CleanJsonResponse(prefix + Fence + body + Fence + rest) == Strip(body)
  {
    var text := prefix + Fence + body + Fence + rest;
    var p := |prefix|;
    assert text[0..p] == prefix;
    NoFenceIn(text, prefix, 0, Fence);
    assert text[p..p + 3] == Fence;
    assert text[p + 3..p + 3 + |body|] == body;
    assert text[p + 3 + |body|..p + 6 + |body|] == Fence;
    IndexOfFirst(text, Fence, 0, p);
    ClosedBody(text, p + 3, body);
    assert !Contains(text, JsonFence) && Contains(text, Fence);
    assert CleanJsonResponse(text) == BetweenFences(text, p + 3);
  }

  /** An opening "```json" with no closing fence leaves the whole text, stripped. */
  lemma CleanUnclosed(prefix: string, body: string)
    requires '`' !in prefix && '`' !in body
    ensures CleanJsonResponse(prefix + JsonFence + body) == Strip(prefix + JsonFence + body)
  {
    var text := prefix + JsonFence + body;
    var p := |prefix|;
    assert text[0..p] == prefix;
    NoFenceIn(text, prefix, 0, JsonFence);
    assert text[p..p + 7] == JsonFence;
    IndexOfFirst(text, JsonFence, 0, p);
    assert text[p + 7..] == body;
    NoFenceIn(text, body, p + 7, Fence);
    assert IndexOf(text, Fence, p + 7) == -1;
  }

  /** After a lone "```" that no backtick follows, no fence starts. */
  lemma NoFenceAfter(prefix: string, body: string)
    requires '`' !in body
    ensures forall i :: |prefix| < i ==> !OccursAt(prefix + Fence + body, Fence, i)
  {
    var text := prefix + Fence + body;
    var p := |prefix|;
    assert text[p + 3..] == body;
    NoFenceIn(text, body, p + 3, Fence);
    forall i | p < i < p + 3
      ensures !OccursAt(text, Fence, i)
    {
      if i + 3 <= |text| {
        assert text[p + 3] == body[0];
        assert text[i..i + 3][p + 3 - i] == text[p + 3];
      }
    }
  }

  /** An opening plain "```" with no closing fence also leaves the whole text, stripped. */
  lemma CleanUnclosedFence(prefix: string, body: string)
    requires '`' !in prefix && '`' !in body
    ensures CleanJsonResponse(prefix + Fence + body) == Strip(prefix + Fence + body)
  {
    var text := prefix + Fence + body;
    var p := |prefix|;
    assert text[0..p] == prefix;
    NoFenceIn(text, prefix, 0, Fence);
    NoFenceIn(text, prefix, 0, JsonFence);
    NoFenceAfter(prefix, body);
    if Contains(text, JsonFence) {
      var at := IndexOf(text, JsonFence, 0);
      assert p <= at;
      assert IndexOf(text, Fence, at + 7) == -1;
    } else {
      assert text[p..p + 3] == Fence;
      IndexOfFirst(text, Fence, 0, p);
      assert IndexOf(text, Fence, p + 3) == -1;
    }
  }

  // ---------------------------------------------------------------- questions

  const FallbackList: seq<Value> := [
    Str("Solve: 25 + 17 = ?"),
    Str("What is 8 \U{00C3}\U{2014} 6?"),
    Str("If you have 50 stickers and give away 23, how many do you have left?"),
    Str("A box has 4 rows of 7 chocolates. How many chocolates in total?"),
    Str("Find the missing number: 15 + ___ = 28")]

  /** `generate_fallback_questions`: the first `n` of five fixed questions, whatever the problem. */
  function FallbackQuestions(n: nat): (r: seq<Value>)
    ensures |r| == if n < 5 then n else 5
    ensures forall i :: 0 <= i < |r| ==> r[i] == FallbackList[i]
  {
    Take(FallbackList, n)
  }

  /** The questions a parsed reply carries: an object's values in order, or a list as it is. */
  function ParsedQuestions(v: Value): Option<seq<Value>> {
    match v
    case Dict(entries) => Some(ValuesOf(entries))
    case List(items) => Some(items)
    case _ => None
  }

  /**
   * `generate_similar_questions`. `keyAvailable` says whether an API key was
   * given or found in the environment; without one the function raises
   * inside its `try` and falls back. A non-empty parsed list is cut to `n`;
   * everything else falls back.
   */
  function GenerateSimilarQuestions(n: nat, keyAvailable: bool, reply: Reply, parse: Parser): (r: seq<Value>)
    ensures |r| <= n
  {
    if !keyAvailable || reply.Raised? || reply.value == "" then FallbackQuestions(n)
    else
      match parse(CleanJsonResponse(reply.value))
      case None => FallbackQuestions(n)
      case Some(v) =>
        match ParsedQuestions(v)
        case None => FallbackQuestions(n)
        case Some(questions) =>
          if |questions| == n then questions
          else if |questions| > 0 then Take(questions, n)
          else FallbackQuestions(n)
  }

  /**
   * The questions returned: the parsed ones, in order and cut to `n`, when the
   * cleaned reply parses to a non-empty object or list; otherwise the fallback.
   */
  lemma GenerateSimilarQuestionsSpec(n: nat, keyAvailable: bool, reply: Reply, parse: Parser)
    ensures var parsed :=
        if keyAvailable && reply.Done? && reply.value != "" then parse(CleanJsonResponse(reply.value)) else None;
      var qs := if parsed.Some? then ParsedQuestions(parsed.value) else None;
      var r := GenerateSimilarQuestions(n, keyAvailable, reply, parse);
      && (qs.Some? && qs.value != [] ==> r == Take(qs.value, n))
      && (!(qs.Some? && qs.value != []) ==> r == FallbackQuestions(n))
  {
  }

  /** A question record of `convert_to_question_dict`. */
  function QuestionRecord(q: Value): (r: Value)
    ensures HasEntry(r, "question", q)
    ensures HasEntry(r, "difficulty", Str("medium"))
    ensures HasEntry(r, "concept", Str("arithmetic"))
    ensures HasEntry(r, "context_reference", Str("similar to original problem"))
  {
    var last := [("context_reference", Str("similar to original problem"))];
    var tail := [("concept", Str("arithmetic"))] + last;
    var rest := [("difficulty", Str("medium"))] + tail;
    LookupCons(("context_reference", Str("similar to original problem")), [], "context_reference");
    LookupCons(("concept", Str("arithmetic")), last, "context_reference");
    LookupCons(("concept", Str("arithmetic")), last, "concept");
    LookupCons(("difficulty", Str("medium")), tail, "context_reference");
    LookupCons(("difficulty", Str("medium")), tail, "concept");
    LookupCons(("question", q), rest, "context_reference");
    LookupCons(("question", q), rest, "concept");
    LookupCons(("difficulty", Str("medium")), tail, "difficulty");
    LookupCons(("question", q), rest, "difficulty");
    LookupCons(("question", q), rest, "question");
    Dict([("question", q)] + rest)
  }

  /** `convert_to_question_dict`. */
  function ConvertToQuestionDict(questions: seq<Value>): (r: seq<Value>)
    ensures |r| == |questions|
    ensures forall i :: 0 <= i < |r| ==>
      && HasEntry(r[i], "question", questions[i])
      && HasEntry(r[i], "difficulty", Str("medium"))
      && HasEntry(r[i], "concept", Str("arithmetic"))
      && HasEntry(r[i], "context_reference", Str("similar to original problem"))
  {
    seq(|questions|, i requires 0 <= i < |questions| => QuestionRecord(questions[i]))
  }

  /** The question text stored in a record; `Null` when there is none. */
  function QuestionOf(v: Value): Value {
    if v.Dict? && Lookup(v.entries, "question").Some? then Lookup(v.entries, "question").value else Null
  }

  /** Reading the question back from each converted record gives the original list. */
  lemma ConvertRoundTrip(questions: seq<Value>)
    ensures var r := ConvertToQuestionDict(questions);
      seq(|r|, i requires 0 <= i < |r| => QuestionOf(r[i])) == questions
  {
  }

  // ---------------------------------------------------------------- comprehensive set

  datatype QuestionSet = QuestionSet(
    similar: seq<Value>,
    progressive: seq<Value>,
    themed: seq<Value>,
    total: int,
    forPractice: seq<Value>,
    forSkillBuilding: seq<Value>,
    forFun: seq<Value>)

  /** The set built around the similar questions; the progressive and themed generators are disabled. */
  function QuestionSetFrom(similar: seq<Value>): (r: QuestionSet)
    ensures r.total == |r.similar| + |r.progressive| + |r.themed|
  {
    QuestionSet(similar, [], [], |similar|, similar, [], [])
  }

  /** A progressive-question record of the exception path. */
  function LevelRecord(q: Value): Value {
    Dict([("question", q), ("difficulty_level", Str("medium"))])
  }

  /**
   * The exception path: the three fallback questions everywhere, with a
   * total of 3 although the three lists hold nine entries.
   */
  function FallbackQuestionSet(): (r: QuestionSet)
    ensures r.total == 3 && |r.similar| == 3 && |r.progressive| == 3 && |r.themed| == 3
  {
    var fallback := FallbackQuestions(3);
    QuestionSet(fallback, seq(3, i requires 0 <= i < 3 => LevelRecord(fallback[i])), fallback, |fallback|,
                fallback, fallback, fallback)
  }

  /**
   * `generate_comprehensive_question_set`. `generate_similar_questions`
   * catches every exception, so the `except` branch is never taken.
   */
  function ComprehensiveQuestionSet(keyAvailable: bool, reply: Reply, parse: Parser): (r: QuestionSet)
    ensures r.total <= 3
  {
    QuestionSetFrom(GenerateSimilarQuestions(3, keyAvailable, reply, parse))
  }

  /** The set's practice questions are its similar questions, which are all it counts. */
  lemma ComprehensiveSpec(keyAvailable: bool, reply: Reply, parse: Parser)
    ensures var r := ComprehensiveQuestionSet(keyAvailable, reply, parse);
      && r.similar == GenerateSimilarQuestions(3, keyAvailable, reply, parse)
      && r.forPractice == r.similar
      && r.total == |r.similar|
      && r.progressive == [] && r.themed == []
  {
  }

  /** Every list of the fallback set holds the first three fallback questions. */
  lemma FallbackQuestionSetSpec()
    ensures var r := FallbackQuestionSet();
      && r.similar == r.themed == r.forPractice == r.forSkillBuilding == r.forFun == FallbackList[..3]
      && forall i :: 0 <= i < 3 ==> HasEntry(r.progressive[i], "question", FallbackList[i])
  {
    var fallback := FallbackQuestions(3);
    assert fallback == FallbackList[..3];
    forall i | 0 <= i < 3
      ensures HasEntry(FallbackQuestionSet().progressive[i], "question", FallbackList[i])
    {
      LookupCons(("question", fallback[i]), [("difficulty_level", Str("medium"))], "question");
    }
  }
}
