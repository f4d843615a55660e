/**
 * Intent analysis (`intent_utils.py`): normalising the model's one-word
 * answer and splitting extracted text into problem and student work. Each
 * model call is a `Reply`; a missing API key raises inside the call's `try`,
 * so it is a `Raised` reply.
 */
module Intent {
  import opened Text
  import opened Values

  /** `detect_intent`: the model's answer stripped and lowercased, when it is a known intent. */
  function DetectIntent(reply: Reply): (r: string)
    ensures r == "evaluation" || r == "solve"
    ensures r == "evaluation" <==> reply.Done? && Lower(Strip(reply.value)) == "evaluation"
  {
    match reply
    case Raised => "solve"
    case Done(text) =>
      if text == "" then "solve"
      else
        var intent := Lower(Strip(text));
        if intent == "evaluation" || intent == "solve" then intent else "solve"
  }

  /**
   * Case and surrounding whitespace do not matter: any capitalisation of
   * "evaluation", padded with any whitespace on either side, is read as it.
   */
  lemma DetectIntentNormalises(before: string, word: string, after: string)
    requires Blank(before) && Blank(after) && Lower(word) == "evaluation"
    ensures DetectIntent(Done(before + word + after)) == "evaluation"
  {
    var text := before + word + after;
    assert LowerChar(word[0]) == 'e' && LowerChar(word[|word| - 1]) == 'n';
    assert text == before + (word + after);
    LStripBlankPrefix(before, word + after);
    LStripOfNonBlankStart(word + after);
    RStripBlankSuffix(word, after);
    StripOfTrimmed(word);
    LStripOfNonBlankStart(word);
    assert Strip(text) == word;
  }

  /**
   * `extract_problem_and_solution`: from a parsed JSON object, its
   * "problem_statement" (default: the extracted text) and "student_solution"
   * (default: null). Anything else, including a non-object whose `.get`
   * raises, gives the extracted text and no solution.
   */
  function ExtractProblemAndSolution(extracted: string, reply: Reply, parse: Parser): (r: (Value, Value))
    ensures var parsed := if reply.Done? && reply.value != "" then parse(Strip(reply.value)) else None;
      && (parsed.Some? && parsed.value.Dict? ==>
            && r.0 == GetOr(parsed.value.entries, "problem_statement", Str(extracted))
            && r.1 == GetOr(parsed.value.entries, "student_solution", Null))
      && (!(parsed.Some? && parsed.value.Dict?) ==> r == (Str(extracted), Null))
  {
    match reply
    case Raised => (Str(extracted), Null)
    case Done(text) =>
      if text == "" then (Str(extracted), Null)
      else
        match parse(Strip(text))
        case None => (Str(extracted), Null)
        case Some(v) =>
          if v.Dict? then
            (GetOr(v.entries, "problem_statement", Str(extracted)), GetOr(v.entries, "student_solution", Null))
          else (Str(extracted), Null)
  }

  datatype IntentAnalysis = IntentAnalysis(
    intent: string,
    problemStatement: Value,
    studentSolution: Value,
    hasStudentWork: bool)

  /** `analyze_intent_with_context`. */
  function AnalyzeIntent(extracted: string, intentReply: Reply, extractReply: Reply, parse: Parser): (r: IntentAnalysis)
    ensures r.intent == "evaluation" || r.intent == "solve"
    ensures r.hasStudentWork <==> r.studentSolution != Null
  {
    var (problem, solution) := ExtractProblemAndSolution(extracted, extractReply, parse);
    IntentAnalysis(DetectIntent(intentReply), problem, solution, solution != Null)
  }

  /** With both calls failing, the analysis falls back to "solve" on the raw text without work. */
  lemma AnalyzeIntentFallback(extracted: string, parse: Parser)
    ensures AnalyzeIntent(extracted, Raised, Raised, parse)
      == IntentAnalysis("solve", Str(extracted), Null, false)
  {
  }
}
