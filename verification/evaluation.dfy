/**
 * Solution evaluation (`evaluation_utils.py`): turning the model's JSON
 * verdict into a complete evaluation, the fallback evaluation, the format
 * analysis of the student's work and the score adjustment built on it.
 */
module Evaluation {
  import opened Text
  import opened Values

  type Entries = seq<(string, Value)>

  /** `get_default_value`. */
  function DefaultValue(field: string): (r: Value)
    ensures field != "is_correct" && field != "score" && field != "correct_answer" && field != "explanation"
            && field != "student_strengths" && field != "areas_for_improvement" && field != "method_used"
            ==> r == Str("Unknown")
    ensures field == "score" ==> r == Int(5)
    ensures field == "is_correct" ==> r == Bool(false)
  {
    if field == "is_correct" then Bool(false)
    else if field == "score" then Int(5)
    else if field == "correct_answer" then Str("Unable to determine")
    else if field == "explanation" then Str("Unable to provide detailed evaluation due to technical issues.")
    else if field == "student_strengths" then List([Str("Attempted the problem")])
    else if field == "areas_for_improvement" then List([Str("Review the solution steps")])
    else if field == "method_used" then Str("Unknown method")
    else Str("Unknown")
  }

  /** Python `s[:200]`. */
  function Prefix200(s: string): (r: string)
    ensures |r| <= 200 && StartsWith(s, r)
    ensures |s| <= 200 ==> r == s
  {
    if |s| <= 200 then s else s[..200]
  }

  const IssueNote: string := "I encountered an issue while evaluating your solution. Here's what I could determine: "

  /** The fallback evaluation's fixed fields, around the given explanation. */
  function FallbackWith(explanation: string): (r: Entries)
    ensures Lookup(r, "is_correct") == Some(Bool(false))
    ensures Lookup(r, "score") == Some(Int(5))
    ensures Lookup(r, "correct_answer") == Some(Str("Unable to determine automatically"))
    ensures Lookup(r, "explanation") == Some(Str(explanation))
    ensures Complete(r)
  {
    var tail := [("student_strengths", List([Str("Attempted to solve the problem")])),
                 ("areas_for_improvement", List([Str("Please review the solution method")])),
                 ("method_used", Str("Unable to determine"))];
    var r3 := [("explanation", Str(explanation))] + tail;
    var r2 := [("correct_answer", Str("Unable to determine automatically"))] + r3;
    var r1 := [("score", Int(5))] + r2;
    var r := [("is_correct", Bool(false))] + r1;
    LookupCons(("explanation", Str(explanation)), tail, "explanation");
    LookupCons(("correct_answer", Str("Unable to determine automatically")), r3, "explanation");
    LookupCons(("correct_answer", Str("Unable to determine automatically")), r3, "correct_answer");
    LookupCons(("score", Int(5)), r2, "explanation");
    LookupCons(("score", Int(5)), r2, "correct_answer");
    LookupCons(("score", Int(5)), r2, "score");
    LookupCons(("is_correct", Bool(false)), r1, "explanation");
    LookupCons(("is_correct", Bool(false)), r1, "correct_answer");
    LookupCons(("is_correct", Bool(false)), r1, "score");
    LookupCons(("is_correct", Bool(false)), r1, "is_correct");
    r
  }

  /** `create_fallback_evaluation`: the raw reply, cut to 200 characters, goes into the explanation. */
  function FallbackEvaluation(raw: string): (r: Entries)
    ensures Complete(r)
  {
    FallbackWith(if raw != "" then IssueNote + Prefix200(raw) + "..."
                 else "Unable to evaluate solution due to technical issues. Please try again.")
  }

  /**
   * The fallback evaluation marks the solution wrong with a middling score of
   * 5, and quotes the raw reply, cut to 200 characters, exactly when there is one.
   */
  lemma FallbackEvaluationSpec(raw: string)
    ensures var r := FallbackEvaluation(raw);
      && Lookup(r, "is_correct") == Some(Bool(false))
      && Lookup(r, "score") == Some(Int(5))
      && (raw != "" ==> Lookup(r, "explanation") == Some(Str(IssueNote + Prefix200(raw) + "...")))
      && (raw == "" ==>
            Lookup(r, "explanation") == Some(Str("Unable to evaluate solution due to technical issues. Please try again.")))
  {
  }

  const Required: seq<string> := ["is_correct", "score", "correct_answer", "explanation"]

  function Clamp(n: int): (r: int)
    ensures 0 <= r <= 10
    ensures 0 <= n <= 10 ==> r == n
    ensures n < 0 ==> r == 0
    ensures n > 10 ==> r == 10
  {
    if n < 0 then 0 else if n > 10 then 10 else n
  }

  /** An evaluation with every required field and an integer score from 0 to 10. */
  predicate Complete(r: Entries) {
    && Lookup(r, "is_correct").Some?
    && Lookup(r, "score").Some? && Lookup(r, "score").value.Int?
    && 0 <= Lookup(r, "score").value.i <= 10
    && Lookup(r, "correct_answer").Some?
    && Lookup(r, "explanation").Some?
  }

  /** After filling the defaults, every required field is present. */
  lemma FilledRequired(entries: Entries)
    ensures var f := FillDefaults(entries, Required, DefaultValue);
      && Lookup(f, "is_correct").Some? && Lookup(f, "score").Some?
      && Lookup(f, "correct_answer").Some? && Lookup(f, "explanation").Some?
  {
    FillDefaultsSpec(entries, Required, DefaultValue, "is_correct");
    FillDefaultsSpec(entries, Required, DefaultValue, "score");
    FillDefaultsSpec(entries, Required, DefaultValue, "correct_answer");
    FillDefaultsSpec(entries, Required, DefaultValue, "explanation");
  }

  /**
   * The parsed-object path: missing required fields defaulted, then the score
   * converted with `int` and clamped; a score `int` rejects raises and falls back.
   */
  function FromObject(entries: Entries): (r: Entries)
    ensures Complete(r)
  {
    var filled := FillDefaults(entries, Required, DefaultValue);
    FilledRequired(entries);
    match IntOf(Lookup(filled, "score").value)
    case Raised => FallbackEvaluation("")
    case Done(n) =>
      var s := Int(Clamp(n));
      PutKeepsOther(filled, "score", s, "is_correct");
      PutKeepsOther(filled, "score", s, "correct_answer");
      PutKeepsOther(filled, "score", s, "explanation");
      Put(filled, "score", s)
  }

  /**
   * `evaluate_solution`. A reply that parses to a JSON object keeps its keys,
   * gains defaults for the missing required ones and has its score clamped.
   * A parse error falls back with the raw reply; no reply, a non-object, an
   * unconvertible score or a raising call fall back without it.
   */
  function EvaluateSolution(reply: Reply, parse: Parser): (r: Entries)
    ensures Complete(r)
  {
    match reply
    case Raised => FallbackEvaluation("")
    case Done(text) =>
      if text == "" then FallbackEvaluation("")
      else
        match parse(Strip(text))
        case None => FallbackEvaluation(text)
        case Some(v) =>
          if !v.Dict? then FallbackEvaluation("")
          else FromObject(v.entries)
  }

  /**
   * What the object path keeps: every key of the reply other than "score"
   * with its value, the defaults of the missing required fields, and the
   * clamped score.
   */
  lemma FromObjectKeeps(entries: Entries, n: int)
    requires IntOf(GetOr(entries, "score", Int(5))) == Done(n)
    ensures var r := FromObject(entries);
      && Lookup(r, "score") == Some(Int(Clamp(n)))
      && (forall k :: Lookup(entries, k).Some? && k != "score" ==> Lookup(r, k) == Lookup(entries, k))
      && (forall k :: k in Required && Lookup(entries, k).None? && k != "score" ==>
            Lookup(r, k) == Some(DefaultValue(k)))
  {
    var filled := FillDefaults(entries, Required, DefaultValue);
    FillDefaultsSpec(entries, Required, DefaultValue, "score");
    LookupSpec(entries, "score");
    assert IntOf(Lookup(filled, "score").value) == Done(n);
    forall k | k != "score"
      ensures Lookup(FromObject(entries), k) == Lookup(filled, k)
    {
      PutKeepsOther(filled, "score", Int(Clamp(n)), k);
    }
    forall k | Lookup(entries, k).Some? || k in Required
      ensures Lookup(entries, k).Some? ==> Lookup(filled, k) == Lookup(entries, k)
      ensures Lookup(entries, k).None? && k in Required ==> Lookup(filled, k) == Some(DefaultValue(k))
    {
      FillDefaultsSpec(entries, Required, DefaultValue, k);
    }
  }

  /** A fractional score is truncated toward zero before clamping: 7.5 gives 7, -7.5 gives 0. */
  lemma FloatScoreTruncated(entries: Entries, f: real, text: string)
    requires Lookup(entries, "score") == Some(Float(f, text))
    ensures Lookup(FromObject(entries), "score") == Some(Int(Clamp(Truncate(f))))
  {
    FromObjectKeeps(entries, Truncate(f));
  }

  /** A reply that is a JSON object is evaluated on the object path. */
  lemma EvaluateSolutionObject(text: string, parse: Parser, entries: Entries)
    requires text != "" && parse(Strip(text)) == Some(Dict(entries))
    ensures EvaluateSolution(Done(text), parse) == FromObject(entries)
  {
  }

  /** A reply that is not JSON falls back and quotes the reply. */
  lemma EvaluateSolutionUnparsable(text: string, parse: Parser)
    requires text != "" && parse(Strip(text)).None?
    ensures EvaluateSolution(Done(text), parse) == FallbackEvaluation(text)
    ensures Lookup(EvaluateSolution(Done(text), parse), "is_correct") == Some(Bool(false))
  {
    FallbackEvaluationSpec(text);
  }

  // ---------------------------------------------------------------- format analysis

  datatype FormatAnalysis = FormatAnalysis(
    hasWorkShown: bool,
    hasNumbers: bool,
    hasOperators: bool,
    length: nat,
    wordCount: nat)

  /**
   * The operator strings searched for, taken literally from the source: the
   * multiplication and division signs appear there as the two-character
   * sequences U+0E23 U+0097 and U+0E23 U+0E17.
   */
  const Operators: seq<string> := ["+", "-", "\U{0E23}\U{0097}", "\U{0E23}\U{0E17}", "*", "/", "="]

  /** The analysis of a solution text, without the fractional completeness score. */
  function AnalyseText(solution: string): FormatAnalysis {
    FormatAnalysis(
      |Strip(solution)| > 10,
      exists i :: 0 <= i < |solution| && IsDigit(solution[i]),
      ContainsAny(solution, Operators),
      |Strip(solution)|,
      |Words(solution)|)
  }

  /**
   * `validate_solution_format`. The solution is whatever intent extraction
   * stored, `None` included; anything but a string has no `strip` and raises.
   */
  function ValidateSolutionFormat(solution: Value): (r: Attempt<FormatAnalysis>)
    ensures r.Raised? <==> !solution.Str?
    ensures r.Done? ==> (r.value.hasWorkShown <==> |Strip(solution.s)| > 10)
    ensures r.Done? ==> (r.value.hasNumbers <==> exists i :: 0 <= i < |solution.s| && IsDigit(solution.s[i]))
    ensures r.Done? ==> (r.value.hasOperators <==> exists j :: 0 <= j < |Operators| && Contains(solution.s, Operators[j]))
    ensures r.Done? ==> r.value.length == |Strip(solution.s)|
    ensures r.Done? ==> r.value.wordCount == |Words(solution.s)|
  {
    if solution.Str? then Done(AnalyseText(solution.s)) else Raised
  }

  function FormatValue(a: FormatAnalysis): Value {
    Dict([("has_work_shown", Bool(a.hasWorkShown)),
          ("has_numbers", Bool(a.hasNumbers)),
          ("has_operators", Bool(a.hasOperators)),
          ("length", Int(a.length)),
          ("word_count", Int(a.wordCount))])
  }

  const MoreWorkNote: string := "Show more detailed working steps"

  /** The score as an integer; 0 when there is none. */
  function ScoreOf(entries: Entries): int {
    match Lookup(entries, "score")
    case Some(Int(n)) => n
    case _ => 0
  }

  /**
   * Marking down brief work: the score drops by 2, to no less than 6, and a
   * note is appended to "areas_for_improvement", raising if that entry is
   * missing or not a list.
   */
  function MarkDown(e: Entries): (r: Attempt<Entries>) {
    var score := ScoreOf(e);
    var adjusted := Put(e, "score", Int(if score - 2 > 6 then score - 2 else 6));
    match Lookup(adjusted, "areas_for_improvement")
    case Some(List(items)) => Done(Put(adjusted, "areas_for_improvement", List(items + [Str(MoreWorkNote)])))
    case _ => Raised
  }

  /**
   * The marked-down evaluation: every key but the score and the improvement
   * areas as before, the score lowered into [6, score) when it exceeded 6, the
   * note last among the improvement areas; raising exactly when those are not
   * a list.
   */
  lemma MarkDownSpec(e: Entries)
    ensures var areas := Lookup(e, "areas_for_improvement");
      var r := MarkDown(e);
      && (r.Raised? <==> !(areas.Some? && areas.value.List?))
      && (r.Done? ==>
            && ScoreOf(r.value) == (if ScoreOf(e) - 2 > 6 then ScoreOf(e) - 2 else 6)
            && Lookup(r.value, "areas_for_improvement") == Some(List(areas.value.items + [Str(MoreWorkNote)]))
            && forall k :: k != "score" && k != "areas_for_improvement" ==> Lookup(r.value, k) == Lookup(e, k))
  {
    var score := Int(if ScoreOf(e) - 2 > 6 then ScoreOf(e) - 2 else 6);
    var adjusted := Put(e, "score", score);
    PutKeepsOther(e, "score", score, "areas_for_improvement");
    match Lookup(adjusted, "areas_for_improvement") {
      case Some(List(items)) =>
        PutKeepsOther(adjusted, "areas_for_improvement", List(items + [Str(MoreWorkNote)]), "score");
      case _ =>
    }
    forall k | k != "score" && k != "areas_for_improvement"
      ensures MarkDown(e).Done? ==> Lookup(MarkDown(e).value, k) == Lookup(e, k)
    {
      MarkDownKeeps(e, k);
    }
  }

  /** Marking down touches only the score and the improvement areas. */
  lemma MarkDownKeeps(e: Entries, k: string)
    ensures MarkDown(e).Done? && k != "score" && k != "areas_for_improvement" ==>
      Lookup(MarkDown(e).value, k) == Lookup(e, k)
  {
    var score := ScoreOf(e);
    var adjusted := Put(e, "score", Int(if score - 2 > 6 then score - 2 else 6));
    PutKeepsOther(e, "score", Int(if score - 2 > 6 then score - 2 else 6), k);
    match Lookup(adjusted, "areas_for_improvement")
    case Some(List(items)) =>
      PutKeepsOther(adjusted, "areas_for_improvement", List(items + [Str(MoreWorkNote)]), k);
    case _ =>
  }

  /**
   * The adjustment step of `evaluate_with_context_analysis`: record the format
   * analysis, then mark down a score above 6 for work not shown.
   */
  function Adjust(evaluation: Entries, analysis: FormatAnalysis): (r: Attempt<Entries>) {
    var e := Put(evaluation, "format_analysis", FormatValue(analysis));
    if !analysis.hasWorkShown && ScoreOf(e) > 6 then MarkDown(e) else Done(e)
  }

  /** Work shown, or a score of at most 6: only the format analysis is added. */
  lemma AdjustKeeps(evaluation: Entries, analysis: FormatAnalysis)
    requires analysis.hasWorkShown || ScoreOf(evaluation) <= 6
    ensures var r := Adjust(evaluation, analysis);
      && r.Done?
      && Lookup(r.value, "format_analysis") == Some(FormatValue(analysis))
      && (forall k :: k != "format_analysis" ==> Lookup(r.value, k) == Lookup(evaluation, k))
  {
    PutKeepsOther(evaluation, "format_analysis", FormatValue(analysis), "score");
    forall k | k != "format_analysis"
      ensures Lookup(Adjust(evaluation, analysis).value, k) == Lookup(evaluation, k)
    {
      PutKeepsOther(evaluation, "format_analysis", FormatValue(analysis), k);
    }
  }

  /**
   * No work shown and a score above 6: the score drops by 2, to no less than 6,
   * and the note ends the improvement areas; without a list there, it raises.
   */
  lemma AdjustLowers(evaluation: Entries, analysis: FormatAnalysis)
    requires !analysis.hasWorkShown && ScoreOf(evaluation) > 6
    ensures var areas := Lookup(evaluation, "areas_for_improvement");
      var r := Adjust(evaluation, analysis);
      && (r.Raised? <==> !(areas.Some? && areas.value.List?))
      && (r.Done? ==>
            && Lookup(r.value, "format_analysis") == Some(FormatValue(analysis))
            && ScoreOf(r.value) == (if ScoreOf(evaluation) - 2 > 6 then ScoreOf(evaluation) - 2 else 6)
            && Lookup(r.value, "areas_for_improvement") == Some(List(areas.value.items + [Str(MoreWorkNote)])))
  {
    PutKeepsOther(evaluation, "format_analysis", FormatValue(analysis), "score");
    PutKeepsOther(evaluation, "format_analysis", FormatValue(analysis), "areas_for_improvement");
    MarkDownSpec(Put(evaluation, "format_analysis", FormatValue(analysis)));
    MarkDownKeeps(Put(evaluation, "format_analysis", FormatValue(analysis)), "format_analysis");
  }

  /**
   * `evaluate_with_context_analysis`: the evaluation, then the adjustment by
   * the format analysis. A solution that is not a string (intent extraction
   * stores `None` when it finds none) raises in the format analysis; a
   * result carries the analysis.
   */
  function EvaluateWithContextAnalysis(solution: Value, reply: Reply, parse: Parser): (r: Attempt<Entries>)
    ensures r.Done? ==> solution.Str? && Lookup(r.value, "format_analysis") == Some(FormatValue(AnalyseText(solution.s)))
  {
    var evaluation := EvaluateSolution(reply, parse);
    match ValidateSolutionFormat(solution)
    case Raised => Raised
    case Done(analysis) =>
      if analysis.hasWorkShown || ScoreOf(evaluation) <= 6 then
        AdjustKeeps(evaluation, analysis);
        Adjust(evaluation, analysis)
      else
        AdjustLowers(evaluation, analysis);
        Adjust(evaluation, analysis)
  }

  /**
   * The analysed evaluation. A solution that is not a string raises. With
   * work shown (more than ten characters once stripped) or a score of at most
   * 6, it is the evaluation plus the format analysis. Otherwise the score
   * drops by 2, to no less than 6, and the note ends the improvement areas.
   * It also raises when such a mark-down finds no list of improvement areas.
   */
  lemma EvaluateWithContextAnalysisSpec(solution: Value, reply: Reply, parse: Parser)
    ensures var e := EvaluateSolution(reply, parse);
      var areas := Lookup(e, "areas_for_improvement");
      var lowered := solution.Str? && |Strip(solution.s)| <= 10 && ScoreOf(e) > 6;
      var r := EvaluateWithContextAnalysis(solution, reply, parse);
      && (r.Raised? <==> !solution.Str? || (lowered && !(areas.Some? && areas.value.List?)))
      && (solution.Str? && !lowered ==> forall k :: k != "format_analysis" ==> Lookup(r.value, k) == Lookup(e, k))
      && (lowered && r.Done? ==>
            && ScoreOf(r.value) == (if ScoreOf(e) - 2 > 6 then ScoreOf(e) - 2 else 6)
            && Lookup(r.value, "areas_for_improvement") == Some(List(areas.value.items + [Str(MoreWorkNote)])))
  {
    if solution.Str? {
      var e := EvaluateSolution(reply, parse);
      var analysis := AnalyseText(solution.s);
      if analysis.hasWorkShown || ScoreOf(e) <= 6 {
        AdjustKeeps(e, analysis);
      } else {
        AdjustLowers(e, analysis);
      }
    }
  }

  /**
   * A short answer scored above 6 by the model is lowered to at least 6 and
   * told to show more work; the earlier improvement areas are kept.
   */
  lemma ShortAnswerIsMarkedDown(solution: string, reply: Reply, parse: Parser, items: seq<Value>)
    requires |Strip(solution)| <= 10 && ScoreOf(EvaluateSolution(reply, parse)) > 6
    requires Lookup(EvaluateSolution(reply, parse), "areas_for_improvement") == Some(List(items))
    ensures var r := EvaluateWithContextAnalysis(Str(solution), reply, parse);
      && r.Done?
      && 6 <= ScoreOf(r.value) < ScoreOf(EvaluateSolution(reply, parse))
      && Lookup(r.value, "areas_for_improvement") == Some(List(items + [Str(MoreWorkNote)]))
  {
    EvaluateWithContextAnalysisSpec(Str(solution), reply, parse);
  }
}
