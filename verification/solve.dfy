/**
 * Problem solving (`solve_utils.py`): turning the model's JSON solution into
 * a complete one, the fallback solution, the problem-type analysis and the
 * learning objectives. Every model call is a `Reply`; the parser is the
 * abstract `json.loads`.
 */
module Solve {
  import opened Text
  import opened Values
  import opened Evaluation

  /** `get_solution_default_value`. */
  function DefaultSolutionValue(field: string): (r: Value)
    ensures field == "solution_steps" ==> r == List([])
    ensures field != "final_answer" && field != "solution_steps" && field != "explanation"
            && field != "key_concepts" && field != "tips" && field != "difficulty_level"
            && field != "time_needed"
            ==> r == Str("Unknown")
  {
    if field == "final_answer" then Str("Unable to determine")
    else if field == "solution_steps" then List([])
    else if field == "explanation" then Str("Unable to provide detailed solution due to technical issues.")
    else if field == "key_concepts" then List([Str("Basic arithmetic")])
    else if field == "tips" then List([Str("Practice similar problems")])
    else if field == "difficulty_level" then Str("medium")
    else if field == "time_needed" then Str("5-10 minutes")
    else Str("Unknown")
  }

  const SolutionRequired: seq<string> := ["final_answer", "solution_steps", "explanation"]

  /** A solution with a final answer, a list of steps and an explanation. */
  predicate SolutionComplete(r: Entries) {
    && Lookup(r, "final_answer").Some?
    && Lookup(r, "solution_steps").Some? && Lookup(r, "solution_steps").value.List?
    && Lookup(r, "explanation").Some?
  }

  /** The single step of the fallback solution. */
  const FallbackStep: Value := Dict([
    ("step_number", Int(1)),
    ("description", Str("I encountered an issue while solving this problem")),
    ("calculation", Str("Please try again or ask for help")),
    ("result", Str("Unable to complete"))])

  const TroubleNote: string := "I had trouble solving this problem automatically. Raw response: "

  /** The fallback solution's fixed fields, around the given explanation. */
  function FallbackSolutionWith(explanation: string): (r: Entries)
    ensures Lookup(r, "final_answer") == Some(Str("Unable to solve automatically"))
    ensures Lookup(r, "solution_steps") == Some(List([FallbackStep]))
    ensures Lookup(r, "explanation") == Some(Str(explanation))
  {
    var tail := [("key_concepts", List([Str("Problem solving")])),
                 ("tips", List([Str("Try breaking the problem into smaller parts")])),
                 ("difficulty_level", Str("unknown")),
                 ("time_needed", Str("varies"))];
    var r2 := [("explanation", Str(explanation))] + tail;
    var r1 := [("solution_steps", List([FallbackStep]))] + r2;
    var r := [("final_answer", Str("Unable to solve automatically"))] + r1;
    LookupCons(("explanation", Str(explanation)), tail, "explanation");
    LookupCons(("solution_steps", List([FallbackStep])), r2, "explanation");
    LookupCons(("solution_steps", List([FallbackStep])), r2, "solution_steps");
    LookupCons(("final_answer", Str("Unable to solve automatically")), r1, "explanation");
    LookupCons(("final_answer", Str("Unable to solve automatically")), r1, "solution_steps");
    LookupCons(("final_answer", Str("Unable to solve automatically")), r1, "final_answer");
    r
  }

  /** `create_fallback_solution`: the raw reply, cut to 200 characters, goes into the explanation. */
  function FallbackSolution(raw: string): (r: Entries)
    ensures SolutionComplete(r)
  {
    FallbackSolutionWith(if raw != "" then TroubleNote + Prefix200(raw) + "..."
                         else "Unable to solve due to technical issues.")
  }

  /**
   * The fallback solution gives up on the answer, shows one step asking to
   * try again, and quotes the raw reply, cut to 200 characters, exactly when
   * there is one.
   */
  lemma FallbackSolutionSpec(raw: string)
    ensures var r := FallbackSolution(raw);
      && Lookup(r, "final_answer") == Some(Str("Unable to solve automatically"))
      && Lookup(r, "solution_steps") == Some(List([FallbackStep]))
      && (raw != "" ==> Lookup(r, "explanation") == Some(Str(TroubleNote + Prefix200(raw) + "...")))
      && (raw == "" ==> Lookup(r, "explanation") == Some(Str("Unable to solve due to technical issues.")))
  {
  }

  /** After filling the defaults, every required field is present. */
  lemma FilledSolution(entries: Entries)
    ensures var f := FillDefaults(entries, SolutionRequired, DefaultSolutionValue);
      Lookup(f, "final_answer").Some? && Lookup(f, "solution_steps").Some? && Lookup(f, "explanation").Some?
  {
    FillDefaultsSpec(entries, SolutionRequired, DefaultSolutionValue, "final_answer");
    FillDefaultsSpec(entries, SolutionRequired, DefaultSolutionValue, "solution_steps");
    FillDefaultsSpec(entries, SolutionRequired, DefaultSolutionValue, "explanation");
  }

  /** The steps a reply object carries: its list, or an empty list for anything else. */
  function StepsOf(entries: Entries): Value {
    match Lookup(entries, "solution_steps")
    case Some(List(items)) => List(items)
    case _ => List([])
  }

  /**
   * The parsed-object path: missing required fields defaulted, then steps
   * that are not a list replaced by an empty list.
   */
  function SolveFromObject(entries: Entries): (r: Entries)
    ensures SolutionComplete(r)
  {
    var filled := FillDefaults(entries, SolutionRequired, DefaultSolutionValue);
    FilledSolution(entries);
    if Lookup(filled, "solution_steps").value.List? then filled
    else
      PutKeepsOther(filled, "solution_steps", List([]), "final_answer");
      PutKeepsOther(filled, "solution_steps", List([]), "explanation");
      Put(filled, "solution_steps", List([]))
  }

  /** The steps of the object path are the reply's own list, or empty when it gave none. */
  lemma SolveFromObjectSteps(entries: Entries)
    ensures Lookup(SolveFromObject(entries), "solution_steps") == Some(StepsOf(entries))
  {
    FillDefaultsSpec(entries, SolutionRequired, DefaultSolutionValue, "solution_steps");
  }

  /** Any key other than the steps keeps its reading through the object path. */
  lemma SolveFromObjectKey(entries: Entries, k: string)
    requires k != "solution_steps"
    ensures var r := SolveFromObject(entries);
      && (Lookup(entries, k).Some? ==> Lookup(r, k) == Lookup(entries, k))
      && (Lookup(entries, k).None? && k in SolutionRequired ==> Lookup(r, k) == Some(DefaultSolutionValue(k)))
      && (Lookup(entries, k).None? && k !in SolutionRequired ==> Lookup(r, k).None?)
  {
    SolveFromObjectFilled(entries, k);
    FillDefaultsSpec(entries, SolutionRequired, DefaultSolutionValue, k);
  }

  /** Replacing the steps touches no other key of the filled object. */
  lemma SolveFromObjectFilled(entries: Entries, k: string)
    requires k != "solution_steps"
    ensures Lookup(SolveFromObject(entries), k) == Lookup(FillDefaults(entries, SolutionRequired, DefaultSolutionValue), k)
  {
    PutKeepsOther(FillDefaults(entries, SolutionRequired, DefaultSolutionValue), "solution_steps", List([]), k);
  }

  /**
   * What the object path keeps: every key of the reply other than the steps
   * with its value, the defaults of the missing required fields, nothing
   * else, and the steps when they are a list.
   */
  lemma SolveFromObjectKeeps(entries: Entries)
    ensures var r := SolveFromObject(entries);
      && Lookup(r, "solution_steps") == Some(StepsOf(entries))
      && (forall k :: k != "solution_steps" && Lookup(entries, k).Some? ==> Lookup(r, k) == Lookup(entries, k))
      && (forall k :: k != "solution_steps" && Lookup(entries, k).None? && k in SolutionRequired ==>
            Lookup(r, k) == Some(DefaultSolutionValue(k)))
      && (forall k :: k != "solution_steps" && Lookup(entries, k).None? && k !in SolutionRequired ==>
            Lookup(r, k).None?)
  {
    SolveFromObjectSteps(entries);
    forall k | k != "solution_steps"
      ensures var r := SolveFromObject(entries);
        && (Lookup(entries, k).Some? ==> Lookup(r, k) == Lookup(entries, k))
        && (Lookup(entries, k).None? && k in SolutionRequired ==> Lookup(r, k) == Some(DefaultSolutionValue(k)))
        && (Lookup(entries, k).None? && k !in SolutionRequired ==> Lookup(r, k).None?)
    {
      SolveFromObjectKey(entries, k);
    }
  }

  /**
   * `solve_problem`. A reply that parses to a JSON object keeps its keys and
   * gains the missing required ones; a parse error falls back quoting the
   * reply; no reply, a non-object (whose item assignment raises) or a raising
   * call fall back without it.
   */
  function SolveProblem(reply: Reply, parse: Parser): (r: Entries)
    ensures SolutionComplete(r)
  {
    match reply
    case Raised => FallbackSolution("")
    case Done(text) =>
      if text == "" then FallbackSolution("")
      else
        match parse(Strip(text))
        case None => FallbackSolution(text)
        case Some(v) =>
          if v.Dict? then SolveFromObject(v.entries) else FallbackSolution("")
  }

  /**
   * The three outcomes of `solve_problem`: the object path, the fallback
   * quoting an unparsable reply, and the fallback without a quote otherwise.
   */
  lemma SolveProblemCases(reply: Reply, parse: Parser)
    ensures var parsed := if reply.Done? && reply.value != "" then Some(parse(Strip(reply.value))) else None;
      var r := SolveProblem(reply, parse);
      && (parsed.Some? && parsed.value.Some? && parsed.value.value.Dict? ==>
            r == SolveFromObject(parsed.value.value.entries))
      && (parsed.Some? && parsed.value.None? ==> r == FallbackSolution(reply.value))
      && (parsed.None? || (parsed.value.Some? && !parsed.value.value.Dict?) ==> r == FallbackSolution(""))
  {
  }

  /** An unparsable reply is quoted in the fallback's explanation; the answer is given up. */
  lemma SolveProblemUnparsable(text: string, parse: Parser)
    requires text != "" && parse(Strip(text)).None?
    ensures Lookup(SolveProblem(Done(text), parse), "explanation") == Some(Str(TroubleNote + Prefix200(text) + "..."))
    ensures Lookup(SolveProblem(Done(text), parse), "final_answer") == Some(Str("Unable to solve automatically"))
  {
    FallbackSolutionSpec(text);
  }

  // ---------------------------------------------------------------- problem type

  /** The fallback problem analysis. */
  function ProblemAnalysis(isWordProblem: bool): (r: Value)
    ensures HasEntry(r, "problem_type", Str("unknown"))
    ensures HasEntry(r, "is_word_problem", Bool(isWordProblem))
  {
    var tail := [("is_word_problem", Bool(isWordProblem)), ("operations_needed", List([Str("unknown")]))];
    var r3 := [("required_concepts", List([Str("arithmetic")]))] + tail;
    var r2 := [("estimated_time", Str("5-10 minutes"))] + r3;
    var r1 := [("difficulty", Str("medium"))] + r2;
    var entries := [("problem_type", Str("unknown"))] + r1;
    LookupCons(("is_word_problem", Bool(isWordProblem)), tail[1..], "is_word_problem");
    assert tail == [("is_word_problem", Bool(isWordProblem))] + tail[1..];
    LookupCons(("required_concepts", List([Str("arithmetic")])), tail, "is_word_problem");
    LookupCons(("estimated_time", Str("5-10 minutes")), r3, "is_word_problem");
    LookupCons(("difficulty", Str("medium")), r2, "is_word_problem");
    LookupCons(("problem_type", Str("unknown")), r1, "is_word_problem");
    LookupCons(("problem_type", Str("unknown")), r1, "problem_type");
    Dict(entries)
  }

  /**
   * `validate_problem_type`: whatever the reply parses to, returned as it is;
   * otherwise the fallback analysis, a word problem when the statement has
   * more than ten words; a raising call gives the fallback, not a word problem.
   */
  function ValidateProblemType(problem: string, reply: Reply, parse: Parser): (r: Value)
    ensures reply.Raised? ==> r == ProblemAnalysis(false)
  {
    match reply
    case Raised => ProblemAnalysis(false)
    case Done(text) =>
      var fallback := ProblemAnalysis(|Words(problem)| > 10);
      if text == "" then fallback
      else
        match parse(Strip(text))
        case Some(v) => v
        case None => fallback
  }

  /** The analysis is the parsed reply when there is one; otherwise it classifies by word count. */
  lemma ValidateProblemTypeSpec(problem: string, reply: Reply, parse: Parser)
    ensures var r := ValidateProblemType(problem, reply, parse);
      && (reply.Done? && reply.value != "" && parse(Strip(reply.value)).Some? ==>
            r == parse(Strip(reply.value)).value)
      && (reply.Done? && (reply.value == "" || parse(Strip(reply.value)).None?) ==>
            HasEntry(r, "problem_type", Str("unknown"))
            && HasEntry(r, "is_word_problem", Bool(|Words(problem)| > 10)))
      && (reply.Raised? ==> HasEntry(r, "is_word_problem", Bool(false)))
  {
  }

  // ---------------------------------------------------------------- learning objectives

  const DefaultObjectives: seq<Value> := [
    Str("Practice arithmetic operations"),
    Str("Develop problem-solving skills"),
    Str("Apply mathematical concepts to real situations")]

  /**
   * `extract_learning_objectives`. `keyAvailable` says whether an API key was
   * given or found in the environment; without one no call is made.
   */
  function LearningObjectives(keyAvailable: bool, reply: Reply, parse: Parser): (r: seq<Value>)
    ensures !keyAvailable ==> r == [Str("Practice problem solving skills")]
    ensures keyAvailable && reply.Raised? ==> r == [Str("Practice mathematical thinking")]
  {
    if !keyAvailable then [Str("Practice problem solving skills")]
    else
      match reply
      case Raised => [Str("Practice mathematical thinking")]
      case Done(text) =>
        if text == "" then DefaultObjectives
        else
          match parse(Strip(text))
          case Some(List(items)) => items
          case _ => DefaultObjectives
  }

  /** With a reply, a parsed list is taken as it is and anything else gives the three defaults. */
  lemma LearningObjectivesSpec(reply: Reply, parse: Parser)
    requires reply.Done?
    ensures var parsed := if reply.value != "" then parse(Strip(reply.value)) else None;
      var r := LearningObjectives(true, reply, parse);
      && (parsed.Some? && parsed.value.List? ==> r == parsed.value.items)
      && (!(parsed.Some? && parsed.value.List?) ==> r == DefaultObjectives && |r| == 3)
  {
  }
}
