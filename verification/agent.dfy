/**
 * The tutoring workflow (`langgraph_agent.py`): a fixed graph of processing
 * nodes over a shared state, with conditional routing on `error` and
 * `intent`. What the OCR, intent, evaluation, solving and question
 * generation calls return is given as `Effects`; the RAG node is composed
 * with the retrieval model of `RagUtils`.
 */
module Agent {
  import opened Text
  import opened Values
  import opened Intent
  import opened RagUtils

  /** What a node's call gives: its result, or an exception with its message. */
  datatype Outcome<T> = Ok(value: T) | Failed(message: string)

  /**
   * The RAG manager the agent holds: none, or one whose
   * `get_context_string_with_board(query, board, class_level, subject)` returns
   * `contextFor(query, filters)`; `RagManagerOver` gives the manager of
   * `RAGManager` over a retriever. `Raising` stands for a manager whose call
   * raises, the node's `except` branch; it cannot arise, because
   * `get_context_string_with_board` catches every exception itself
   * (rag_utils.py:428-430). As written, the agent never holds a manager at
   * all: `RAGManager(api_key=...)` (langgraph_agent.py:91) omits required
   * constructor arguments, raises, and leaves the manager `None`.
   */
  datatype Manager = NoManager | Manager(contextFor: (Value, Filters) -> string) | Raising

  /** The number of documents `get_context_string_with_board` retrieves by default. */
  const ContextTopK: nat := 3

  /** The `RAGManager` over `retriever`, answering with its default `top_k`. */
  function RagManagerOver(retriever: Retriever): Manager {
    Manager((query, f) => ContextStringWithBoard(retriever, query, f, ContextTopK))
  }

  datatype Config = Config(board: string, className: string, subject: string, manager: Manager)

  /** The results of the external calls made by the nodes of one run. */
  datatype Effects = Effects(
    ocr: Outcome<string>,
    intent: Outcome<IntentAnalysis>,
    evaluation: Outcome<Value>,
    solve: Outcome<Value>,
    similar: Outcome<seq<Value>>,
    assemblyMessage: string)

  /** `AgentState`, without the inputs the nodes only pass on. */
  datatype AgentState = AgentState(
    extractedText: Option<string>,
    intent: Option<string>,
    problemStatement: Value,
    studentSolution: Value,
    hasStudentWork: bool,
    context: Option<string>,
    evaluationResult: Option<Value>,
    solutionResult: Option<Value>,
    similarQuestions: Option<seq<Value>>,
    finalOutput: Option<Value>,
    error: Option<string>,
    processingComplete: bool)

  /** The state `process_request` starts from. */
  function InitialState(): AgentState {
    AgentState(None, None, Null, Null, false, None, None, None, None, None, None, false)
  }

  datatype Node =
    | OcrExtraction
    | IntentDetection
    | RagRetrieval
    | EvaluateStep
    | SolveStep
    | SimilarQuestionGen
    | FinalOutputAssembler
    | ErrorHandler
    | End

  /** `state.get("error")` is truthy. */
  predicate HasError(st: AgentState) {
    st.error.Some? && st.error.value != ""
  }

  // ---------------------------------------------------------------- routing

  /**
   * The labels the routing functions return, each mapped to a node by
   * `add_conditional_edges`: "error", "intent_detection", "rag_retrieval",
   * "evaluation" and "solve".
   */
  datatype Route = ToError | ToIntentDetection | ToRagRetrieval | ToEvaluation | ToSolve

  /** `_route_after_ocr`. */
  function RouteAfterOcr(st: AgentState): (r: Route)
    ensures r == ToError || r == ToIntentDetection
    ensures r == ToError <==> HasError(st)
  {
    if HasError(st) then ToError else ToIntentDetection
  }

  /** `_route_after_intent`. */
  function RouteAfterIntent(st: AgentState): (r: Route)
    ensures r == ToError || r == ToRagRetrieval
    ensures r == ToError <==> HasError(st)
  {
    if HasError(st) then ToError else ToRagRetrieval
  }

  /** `_route_after_rag`: any intent other than "evaluation", `None` included, goes to solving. */
  function RouteAfterRag(st: AgentState): (r: Route)
    ensures r == ToError <==> HasError(st)
    ensures r == ToEvaluation <==> !HasError(st) && st.intent == Some("evaluation")
    ensures r == ToSolve <==> !HasError(st) && st.intent != Some("evaluation")
  {
    if HasError(st) then ToError
    else
      var intent := st.intent;
      if intent == Some("evaluation") then ToEvaluation
      else if intent == Some("solve") then ToSolve
      else ToSolve
  }

  /** Distance to `End`: every edge of the graph strictly lowers it. */
  function Rank(n: Node): nat {
    match n
    case OcrExtraction => 6
    case IntentDetection => 5
    case RagRetrieval => 4
    case EvaluateStep => 3
    case SolveStep => 3
    case SimilarQuestionGen => 2
    case FinalOutputAssembler => 1
    case ErrorHandler => 1
    case End => 0
  }

  /** The edges of `_build_workflow`, taken in the state the node left behind. */
  function Next(n: Node, st: AgentState): (r: Node)
    ensures n != End ==> Rank(r) < Rank(n)
  {
    match n
    case OcrExtraction => if RouteAfterOcr(st) == ToError then ErrorHandler else IntentDetection
    case IntentDetection => if RouteAfterIntent(st) == ToError then ErrorHandler else RagRetrieval
    case RagRetrieval =>
      (match RouteAfterRag(st)
       case ToError => ErrorHandler
       case ToEvaluation => EvaluateStep
       case _ => SolveStep)
    case EvaluateStep => SimilarQuestionGen
    case SolveStep => SimilarQuestionGen
    case SimilarQuestionGen => FinalOutputAssembler
    case FinalOutputAssembler => End
    case ErrorHandler => End
    case End => End
  }

  // ---------------------------------------------------------------- nodes

  /** `_ocr_extraction_node`. */
  function OcrNode(st: AgentState, r: Outcome<string>): AgentState {
    match r
    case Ok(text) => st.(extractedText := Some(text))
    case Failed(m) => st.(error := Some("OCR extraction failed: " + m))
  }

  /** `_intent_detection_node`. */
  function IntentNode(st: AgentState, r: Outcome<IntentAnalysis>): AgentState {
    match r
    case Ok(a) =>
      st.(intent := Some(a.intent), problemStatement := a.problemStatement,
          studentSolution := a.studentSolution, hasStudentWork := a.hasStudentWork)
    case Failed(m) => st.(error := Some("Intent detection failed: " + m))
  }

  /** The filters the agent retrieves with: its board, class and subject. */
  function AgentFilters(cfg: Config): Filters {
    Filters(Some(cfg.board), Some(cfg.className), Some(cfg.subject))
  }

  /** `_rag_context_retrieval_node`. */
  function RagNode(st: AgentState, cfg: Config): (r: AgentState)
    ensures r == st.(context := r.context) && r.context.Some?
  {
    match cfg.manager
    case Manager(contextFor) => st.(context := Some(contextFor(st.problemStatement, AgentFilters(cfg))))
    case NoManager =>
      st.(context := Some("No specific curriculum context available for " + cfg.board
                          + " board. Providing general mathematical guidance."))
    case Raising => st.(context := Some("Context retrieval failed. Providing general mathematical guidance."))
  }

  /**
   * With the `RAGManager` over a retriever, the node stores the context string
   * retrieved for the problem statement under the agent's board, class and
   * subject, leaving the rest of the state alone.
   */
  lemma RagNodeOverRetriever(st: AgentState, board: string, className: string, subject: string, retriever: Retriever)
    ensures var cfg := Config(board, className, subject, RagManagerOver(retriever));
      RagNode(st, cfg) == st.(context := Some(ContextStringWithBoard(retriever, st.problemStatement,
                                                                     Filters(Some(board), Some(className), Some(subject)), 3)))
  {
  }

  /** `_evaluation_node`. */
  function EvaluateNode(st: AgentState, r: Outcome<Value>): AgentState {
    match r
    case Ok(v) => st.(evaluationResult := Some(v))
    case Failed(m) => st.(error := Some("Solution evaluation failed: " + m))
  }

  /** `_solve_node`. */
  function SolveNode(st: AgentState, r: Outcome<Value>): AgentState {
    match r
    case Ok(v) => st.(solutionResult := Some(v))
    case Failed(m) => st.(error := Some("Problem solving failed: " + m))
  }

  const EncouragementQuestions: seq<Value> := [
    Str("Practice more problems like this one!"),
    Str("Try solving similar exercises."),
    Str("Keep practicing to improve your skills.")]

  /** `_similar_questions_node`: a failure substitutes three fixed encouragements. */
  function SimilarNode(st: AgentState, r: Outcome<seq<Value>>): (s: AgentState)
    ensures s == st.(similarQuestions := s.similarQuestions) && s.similarQuestions.Some?
    ensures r.Failed? ==> s.similarQuestions == Some(EncouragementQuestions)
  {
    match r
    case Ok(qs) => st.(similarQuestions := Some(qs))
    case Failed(_) => st.(similarQuestions := Some(EncouragementQuestions))
  }

  function OptionalStr(o: Option<string>): Value {
    match o
    case Some(s) => Str(s)
    case None => Null
  }

  function OptionalList(o: Option<seq<Value>>): Value {
    match o
    case Some(items) => List(items)
    case None => Null
  }

  /** The two keys every assembled output starts with, followed by `extra`. */
  function WithBase(st: AgentState, extra: seq<(string, Value)>): seq<(string, Value)> {
    [("intent", OptionalStr(st.intent)), ("similar_questions", OptionalList(st.similarQuestions))] + extra
  }


  /** The evaluation's fields copied into the output, with their defaults. */
  function EvaluationFields(e: seq<(string, Value)>): seq<(string, Value)> {
    [("score", GetOr(e, "score", Int(0))),
     ("is_correct", GetOr(e, "is_correct", Bool(false))),
     ("correct_answer", GetOr(e, "correct_answer", Str(""))),
     ("explanation", GetOr(e, "explanation", Str("")))]
  }

  /** The solution's fields copied into the output; score and correctness are unknown. */
  function SolutionFields(s: seq<(string, Value)>): seq<(string, Value)> {
    [("score", Null),
     ("is_correct", Null),
     ("correct_answer", GetOr(s, "final_answer", Str(""))),
     ("explanation", GetOr(s, "explanation", Str("")))]
  }

  /** The assembler reads the evaluation result: the intent is "evaluation" and the result truthy. */
  predicate ReadsEvaluation(st: AgentState) {
    st.intent == Some("evaluation") && st.evaluationResult.Some? && Truthy(st.evaluationResult.value)
  }

  /** The assembler reads the solution result: the intent is "solve" and the result truthy. */
  predicate ReadsSolution(st: AgentState) {
    st.intent == Some("solve") && st.solutionResult.Some? && Truthy(st.solutionResult.value)
  }

  /** `result["solution"]`, when the result is an object holding an object there. */
  function SolutionObject(package: Value): Option<seq<(string, Value)>> {
    if package.Dict? && Lookup(package.entries, "solution").Some? && Lookup(package.entries, "solution").value.Dict?
    then Some(Lookup(package.entries, "solution").value.entries)
    else None
  }

  /**
   * The output dictionary of `_final_output_assembler_node`. Reading a field
   * of an evaluation that is not an object, or a solution package without an
   * object under "solution", raises.
   */
  function Assemble(st: AgentState): Attempt<Value> {
    if ReadsEvaluation(st) then
      match st.evaluationResult.value
      case Dict(e) => Done(Dict(WithBase(st, EvaluationFields(e))))
      case _ => Raised
    else if ReadsSolution(st) then
      match SolutionObject(st.solutionResult.value)
      case Some(s) => Done(Dict(WithBase(st, SolutionFields(s))))
      case None => Raised
    else Done(Dict(WithBase(st, [])))
  }

  /** The output holds the base keys and the four given answer fields. */
  predicate Answered(out: Value, st: AgentState, score: Value, correct: Value, answer: Value, explanation: Value) {
    && HasEntry(out, "intent", OptionalStr(st.intent))
    && HasEntry(out, "similar_questions", OptionalList(st.similarQuestions))
    && HasEntry(out, "score", score) && HasEntry(out, "is_correct", correct)
    && HasEntry(out, "correct_answer", answer) && HasEntry(out, "explanation", explanation)
  }

  /** Reading back the output built from the base keys and four answer fields. */
  lemma AnsweredLookups(st: AgentState, score: Value, correct: Value, answer: Value, explanation: Value)
    ensures Answered(Dict(WithBase(st, [("score", score), ("is_correct", correct),
                                        ("correct_answer", answer), ("explanation", explanation)])),
                     st, score, correct, answer, explanation)
  {
    var r := WithBase(st, [("score", score), ("is_correct", correct), ("correct_answer", answer), ("explanation", explanation)]);
    LookupAt(r, 0, "intent");
    LookupAt(r, 1, "similar_questions");
    LookupAt(r, 2, "score");
    LookupAt(r, 3, "is_correct");
    LookupAt(r, 4, "correct_answer");
    LookupAt(r, 5, "explanation");
  }

  /**
   * What the assembler outputs: an evaluation's score, correctness, answer and
   * explanation with the defaults 0, False, "" and ""; for a solution no
   * score and no correctness, and the solution's final answer and explanation;
   * otherwise only the intent and the similar questions. It raises exactly
   * when the evaluation read is not an object, or the solution read holds no
   * object under "solution".
   */
  lemma AssembleSpec(st: AgentState)
    ensures var r := Assemble(st);
      && (r.Raised? <==>
            (ReadsEvaluation(st) && !st.evaluationResult.value.Dict?)
            || (ReadsSolution(st) && SolutionObject(st.solutionResult.value).None?))
      && (r.Done? ==> HasEntry(r.value, "intent", OptionalStr(st.intent))
                      && HasEntry(r.value, "similar_questions", OptionalList(st.similarQuestions)))
    ensures ReadsEvaluation(st) && st.evaluationResult.value.Dict? ==>
      var e := st.evaluationResult.value.entries;
      Assemble(st).Done? && Answered(Assemble(st).value, st, GetOr(e, "score", Int(0)), GetOr(e, "is_correct", Bool(false)),
                                     GetOr(e, "correct_answer", Str("")), GetOr(e, "explanation", Str("")))
    ensures ReadsSolution(st) && SolutionObject(st.solutionResult.value).Some? ==>
      var s := SolutionObject(st.solutionResult.value).value;
      Assemble(st).Done? && Answered(Assemble(st).value, st, Null, Null,
                                     GetOr(s, "final_answer", Str("")), GetOr(s, "explanation", Str("")))
    ensures !ReadsEvaluation(st) && !ReadsSolution(st) ==>
      Assemble(st).Done? && Keys(Assemble(st).value.entries) == ["intent", "similar_questions"]
  {
    if ReadsEvaluation(st) {
      if st.evaluationResult.value.Dict? {
        var e := st.evaluationResult.value.entries;
        AnsweredLookups(st, GetOr(e, "score", Int(0)), GetOr(e, "is_correct", Bool(false)),
                        GetOr(e, "correct_answer", Str("")), GetOr(e, "explanation", Str("")));
      }
    } else if ReadsSolution(st) {
      if SolutionObject(st.solutionResult.value).Some? {
        var s := SolutionObject(st.solutionResult.value).value;
        AnsweredLookups(st, Null, Null, GetOr(s, "final_answer", Str("")), GetOr(s, "explanation", Str("")));
      }
    } else {
      BaseOnly(st);
    }
  }

  /** Without an answer to copy, the output holds the two base keys only. */
  lemma BaseOnly(st: AgentState)
    ensures var r := WithBase(st, []);
      && Keys(r) == ["intent", "similar_questions"]
      && Lookup(r, "intent") == Some(OptionalStr(st.intent))
      && Lookup(r, "similar_questions") == Some(OptionalList(st.similarQuestions))
  {
    var r := WithBase(st, []);
    assert Keys(r) == [r[0].0] + Keys(r[1..]);
    LookupAt(r, 0, "intent");
    LookupAt(r, 1, "similar_questions");
  }

  /** `_final_output_assembler_node`. */
  function AssemblerNode(st: AgentState, message: string): AgentState {
    match Assemble(st)
    case Done(out) => st.(finalOutput := Some(out), processingComplete := true)
    case Raised => st.(error := Some("Output assembly failed: " + message))
  }

  /** The error text as the f-string renders `state.get('error', ...)`. */
  function ErrorText(st: AgentState): string {
    match st.error
    case Some(e) => e
    case None => "None"
  }

  const RetryAdvice: seq<Value> := [
    Str("Please try uploading the image again"),
    Str("Make sure the image is clear and readable"),
    Str("Contact support if the problem persists")]

  /** The error handler's output. */
  function ErrorOutput(st: AgentState): Value {
    Dict([("intent", Str("error")),
          ("score", Null),
          ("is_correct", Null),
          ("correct_answer", Str("Unable to process request")),
          ("explanation", Str("Sorry, I encountered an error: " + ErrorText(st) + ". Please try again.")),
          ("similar_questions", List(RetryAdvice))])
  }

  /**
   * The error output reports the error as the intent, with no score and no
   * correctness, says the request could not be processed, quotes the error
   * in its explanation and suggests retrying.
   */
  lemma ErrorOutputSpec(st: AgentState)
    ensures var r := ErrorOutput(st);
      && HasEntry(r, "intent", Str("error"))
      && HasEntry(r, "score", Null) && HasEntry(r, "is_correct", Null)
      && HasEntry(r, "correct_answer", Str("Unable to process request"))
      && HasEntry(r, "explanation", Str("Sorry, I encountered an error: " + ErrorText(st) + ". Please try again."))
      && HasEntry(r, "similar_questions", List(RetryAdvice))
  {
    var r := ErrorOutput(st).entries;
    LookupAt(r, 0, "intent");
    LookupAt(r, 1, "score");
    LookupAt(r, 2, "is_correct");
    LookupAt(r, 3, "correct_answer");
    LookupAt(r, 4, "explanation");
    LookupAt(r, 5, "similar_questions");
  }

  /** `_error_handler_node`. */
  function ErrorHandlerNode(st: AgentState): AgentState {
    st.(finalOutput := Some(ErrorOutput(st)), processingComplete := true)
  }

  /** The effect of running node `n`. */
  function Apply(n: Node, st: AgentState, cfg: Config, fx: Effects): AgentState {
    match n
    case OcrExtraction => OcrNode(st, fx.ocr)
    case IntentDetection => IntentNode(st, fx.intent)
    case RagRetrieval => RagNode(st, cfg)
    case EvaluateStep => EvaluateNode(st, fx.evaluation)
    case SolveStep => SolveNode(st, fx.solve)
    case SimilarQuestionGen => SimilarNode(st, fx.similar)
    case FinalOutputAssembler => AssemblerNode(st, fx.assemblyMessage)
    case ErrorHandler => ErrorHandlerNode(st)
    case End => st
  }

  // ---------------------------------------------------------------- runs

  datatype Run = Run(trace: seq<Node>, final: AgentState)

  /** The nodes visited from `n` until `End`, and the state at `End`. */
  function RunFrom(n: Node, st: AgentState, cfg: Config, fx: Effects): (r: Run)
    ensures |r.trace| <= Rank(n)
    decreases Rank(n)
  {
    if n == End then Run([], st)
    else
      var after := Apply(n, st, cfg, fx);
      var rest := RunFrom(Next(n, after), after, cfg, fx);
      Run([n] + rest.trace, rest.final)
  }

  /** `graph.invoke` on the initial state. */
  function Invoke(cfg: Config, fx: Effects): Run {
    RunFrom(OcrExtraction, InitialState(), cfg, fx)
  }

  /** The branch the run takes after retrieval. */
  function Branch(fx: Effects): Node {
    if fx.intent.Ok? && fx.intent.value.intent == "evaluation" then EvaluateStep else SolveStep
  }

  /** The nodes a run visits, by which of the first two calls failed. */
  function Path(fx: Effects): seq<Node> {
    if fx.ocr.Failed? then [OcrExtraction, ErrorHandler]
    else if fx.intent.Failed? then [OcrExtraction, IntentDetection, ErrorHandler]
    else [OcrExtraction, IntentDetection, RagRetrieval, Branch(fx), SimilarQuestionGen, FinalOutputAssembler]
  }

  /** The branch node's effect: evaluation, or else solving. */
  function BranchNode(b: Node, st: AgentState, fx: Effects): AgentState {
    if b == EvaluateStep then EvaluateNode(st, fx.evaluation) else SolveNode(st, fx.solve)
  }

  /** The state after the branch node, question generation and the assembler. */
  function AfterBranch(b: Node, st: AgentState, fx: Effects): AgentState {
    AssemblerNode(SimilarNode(BranchNode(b, st, fx), fx.similar), fx.assemblyMessage)
  }

  /** The state after OCR and intent detection both succeeded. */
  function Detected(fx: Effects): AgentState
    requires fx.ocr.Ok? && fx.intent.Ok?
  {
    IntentNode(OcrNode(InitialState(), fx.ocr), fx.intent)
  }

  /** The state the assembler receives when OCR and intent detection succeeded. */
  function BeforeAssembler(cfg: Config, fx: Effects): AgentState
    requires fx.ocr.Ok? && fx.intent.Ok?
  {
    SimilarNode(BranchNode(Branch(fx), RagNode(Detected(fx), cfg), fx), fx.similar)
  }

  /** The state the error handler receives when OCR or intent detection failed. */
  function Failing(fx: Effects): AgentState
    requires fx.ocr.Failed? || fx.intent.Failed?
  {
    if fx.ocr.Failed? then OcrNode(InitialState(), fx.ocr) else IntentNode(OcrNode(InitialState(), fx.ocr), fx.intent)
  }

  /** The state a run ends in, by which of the first two calls failed. */
  function Final(cfg: Config, fx: Effects): AgentState {
    if fx.ocr.Failed? || fx.intent.Failed? then ErrorHandlerNode(Failing(fx))
    else AssemblerNode(BeforeAssembler(cfg, fx), fx.assemblyMessage)
  }

  /** One step of a run: node `n` runs, then the run goes on from the node its edge selects. */
  lemma RunFromStep(n: Node, st: AgentState, cfg: Config, fx: Effects)
    requires n != End
    ensures var after := Apply(n, st, cfg, fx);
      var rest := RunFrom(Next(n, after), after, cfg, fx);
      RunFrom(n, st, cfg, fx) == Run([n] + rest.trace, rest.final)
  {
  }

  /** Without an error, retrieval is followed by the branch its intent selects. */
  lemma NextAfterRag(st: AgentState)
    requires !HasError(st)
    ensures Next(RagRetrieval, st) == if st.intent == Some("evaluation") then EvaluateStep else SolveStep
  {
  }

  /** After OCR: the error handler on an error, intent detection otherwise. */
  lemma NextAfterOcr(st: AgentState)
    ensures Next(OcrExtraction, st) == if HasError(st) then ErrorHandler else IntentDetection
  {
  }

  /** After intent detection: the error handler on an error, retrieval otherwise. */
  lemma NextAfterIntent(st: AgentState)
    ensures Next(IntentDetection, st) == if HasError(st) then ErrorHandler else RagRetrieval
  {
  }

  lemma PrefixFour(n: Node, a: Node, b: Node, c: Node, d: Node)
    ensures [n] + [a, b, c, d] == [n, a, b, c, d]
  {
  }

  lemma PrefixFive(n: Node, a: Node, b: Node, c: Node, d: Node, e: Node)
    ensures [n] + [a, b, c, d, e] == [n, a, b, c, d, e]
  {
  }

  lemma PrefixTwo(n: Node, a: Node, b: Node)
    ensures [n] + [a, b] == [n, a, b]
  {
  }

  lemma PrefixOne(n: Node, a: Node)
    ensures [n] + [a] == [n, a]
  {
  }

  lemma PrefixThree(n: Node, a: Node, b: Node, c: Node)
    ensures [n] + [a, b, c] == [n, a, b, c]
  {
  }

  lemma RunFromAssembler(st: AgentState, cfg: Config, fx: Effects)
    ensures RunFrom(FinalOutputAssembler, st, cfg, fx) == Run([FinalOutputAssembler], AssemblerNode(st, fx.assemblyMessage))
  {
    RunFromStep(FinalOutputAssembler, st, cfg, fx);
  }

  lemma RunFromErrorHandler(st: AgentState, cfg: Config, fx: Effects)
    ensures RunFrom(ErrorHandler, st, cfg, fx) == Run([ErrorHandler], ErrorHandlerNode(st))
  {
    RunFromStep(ErrorHandler, st, cfg, fx);
  }

  lemma RunFromSimilar(st: AgentState, cfg: Config, fx: Effects)
    ensures RunFrom(SimilarQuestionGen, st, cfg, fx)
         == Run([SimilarQuestionGen, FinalOutputAssembler], AssemblerNode(SimilarNode(st, fx.similar), fx.assemblyMessage))
  {
    RunFromStep(SimilarQuestionGen, st, cfg, fx);
    RunFromAssembler(SimilarNode(st, fx.similar), cfg, fx);
  }

  /** Running a branch node is its `BranchNode` effect. */
  lemma ApplyBranch(b: Node, st: AgentState, cfg: Config, fx: Effects)
    requires b == EvaluateStep || b == SolveStep
    ensures Apply(b, st, cfg, fx) == BranchNode(b, st, fx)
  {
  }

  /** From either branch node the run goes through question generation to the assembler, whatever the error. */
  lemma RunFromBranch(b: Node, st: AgentState, cfg: Config, fx: Effects)
    requires b == EvaluateStep || b == SolveStep
    ensures RunFrom(b, st, cfg, fx)
         == Run([b, SimilarQuestionGen, FinalOutputAssembler], AfterBranch(b, st, fx))
  {
    RunFromStep(b, st, cfg, fx);
    ApplyBranch(b, st, cfg, fx);
    assert Next(b, BranchNode(b, st, fx)) == SimilarQuestionGen;
    RunFromSimilar(BranchNode(b, st, fx), cfg, fx);
  }

  /** From retrieval without an error, the run takes the branch named by the intent. */
  lemma RunFromRag(st: AgentState, cfg: Config, fx: Effects)
    requires !HasError(st)
    ensures var b := if st.intent == Some("evaluation") then EvaluateStep else SolveStep;
      RunFrom(RagRetrieval, st, cfg, fx)
        == Run([RagRetrieval, b, SimilarQuestionGen, FinalOutputAssembler], AfterBranch(b, RagNode(st, cfg), fx))
  {
    var s3 := RagNode(st, cfg);
    var b := if st.intent == Some("evaluation") then EvaluateStep else SolveStep;
    RunFromStep(RagRetrieval, st, cfg, fx);
    assert Apply(RagRetrieval, st, cfg, fx) == s3;
    NextAfterRag(s3);
    RunFromBranch(b, s3, cfg, fx);
    PrefixThree(RagRetrieval, b, SimilarQuestionGen, FinalOutputAssembler);
  }

  /** A failed intent detection goes to the error handler. */
  lemma RunFromIntentFailed(st: AgentState, cfg: Config, fx: Effects)
    requires fx.intent.Failed?
    ensures RunFrom(IntentDetection, st, cfg, fx) == Run([IntentDetection, ErrorHandler], ErrorHandlerNode(IntentNode(st, fx.intent)))
  {
    var s2 := IntentNode(st, fx.intent);
    RunFromStep(IntentDetection, st, cfg, fx);
    assert Apply(IntentDetection, st, cfg, fx) == s2;
    NextAfterIntent(s2);
    RunFromErrorHandler(s2, cfg, fx);
    PrefixOne(IntentDetection, ErrorHandler);
  }

  /** A successful intent detection, without an earlier error, goes on to retrieval and the branch the intent names. */
  lemma RunFromIntentOk(st: AgentState, cfg: Config, fx: Effects)
    requires !HasError(st) && fx.intent.Ok?
    ensures RunFrom(IntentDetection, st, cfg, fx)
        == Run([IntentDetection, RagRetrieval, Branch(fx), SimilarQuestionGen, FinalOutputAssembler],
               AfterBranch(Branch(fx), RagNode(IntentNode(st, fx.intent), cfg), fx))
  {
    var s2 := IntentNode(st, fx.intent);
    RunFromStep(IntentDetection, st, cfg, fx);
    assert Apply(IntentDetection, st, cfg, fx) == s2;
    NextAfterIntent(s2);
    RunFromRag(s2, cfg, fx);
    PrefixFour(IntentDetection, RagRetrieval, Branch(fx), SimilarQuestionGen, FinalOutputAssembler);
  }

  /** From OCR on the initial state: to the error handler if it fails, else on to intent detection. */
  lemma RunFromOcr(cfg: Config, fx: Effects)
    ensures fx.ocr.Failed? ==>
      Invoke(cfg, fx) == Run([OcrExtraction, ErrorHandler], ErrorHandlerNode(OcrNode(InitialState(), fx.ocr)))
    ensures fx.ocr.Ok? ==>
      var rest := RunFrom(IntentDetection, OcrNode(InitialState(), fx.ocr), cfg, fx);
      Invoke(cfg, fx) == Run([OcrExtraction] + rest.trace, rest.final) && !HasError(OcrNode(InitialState(), fx.ocr))
  {
    var s1 := OcrNode(InitialState(), fx.ocr);
    RunFromStep(OcrExtraction, InitialState(), cfg, fx);
    assert Apply(OcrExtraction, InitialState(), cfg, fx) == s1;
    NextAfterOcr(s1);
    if fx.ocr.Failed? {
      RunFromErrorHandler(s1, cfg, fx);
      PrefixOne(OcrExtraction, ErrorHandler);
    }
  }

  /**
   * Every run: a failed OCR goes straight to the error handler, a failed
   * intent detection goes there after it, and otherwise the run passes
   * retrieval, the branch chosen by the intent, question generation and the
   * assembler.
   */
  lemma InvokeRun(cfg: Config, fx: Effects)
    ensures Invoke(cfg, fx) == Run(Path(fx), Final(cfg, fx))
  {
    RunFromOcr(cfg, fx);
    if fx.ocr.Ok? {
      var s1 := OcrNode(InitialState(), fx.ocr);
      if fx.intent.Failed? {
        RunFromIntentFailed(s1, cfg, fx);
        PrefixTwo(OcrExtraction, IntentDetection, ErrorHandler);
      } else {
        RunFromIntentOk(s1, cfg, fx);
        PrefixFive(OcrExtraction, IntentDetection, RagRetrieval, Branch(fx), SimilarQuestionGen, FinalOutputAssembler);
        assert Final(cfg, fx) == AfterBranch(Branch(fx), RagNode(IntentNode(s1, fx.intent), cfg), fx);
      }
    }
  }

  /** Every run ends after at most six processing nodes, at the assembler or the error handler. */
  lemma InvokeEnds(cfg: Config, fx: Effects)
    ensures var t := Invoke(cfg, fx).trace;
      && 2 <= |t| <= 6 && t[0] == OcrExtraction
      && (t[|t| - 1] == FinalOutputAssembler || t[|t| - 1] == ErrorHandler)
  {
    InvokeRun(cfg, fx);
  }

  /** The error handler is on the path exactly when OCR or intent detection failed. */
  lemma PathErrorHandler(fx: Effects)
    ensures ErrorHandler in Path(fx) <==> fx.ocr.Failed? || fx.intent.Failed?
  {
  }

  /** The error handler runs exactly when OCR or intent detection failed. */
  lemma ErrorHandlerIff(cfg: Config, fx: Effects)
    ensures ErrorHandler in Invoke(cfg, fx).trace <==> fx.ocr.Failed? || fx.intent.Failed?
  {
    InvokeRun(cfg, fx);
    PathErrorHandler(fx);
  }

  /** The assembler keeps an existing error; it either completes with its output or records a new error. */
  lemma AssemblerNodeSpec(st: AgentState, message: string)
    ensures var r := AssemblerNode(st, message);
      && (HasError(st) ==> HasError(r))
      && (Assemble(st).Done? ==> r.finalOutput == Some(Assemble(st).value) && r.processingComplete)
      && (Assemble(st).Raised? ==>
            r.finalOutput == st.finalOutput && r.processingComplete == st.processingComplete && HasError(r))
  {
  }

  /** No output yet and processing not complete. */
  predicate Pending(st: AgentState) {
    st.finalOutput.None? && !st.processingComplete
  }

  /** The nodes before the assembler leave the output unwritten and processing incomplete. */
  lemma PendingBeforeAssembler(cfg: Config, fx: Effects)
    requires fx.ocr.Ok? && fx.intent.Ok?
    ensures Pending(BeforeAssembler(cfg, fx))
  {
    var s3 := RagNode(Detected(fx), cfg);
    assert Pending(s3);
    BranchKeepsPending(Branch(fx), s3, fx);
  }

  /** A branch node changes neither the output nor the completion flag. */
  lemma BranchKeepsPending(b: Node, st: AgentState, fx: Effects)
    requires Pending(st)
    ensures Pending(BranchNode(b, st, fx))
  {
  }

  /** A failed branch call leaves an error that question generation keeps. */
  lemma BranchFailureKept(cfg: Config, fx: Effects)
    requires fx.ocr.Ok? && fx.intent.Ok?
    requires Branch(fx) == EvaluateStep ==> fx.evaluation.Failed?
    requires Branch(fx) == SolveStep ==> fx.solve.Failed?
    ensures HasError(BeforeAssembler(cfg, fx))
  {
  }

  /**
   * A failure of the evaluation or solving call is recorded in the state
   * but never reaches the error handler: the run goes on to the assembler.
   */
  lemma LateErrorNotHandled(cfg: Config, fx: Effects)
    requires fx.ocr.Ok? && fx.intent.Ok?
    requires Branch(fx) == EvaluateStep ==> fx.evaluation.Failed?
    requires Branch(fx) == SolveStep ==> fx.solve.Failed?
    ensures ErrorHandler !in Invoke(cfg, fx).trace
    ensures HasError(Invoke(cfg, fx).final)
  {
    InvokeRun(cfg, fx);
    PathErrorHandler(fx);
    BranchFailureKept(cfg, fx);
    AssemblerNodeSpec(BeforeAssembler(cfg, fx), fx.assemblyMessage);
  }

  /** From a pending state the assembler either completes with an output naming the intent, or stays pending. */
  lemma AssembledOutput(st: AgentState, message: string)
    requires Pending(st)
    ensures var r := AssemblerNode(st, message);
      && (r.finalOutput.Some? <==> r.processingComplete)
      && (r.finalOutput.Some? ==> HasEntry(r.finalOutput.value, "intent", OptionalStr(r.intent)))
  {
    AssemblerNodeSpec(st, message);
    AssembleSpec(st);
  }

  /** The error handler completes with an output whose intent is "error". */
  lemma HandledOutput(st: AgentState)
    ensures var r := ErrorHandlerNode(st);
      r.finalOutput.Some? && r.processingComplete && HasEntry(r.finalOutput.value, "intent", Str("error"))
  {
    ErrorOutputSpec(st);
  }

  /** An output is always produced by the error handler; the assembler produces one unless it raised. */
  lemma InvokeOutput(cfg: Config, fx: Effects)
    ensures var r := Invoke(cfg, fx);
      && (r.final.finalOutput.Some? <==> r.final.processingComplete)
      && (r.final.finalOutput.Some? ==>
            HasEntry(r.final.finalOutput.value, "intent", if ErrorHandler in r.trace then Str("error") else OptionalStr(r.final.intent)))
  {
    InvokeRun(cfg, fx);
    PathErrorHandler(fx);
    if fx.ocr.Ok? && fx.intent.Ok? {
      PendingBeforeAssembler(cfg, fx);
      AssembledOutput(BeforeAssembler(cfg, fx), fx.assemblyMessage);
    } else {
      HandledOutput(Failing(fx));
    }
  }
}
