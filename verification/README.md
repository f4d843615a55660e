# Study-assistant core, modelled in Dafny

This project models the pure core of an educational tutoring backend. The
backend reads textbook PDFs into a vector store, answers a student's
photographed maths problem through a small agent workflow, and offers
analytics and practice suggestions. Everything here is a pure function over
immutable values. Each language-model call, database read and JSON parse is
an input parameter.

Modules, following the program's files:

- `Text` — Python string operations on `seq<char>`. Covers `strip`, `lower`, `split`, `split()`, `find`, `in`, `join` and `str(int)`. Whitespace, case and digits are ASCII only.
- `Values` — JSON values as `json.loads` returns them, plus database ObjectIds. Dict operations: `get`, item assignment, default filling. Also `str`, `repr` (with its quote choice and escapes), Python `int()` and truthiness.
- `Headings` — `DocumentChunker.chunk_by_headings`.
- `LargeChunks` — `chunk_by_headings_advanced` and `_split_large_chunk`. This is the paragraph / line / word cascade with the overlap carry.
- `Buckets` — `chunk_by_sentences` and `chunk_by_paragraphs`, the fixed-size bucket loop.
- `ChunkStrategy` — `get_chunk_info` and the `chunk_educational_content` dispatcher.
- `RagUtils` — the two board classifiers. Also ingestion metadata, retrieval filtering and truncation, and the formatted context strings.
- `Agent` — the workflow graph of the tutoring agent. Covers routing, node effects, whole runs, and the output of the assembler and the error handler.
- `SimilarQuestions`, `Evaluation`, `Solve`, `Intent` — normalisation of model replies into typed results, with defaults and fallbacks.
- `PdfReader` — page metadata, per-page content analysis and vector-store objects.
- `Analytics`, `Suggestions` — the average-difficulty rule, the weak-area projection, the guarded ratios, and the placeholder suggestion generator.
- `Database` — `serialize_object_id`.

A language-model call is a `Reply`: either `Raised` (an exception) or `Done(text)`. JSON parsing is an abstract `Parser` (`string -> Option<Value>`), where `None` stands for a `JSONDecodeError`. A Python exception that the code catches becomes an `Attempt<T>` (`Raised | Done(value)`), and the caller handles it the way the `except` clause does.

## Model

| member | source | states |
|---|---|---|
| Headings.ChunkByHeadingsShape | app/study_agent/chunk_strategy.py:41-75 | A blank document comes back as the one-element list holding it unchanged. Otherwise there is at least one chunk, and every chunk is non-empty and already stripped. |
| Headings.ChunkByHeadingsWords | app/study_agent/chunk_strategy.py:49-75 | The whitespace words of the chunks, concatenated in order, are exactly the words of the document: none lost, repeated or reordered. |
| Headings.ChunkByHeadingsStructure | app/study_agent/chunk_strategy.py:49-75 | The chunks are the flushed preamble (the lines before the first heading line) followed by the scan that starts at the first heading. |
| Headings.ChunkByHeadingsCount | app/study_agent/chunk_strategy.py:49-75 | There is one chunk per heading line, plus one if the preamble is non-blank. The chunk of the k-th heading line starts with that line, stripped. |
| Headings.ChunkByHeadingsNoHeading | app/study_agent/chunk_strategy.py:49-75 | A non-blank document without heading lines gives the single chunk `strip(document)`. |
| Headings.HeadingLevels | app/study_agent/chunk_strategy.py:53 | '#', '##' and '###' headings, and ' ## ', are heading lines. A lone '#', even padded, is not. |
| Headings.ThirdLevelHeadingSplits | app/study_agent/chunk_strategy.py:53 | A '###' line opens its own chunk: "# A\n### B" gives ["# A", "### B"]. |
| Headings.PreambleSpec | app/study_agent/chunk_strategy.py:49-60 | The preamble length is the length of the longest prefix of lines with no heading line: a heading line follows it, if anything does. |
| Headings.HeadedFlush | app/study_agent/chunk_strategy.py:55-58 | A group of lines opened by a heading line flushes to exactly one chunk, which starts with the stripped heading. |
| Headings.ScanStripped | app/study_agent/chunk_strategy.py:55-75 | Every chunk the line loop emits is non-empty and stripped. |
| Headings.FlushWords | app/study_agent/chunk_strategy.py:56-58 | Flushing a group emits exactly the words of the group's lines joined by newlines. |
| Headings.FlushCount | app/study_agent/chunk_strategy.py:56-58 | A flush emits one chunk if the joined group is non-blank and none otherwise. |
| LargeChunks.ChunkByHeadingsAdvancedSpec | app/study_agent/chunk_strategy.py:85-114 | A blank document comes back unchanged. When every heading chunk fits the limit, the result is the heading chunks. Every word of the document survives at least as often as it occurs, and with no overlap the words are exactly the document's, in order. |
| LargeChunks.ExpandChunksFitting | app/study_agent/chunk_strategy.py:105-112 | Chunks within the limit are kept unchanged and in place. |
| LargeChunks.ExpandChunksWords | app/study_agent/chunk_strategy.py:105-112 | Replacing each oversized chunk by its pieces loses no word, and repeats none when there is no overlap. |
| LargeChunks.SplitLargeChunkWords | app/study_agent/chunk_strategy.py:116-182 | The pieces of a chunk hold every word of the chunk at least as often. With no overlap they hold exactly the chunk's words, in order. |
| LargeChunks.SplitLargeChunkBound | app/study_agent/chunk_strategy.py:116-182 | Each piece is bounded only by the larger of the limit and the whole chunk plus the overlap and its separator. No piece is longer than that. |
| LargeChunks.ParagraphsOfChunk | app/study_agent/chunk_strategy.py:128-136 | The split on blank lines, or on line breaks when there is no blank line, keeps the chunk's words in order, and no paragraph is longer than the chunk. |
| LargeChunks.WordFallbackBound | app/study_agent/chunk_strategy.py:153-171 | The word fallback keeps the pieces already emitted. Every piece it adds, and its leftover buffer, is at most the limit or a single space-free word of the paragraph. |
| LargeChunks.PackWordsBound | app/study_agent/chunk_strategy.py:158-171 | Packing space-free words keeps earlier pieces as a prefix. Each new piece and the final buffer is within the limit or a single word. |
| LargeChunks.PackWordsWords | app/study_agent/chunk_strategy.py:158-171 | The word fallback neither loses nor repeats a word. |
| LargeChunks.CarryWords | app/study_agent/chunk_strategy.py:146-152 | The buffer carried after a flush holds the words of the last `overlap` characters when overlap > 0 and the buffer is longer than overlap, followed by the paragraph's words. Otherwise it holds the paragraph's words alone. |
| LargeChunks.PackParagraphWords | app/study_agent/chunk_strategy.py:141-176 | One paragraph step adds the paragraph's words, preceded by the words of any carried overlap. |
| LargeChunks.PackParagraphsWords | app/study_agent/chunk_strategy.py:138-176 | The paragraph loop loses no word: the input words form a sub-multiset of the output's. |
| LargeChunks.PackParagraphsWordsExact | app/study_agent/chunk_strategy.py:138-176 | With no overlap, the paragraph loop keeps exactly the words, in order. |
| LargeChunks.OverlapExceedsLimit | app/study_agent/chunk_strategy.py:141-152 | With limit 5 and overlap 3, "abcd\nefgh" splits into ["abcd", "bcd\n\nefgh"]. The second piece is longer than the limit. |
| LargeChunks.ParagraphAfterFlushExceedsLimit | app/study_agent/chunk_strategy.py:141-155 | Even without overlap, a paragraph that follows a flush is kept whole: "ab\ncd ef gh" with limit 5 gives ["ab", "cd ef gh"]. |
| Buckets.ChunkBySentencesSpec | app/study_agent/chunk_strategy.py:184-218 | A blank document comes back unchanged. Otherwise the buckets hold the sentences in order, each with 1 to `max_sentences` of them. Chunk i is bucket i joined by ". " and closed by ".". |
| Buckets.ChunkBySentencesCount | app/study_agent/chunk_strategy.py:199-216 | There are ceil(n / max_sentences) chunks for n sentences. |
| Buckets.ChunkBySentencesRoundTrip | app/study_agent/chunk_strategy.py:199-216 | Splitting chunk i into sentences again gives back exactly the sentences of bucket i. |
| Buckets.SentenceChunkRoundTrip | app/study_agent/chunk_strategy.py:206-214 | Joining non-empty, stripped, terminator-free sentences with ". " and a final "." and splitting again is the identity. |
| Buckets.SentencesAreSentences | app/study_agent/chunk_strategy.py:199-200 | Every sentence the splitter yields is non-empty, stripped and free of '.', '!' and '?'. |
| Buckets.PunctuationOnlyYieldsNothing | app/study_agent/chunk_strategy.py:195-216 | A non-blank document of terminators and whitespace only gives no chunk at all. |
| Buckets.SixSentencesInPairs | app/study_agent/chunk_strategy.py:199-216 | "A. B. C. D. E. F." in buckets of two gives ["A. B.", "C. D.", "E. F."]. |
| Buckets.ChunkByParagraphsSpec | app/study_agent/chunk_strategy.py:220-255 | A blank document comes back unchanged. Otherwise the chunks' words are the document's words in order, and there are ceil(p / max_paragraphs) chunks for p non-blank paragraphs. |
| Buckets.GroupFlatten | app/study_agent/chunk_strategy.py:202-212 | The buckets, concatenated, are the open bucket followed by the fragments, in order. |
| Buckets.GroupSizes | app/study_agent/chunk_strategy.py:202-212 | Every bucket is non-empty and at most the bucket width, and all but the last are full. |
| Buckets.GroupCount | app/study_agent/chunk_strategy.py:202-212 | The number of buckets is the ceiling of the fragment count over the width. |
| ChunkStrategy.GetChunkInfo | app/study_agent/chunk_strategy.py:257-290 | Record i describes chunk i: its content, index i, the total, the identifier "chunk_i", its character count and its whitespace word count. |
| ChunkStrategy.ChunkHeading | app/study_agent/chunk_strategy.py:269-275 | The recorded heading is None exactly when no line of the chunk starts with '#' after stripping. Otherwise it is the first such line, stripped. |
| ChunkStrategy.FirstHashLineSpec | app/study_agent/chunk_strategy.py:269-275 | The first hash line is absent exactly when no line starts with '#'. Otherwise it is the earliest such line, stripped. |
| ChunkStrategy.ChunkIdsDistinct | app/study_agent/chunk_strategy.py:277-286 | Different chunks get different identifiers. |
| ChunkStrategy.LoneHashIsReported | app/study_agent/chunk_strategy.py:269-275 | A lone '#' line is reported as the chunk's heading, although it never opens a chunk. |
| ChunkStrategy.ChunkEducationalContent | app/study_agent/chunk_strategy.py:364-397 | A blank document comes back unchanged under every strategy, and an unknown strategy name means "headings". |
| ChunkStrategy.ChunkEducationalContentWords | app/study_agent/chunk_strategy.py:376-397 | Every strategy but "sentences" keeps the document's words in order: exactly, unless the advanced strategy carries an overlap, in which case no word is lost. |
| RagUtils.CurriculumType | app/study_agent/rag_utils.py:162-175 | "National" iff the lowercased board contains cbse, ncert or icse. Otherwise "State" iff it contains "state". Otherwise "International" iff it contains "international" or "ib". Otherwise "Other". |
| RagUtils.BoardRegion | app/study_agent/rag_utils.py:187-210 | The region of the first listed state whose name occurs in the lowercased board. Otherwise "National" for cbse/ncert/icse. Otherwise "Unknown". |
| RagUtils.FirstState | app/study_agent/rag_utils.py:202-204 | No state found iff no listed name occurs. Otherwise the region of the earliest listed name that occurs. |
| RagUtils.NationalRegionIsNationalCurriculum | app/study_agent/rag_utils.py:162-210 | A "National" region implies a "National" curriculum, and an "Unknown" region never has a "National" curriculum. |
| RagUtils.ClassifyCbse | app/study_agent/rag_utils.py:164-208 | "CBSE" is National under both classifiers. |
| RagUtils.ChunkDocuments | app/study_agent/rag_utils.py:304-305 | The whole page content is the single chunk. |
| RagUtils.ChunkPage | app/study_agent/rag_utils.py:135-140 | A chunk document per chunk, each a copy of the page differing only in content. |
| RagUtils.ClassifiedSpec | app/study_agent/rag_utils.py:128-132 | Classifying a page sets region and curriculum_type from the board, keeps the content and every other metadata key, and adds no other key. |
| RagUtils.LoadPdfWithBoardSpec | app/study_agent/rag_utils.py:128-146 | Page i of the result is page i classified by the board. The stored chunk documents are exactly those pages, one per page. |
| RagUtils.FieldMatches | app/study_agent/rag_utils.py:337-352 | An inactive filter passes. An active filter passes iff the lowercased filter occurs in the lowercased field. A missing field fails, and a non-string field raises. |
| RagUtils.KeepSpec | app/study_agent/rag_utils.py:332-355 | With string metadata, a candidate is kept iff every active filter among board/class/subject is a case-insensitive substring of its field. |
| RagUtils.FilterDocs | app/study_agent/rag_utils.py:332-355 | The filter loop raises iff some candidate's check raises. Otherwise it keeps an order-preserving subsequence holding exactly the candidates that pass. |
| RagUtils.RetrieveByBoard | app/study_agent/rag_utils.py:323-375 | No retriever, a failing retriever, an unsliceable query or a raising metadata check gives []. Otherwise the result is the first `top_k` kept candidates (all candidates when no filter is active), so it never exceeds `top_k`. |
| RagUtils.NoFiltersTakesFirst | app/study_agent/rag_utils.py:358-371 | With no active filter, the result is exactly the first `top_k` candidates. |
| RagUtils.RetrieveByBoardFiltered | app/study_agent/rag_utils.py:332-371 | The result is an order-preserving subsequence of the candidates, and under active filters every result passes them. It is exactly the first min(`top_k`, n) of the n candidates that pass, and [] when a check raises. |
| RagUtils.MatchesAllSpec | app/study_agent/rag_utils.py:543-552 | With string metadata, a candidate matches iff every filter key is present and its value contains the filter value, case-insensitively. |
| RagUtils.AdvancedKept | app/study_agent/rag_utils.py:538-556 | The advanced filter loop raises iff a check raises. Otherwise it keeps an order-preserving subsequence holding exactly the matching candidates. |
| RagUtils.RetrieveAdvanced | app/study_agent/rag_utils.py:529-564 | No retriever, a failing retriever, an unsliceable query or a raising metadata check gives []. Otherwise the result is the first `top_k` matching candidates. |
| RagUtils.RetrieveAdvancedSpec | app/study_agent/rag_utils.py:538-560 | An empty filter dict keeps the first `top_k` candidates. Otherwise the result is exactly the first min(`top_k`, n) of the n matching candidates, in order, and [] when a check raises. |
| RagUtils.ContextStringWithBoardSpec | app/study_agent/rag_utils.py:393-426 | With no documents, the string is the "no relevant context" message naming the active filters. Otherwise it is the blocks of the retrieved documents, numbered from 1 and joined by newlines. It opens with the message iff nothing was retrieved. |
| RagUtils.ContextStringAdvancedSpec | app/study_agent/rag_utils.py:578-602 | With no documents, the string is the "no relevant context" message ending in "for filters: " and the "key: value" list. Otherwise it is the numbered blocks joined by newlines. It opens with the message iff nothing was retrieved. |
| RagUtils.AdvancedDescription | app/study_agent/rag_utils.py:582 | One "key: value" part per filter, in order. |
| RagUtils.FormatContextShape | app/study_agent/rag_utils.py:409-426 | The formatted context opens with the block of document 1, headed "\nContext 1:". |
| RagUtils.NoContextMessage | app/study_agent/rag_utils.py:396-407 | With all three filters active and no documents, the message names the board (with " board"), then the class, then the subject. |
| Agent.RouteAfterOcr | app/study_agent/langgraph_agent.py:368-372 | "error" iff the state holds an error, otherwise "intent_detection". |
| Agent.RouteAfterIntent | app/study_agent/langgraph_agent.py:374-378 | "error" iff the state holds an error, otherwise "rag_retrieval". |
| Agent.RouteAfterRag | app/study_agent/langgraph_agent.py:380-391 | "error" iff an error is held. "evaluation" iff there is no error and the intent is "evaluation". "solve" for every other intent, None included. |
| Agent.Next | app/study_agent/langgraph_agent.py:124-170 | Every edge of the graph strictly lowers the distance to END. |
| Agent.RunFrom | app/study_agent/langgraph_agent.py:124-170 | A run from any node visits at most as many nodes as that node's distance to END. |
| Agent.InvokeRun | app/study_agent/langgraph_agent.py:124-170 | Every run follows its path. Failed OCR goes straight to the error handler, and failed intent detection goes there after it. Otherwise the run passes retrieval, the branch the intent names, question generation and the assembler. |
| Agent.InvokeEnds | app/study_agent/langgraph_agent.py:124-170 | Every run starts at OCR, visits 2 to 6 processing nodes and ends at the assembler or the error handler. |
| Agent.ErrorHandlerIff | app/study_agent/langgraph_agent.py:124-170 | The error handler runs iff OCR or intent detection failed. |
| Agent.RagNode | app/study_agent/langgraph_agent.py:219-242 | The retrieval node only sets the context, and always sets it. It never records an error. |
| Agent.RagNodeOverRetriever | app/study_agent/langgraph_agent.py:219-232 | With a manager over a retriever, the context is the context string retrieved for the problem statement under the agent's board, class and subject, top 3. |
| Agent.LateErrorNotHandled | app/study_agent/langgraph_agent.py:244-283 | A failed evaluation or solving call leaves an error in the final state, yet the error handler never runs. |
| Agent.SimilarNode | app/study_agent/langgraph_agent.py:285-306 | Question generation only sets the similar questions. A failure substitutes the three fixed encouragements. |
| Agent.AssembleSpec | app/study_agent/langgraph_agent.py:310-339 | The output always holds intent and similar_questions. An evaluation adds score, is_correct, correct_answer and explanation, defaulting to 0, False, "" and "". A solution adds no score, no correctness, and its final answer and explanation. It raises exactly when the evaluation read is not an object or the solution package has no object under "solution". |
| Agent.AssemblerNodeSpec | app/study_agent/langgraph_agent.py:310-346 | The assembler keeps an existing error. It either stores the output and completes, or records a new error and leaves the output as it was. |
| Agent.ErrorOutputSpec | app/study_agent/langgraph_agent.py:348-364 | The error output has intent "error", score and is_correct None, correct_answer "Unable to process request", an explanation quoting the error, and three retry suggestions. |
| Agent.HandledOutput | app/study_agent/langgraph_agent.py:348-364 | The error handler completes with an output whose intent is "error". |
| Agent.InvokeOutput | app/study_agent/langgraph_agent.py:124-364 | At the end of a run there is an output iff processing is complete. Its intent is "error" when the error handler ran and the state's intent otherwise. |
| SimilarQuestions.CleanJsonResponse | app/study_agent/similar_question_utils.py:89-113 | The result is always stripped. A text without any fence is returned stripped. |
| SimilarQuestions.CleanJsonFenced | app/study_agent/similar_question_utils.py:101-105 | A "```json" block around a body without backticks yields the body, stripped, whatever backtick-free prose precedes the fence and whatever follows it. |
| SimilarQuestions.CleanPlainFenced | app/study_agent/similar_question_utils.py:106-110 | Without "```json", a plain "```" block yields its body, stripped, whatever backtick-free prose precedes it. |
| SimilarQuestions.CleanUnclosedFence | app/study_agent/similar_question_utils.py:101-113 | An opening plain "```" with no closing fence, after any backtick-free prose, leaves the whole text, stripped. |
| SimilarQuestions.CleanUnclosed | app/study_agent/similar_question_utils.py:101-113 | An opening "```json" with no closing fence, after any backtick-free prose, leaves the whole text, stripped. |
| SimilarQuestions.FallbackQuestions | app/study_agent/similar_question_utils.py:311-330 | The first min(n, 5) questions of the fixed list, in order, whatever the problem. |
| SimilarQuestions.GenerateSimilarQuestions | app/study_agent/similar_question_utils.py:18-87 | At most `num_questions` questions are ever returned. |
| SimilarQuestions.GenerateSimilarQuestionsSpec | app/study_agent/similar_question_utils.py:57-87 | A parsed object's values, or a parsed list, cut to n when non-empty. Every other outcome, including no key, an empty reply and a parse error, gives the fallback. |
| SimilarQuestions.ConvertToQuestionDict | app/study_agent/similar_question_utils.py:332-350 | Same length and order. Each record holds its question, difficulty "medium", concept "arithmetic" and the fixed context reference. |
| SimilarQuestions.ConvertRoundTrip | app/study_agent/similar_question_utils.py:342-350 | Reading the question back from each record gives the original list. |
| SimilarQuestions.ComprehensiveSpec | app/study_agent/similar_question_utils.py:352-390 | The set's similar questions are three generated ones, used for practice, and the total counts them; the other lists are empty. |
| SimilarQuestions.FallbackQuestionSetSpec | app/study_agent/similar_question_utils.py:391-397 | The exception path uses the first three fallback questions in every list. |
| SimilarQuestions.FallbackQuestionSet | app/study_agent/similar_question_utils.py:386-397 | The exception path reports a total of 3, and its similar, progressive and themed lists hold three entries each. |
| Evaluation.DefaultValue | app/study_agent/evaluation_utils.py:108-119 | Score 5 and is_correct False, and "Unknown" for every unlisted field. |
| Evaluation.Clamp | app/study_agent/evaluation_utils.py:92 | The score is clamped into 0..10, and in-range scores are kept. |
| Evaluation.FromObjectKeeps | app/study_agent/evaluation_utils.py:85-92 | The object path keeps every key but score, fills the missing required fields with their defaults, and stores the int-converted score clamped to 0..10. |
| Evaluation.FloatScoreTruncated | app/study_agent/evaluation_utils.py:92 | A float score is truncated toward zero before clamping. |
| Evaluation.EvaluateSolution | app/study_agent/evaluation_utils.py:14-106 | Every outcome is complete: all four required fields, with an integer score in 0..10. |
| Evaluation.EvaluateSolutionObject | app/study_agent/evaluation_utils.py:79-92 | A reply that parses to an object takes the object path. |
| Evaluation.EvaluateSolutionUnparsable | app/study_agent/evaluation_utils.py:94-100 | An unparsable reply falls back quoting the reply and marks the solution wrong. |
| Evaluation.FallbackEvaluationSpec | app/study_agent/evaluation_utils.py:121-131 | The fallback has is_correct False and score 5. Its explanation quotes the raw reply cut to 200 characters plus "..." iff the reply is non-empty. |
| Evaluation.ValidateSolutionFormat | app/study_agent/evaluation_utils.py:133-149 | Raises iff the solution is not a string, such as the `None` that intent extraction stores when it finds no solution. Otherwise work is shown iff the stripped length exceeds 10. Numbers iff some character is a digit. Operators iff a listed operator string occurs. The length and word count are those of the solution. |
| Evaluation.MarkDownSpec | app/study_agent/evaluation_utils.py:181-183 | The score becomes max(6, score - 2) and the note is appended to the improvement areas; all other keys are unchanged. It raises exactly when the improvement areas are not a list. |
| Evaluation.AdjustKeeps | app/study_agent/evaluation_utils.py:176-183 | With work shown or a score of at most 6, only the format analysis is added. |
| Evaluation.AdjustLowers | app/study_agent/evaluation_utils.py:176-183 | With no work shown and a score above 6, the score is marked down and the note appended, raising without a list of improvement areas. |
| Evaluation.EvaluateWithContextAnalysisSpec | app/study_agent/evaluation_utils.py:160-185 | A solution that is not a string raises. For a string, the analysed evaluation is the evaluation plus the format analysis, unless the answer is short and scored above 6: then the score becomes max(6, score - 2) and the note ends the improvement areas. It also raises exactly when such a mark-down finds no list. |
| Evaluation.ShortAnswerIsMarkedDown | app/study_agent/evaluation_utils.py:181-183 | A short answer scored above 6 ends with a score in [6, old score) and the note after the earlier improvement areas. |
| Solve.DefaultSolutionValue | app/study_agent/solve_utils.py:106-117 | Empty steps for solution_steps, and "Unknown" for every unlisted field. |
| Solve.SolveFromObjectKeeps | app/study_agent/solve_utils.py:76-90 | The object path keeps every key except the steps, and fills only the missing required fields with their defaults. The steps are the reply's list, or [] when they were not a list. |
| Solve.SolveProblem | app/study_agent/solve_utils.py:15-104 | Every outcome has a final answer, a list of steps and an explanation. |
| Solve.SolveProblemCases | app/study_agent/solve_utils.py:76-104 | A parsed object takes the object path. An unparsable reply falls back quoting it. Anything else falls back without a quote. |
| Solve.FallbackSolutionSpec | app/study_agent/solve_utils.py:119-136 | The fallback gives up the answer with exactly one step, numbered 1. It quotes the raw reply cut to 200 characters plus "..." iff the reply is non-empty. |
| Solve.ValidateProblemTypeSpec | app/study_agent/solve_utils.py:199-258 | A parsed reply is returned as it is. An empty or unparsable reply gives the fallback, a word problem iff the statement has more than ten words. A raising call gives the fallback, not a word problem. |
| Solve.LearningObjectivesSpec | app/study_agent/solve_utils.py:300-333 | A non-empty reply that parses to a list is returned as that list. Anything else gives the three default objectives. |
| Solve.LearningObjectives | app/study_agent/solve_utils.py:288-337 | Without an API key, the one-item list of practising problem solving. When the call raises, the one-item list of practising mathematical thinking. |
| Intent.DetectIntent | app/study_agent/intent_utils.py:14-76 | The result is "evaluation" or "solve". It is "evaluation" iff the reply, stripped and lowercased, is "evaluation". |
| Intent.DetectIntentNormalises | app/study_agent/intent_utils.py:61-68 | Case and surrounding whitespace are ignored: any capitalisation of "evaluation", padded with any whitespace, gives "evaluation". |
| Intent.ExtractProblemAndSolution | app/study_agent/intent_utils.py:78-139 | A parsed object gives its problem_statement (default: the extracted text) and student_solution (default: None). Anything else gives the extracted text and None. |
| Intent.AnalyzeIntent | app/study_agent/intent_utils.py:141-161 | The intent is "evaluation" or "solve", and has_student_work holds iff a student solution was found. |
| Intent.AnalyzeIntentFallback | app/study_agent/intent_utils.py:141-161 | When both calls fail, the analysis is "solve" on the raw text without student work. |
| PdfReader.CreatePageMetadata | app/study_agent/pdf_reader_utils.py:92-128 | It raises exactly when the base metadata lacks "filename". |
| PdfReader.CreatePageMetadataSpec | app/study_agent/pdf_reader_utils.py:108-126 | Key by key: an additional entry wins, then a page field, then the base. No other key appears. page_id is filename + "_page_" + page number, and chunk_type and extraction_method are fixed, unless overridden. |
| PdfReader.PageText | app/study_agent/pdf_reader_utils.py:239-244 | The content is the response text when that is non-empty, and never empty. |
| PdfReader.AnalysisCounts | app/study_agent/pdf_reader_utils.py:247-258 | The content length is recorded. The status is "success" iff the response was non-empty. The reading time is the word count in whole units of 200. |
| PdfReader.AnalysisFlags | app/study_agent/pdf_reader_utils.py:252-256 | The formula flag holds iff a listed character occurs. The exercise and diagram flags hold iff a listed keyword occurs in the lowercased content. |
| PdfReader.AnalysePageSpec | app/study_agent/pdf_reader_utils.py:239-262 | The page keeps every metadata key outside the analysis and adds the analysis of its own content. An empty response gives the placeholder. |
| PdfReader.EmptyResponse | app/study_agent/pdf_reader_utils.py:239-249 | An empty response stores "# Page N\n\n*No content extracted*" with status "empty_response" and that text's length. |
| PdfReader.Properties | app/study_agent/pdf_reader_utils.py:391-398 | The properties hold exactly the scalar metadata values, unchanged, plus the topics text. |
| PdfReader.TopicsText | app/study_agent/pdf_reader_utils.py:397 | No topics gives "", and a string is kept. |
| PdfReader.TopicsJoined | app/study_agent/pdf_reader_utils.py:397 | A list of topic strings is joined with ", ". |
| PdfReader.PrepareForWeaviateSpec | app/study_agent/pdf_reader_utils.py:377-403 | It succeeds exactly when every page's topics can be rendered. Then object i carries page i's content verbatim and the properties built from its metadata. |
| PdfReader.FlatMetadataKept | app/study_agent/pdf_reader_utils.py:391-398 | Flat metadata with string topics becomes the properties unchanged. |
| Analytics.AvgDifficultyIsEasiestMode | app/routers/analytics.py:186-196 | The average difficulty is a most frequent level, and every easier level is strictly less frequent. Ties and an empty list therefore fall to the easier level. |
| Analytics.EasiestModeIsAvgDifficulty | app/routers/analytics.py:186-196 | Conversely, a most frequent level that beats every easier level is the average difficulty. |
| Analytics.OtherValuesIgnored | app/routers/analytics.py:186-189 | A value other than the exact strings "easy", "medium" and "hard" does not change the result. |
| Analytics.AvgDifficultyTies | app/routers/analytics.py:191-196 | An empty list and an easy–medium tie give "easy", and a hard–medium tie gives "medium". |
| Analytics.GetWeakAreas | app/routers/analytics.py:87-94 | Every entry asks for three questions per weak topic, and lists at least one topic. |
| Analytics.GetWeakAreasSpec | app/routers/analytics.py:87-94 | One entry per record with weak areas, in order, with that record's subject, topics and last activity. |
| Analytics.AvgQuestionsPerNote | app/routers/analytics.py:57 | 0 without notes. Otherwise the ratio, which times the note count gives the question count. |
| Analytics.ProgressPercentage | app/routers/analytics.py:137 | Between 0 and 100. It is 0 iff there are no questions and 100 iff there are at least ten. |
| Analytics.ProgressMonotone | app/routers/analytics.py:137 | More questions never lower the progress. |
| Suggestions.GenerateSuggestions | app/routers/suggestions.py:22-57 | No records gives the no-data message and no insert. Nothing is inserted exactly when the message is one of the two "no" messages. |
| Suggestions.GenerateSuggestionsSpec | app/routers/suggestions.py:31-57 | The insert holds one suggestion per planned weak area. The message is no data without records, "Generated n new suggestions" for n > 0 inserted, and "No new suggestions generated" otherwise. |
| Suggestions.BuildSuggestionsSpec | app/routers/suggestions.py:37-51 | The suggestions are, in order, one per weak area among the first three of each record. Each has that topic, the record's subject, difficulty "medium", based_on [topic], not completed, and the review-question text. |
| Suggestions.FromRecord | app/routers/suggestions.py:39-51 | A record contributes one suggestion for each of its first three weak areas. |
| Suggestions.EmptyRecordContributesNothing | app/routers/suggestions.py:39 | A record without weak areas contributes nothing wherever it stands. |
| Suggestions.GeneratedInjective | app/routers/suggestions.py:55 | The count can be read back from the message: different counts give different messages. |
| Database.SerializeObjectId | app/utils/database.py:21-24 | None stays None, and a document stays a document. |
| Database.SerializeKeys | app/utils/database.py:26-37 | The result's keys are the document's keys without `_id`, plus `id` when `_id` was present. Without `_id` the keys are unchanged. |
| Database.SerializeLookup | app/utils/database.py:26-37 | `_id` is gone and `id` holds `str(_id)`. Every other key holds its old value after conversion. |
| Database.ObjectIdRenamed | app/utils/database.py:26-28 | An ObjectId under `_id` becomes an `id` holding its hexadecimal string. |
| Database.Converted | app/utils/database.py:31-35 | An ObjectId becomes its string, and list items that are ObjectIds become strings with length and order kept. Anything else, a nested dict included, is unchanged. |
| Database.SerializedPlain | app/utils/database.py:30-37 | No ObjectId remains at the top level or directly inside a top-level list. |
| Database.PlainUnchanged | app/utils/database.py:30-37 | A document without `_id` and without ObjectIds comes back unchanged. |
| Database.SerializeIdempotent | app/utils/database.py:21-37 | Serialising twice is serialising once. |
| Values.FillDefaultsSpec | app/study_agent/evaluation_utils.py:85-89 | After filling, a present key keeps its value and a missing required key holds its default. Any other key is still missing. |
| Values.ParseRendered | app/study_agent/evaluation_utils.py:92 | `int(str(i)) == i` for every integer. |
| Values.ParseGroupedExamples | app/study_agent/evaluation_utils.py:92 | `int` accepts single underscores between digits and rejects doubled or trailing ones. |
| Values.Repr | app/study_agent/pdf_reader_utils.py:397 | Inside a rendered list or dict, a string is a literal that reads back as the string. An ObjectId is `ObjectId('…')` around its quoted hex. Any other value is its `str`. |
| Values.ReprString | app/study_agent/pdf_reader_utils.py:397 | The literal opens and closes with the same quote. That quote is `"` iff the string holds `'` and no `"`. |
| Values.ReprStringRoundTrip | app/study_agent/pdf_reader_utils.py:397 | Reading back the literal of any string gives the string: quotes, backslashes, line breaks and unprintable Latin-1 characters are escaped. |
| Values.ReprApostrophe | app/study_agent/pdf_reader_utils.py:397 | `it's` is shown in double quotes, unescaped. |
| Values.ReprBothQuotes | app/study_agent/pdf_reader_utils.py:397 | A string holding both quotes is shown in single quotes with the apostrophe escaped. |
| Values.TruncateExamples | app/study_agent/evaluation_utils.py:92 | `int` truncates floats toward zero: 7.5 gives 7 and -7.5 gives -7. |

## Heading levels

The heading test at `app/study_agent/chunk_strategy.py:53` opens a chunk for any line whose stripped form starts with '#' and is longer than one character. So '###' and deeper headings split too. The model follows this code: see `Headings.HeadingLevels` and `Headings.ThirdLevelHeadingSplits`.

The docstring (line 33) speaks of "# and ##". `app/study_agent/chunk_strategy_tests.py:164-198` expects 6 chunks for its sample, on the assumption that '###' does not split. Under the code that sample has nine heading lines and no preamble. By `Headings.ChunkByHeadingsCount` it therefore gives nine chunks. This is a disagreement between the code and its test, and the code's behaviour is modelled.

## Left out

- Text: whitespace, case and digits are ASCII. Python's Unicode `isspace`, `lower` and `isdigit` agree on ASCII only. The Unicode-only cases, such as the Kelvin sign under `lower()`, are not modelled.
- Values.Lookup reads the first entry of a repeated key, where `json.loads` keeps the last. Parsed objects are taken to hold each key once.
- Values.Repr copies characters above U+00FF unchanged. Python escapes the ones it counts as non-printable, such as line separators, format characters and unassigned code points, as `\u` or `\U`.
- Values.Render does not compute the text of a float, and NaN and infinities are not representable. `int()` on Unicode digits is not modelled.
- Evaluation.ValidateSolutionFormat does not compute `completeness_score` (evaluation_utils.py:151-156), because it is a float. Its boolean and integer fields are modelled.
- Analytics.AvgQuestionsPerNote is stated over reals, not floats: only the zero guard and the ratio are meant.
- Analytics.ProgressPercentage is stated over reals, not floats: only the zero guard and the bound are meant.
- Analytics.GetWeakAreas takes records already typed: a missing `subject` or `last_activity` key (a `KeyError`) is not modelled.
- The Mongo aggregation pipelines, `count_documents`, `get_object_id`, and the list endpoints that map `serialize_object_id` are not modelled. Neither are timestamps (`suggested_at`, `processed_at`) or the insert itself, beyond which suggestions it would receive.
- All model calls (Gemini), embeddings, FAISS and Weaviate clients, PDF rendering, Cloudinary and the database are external. Their results are inputs: `Reply`, `Parser`, `Retriever`, the `Effects` of an agent run.
- Agent: `RAGManager(api_key=...)` at langgraph_agent.py:91 omits required constructor arguments. As written, the agent's manager is therefore always None, and its retrieval node takes the no-manager branch. The model keeps the manager as a parameter so that the other branches are stated too.
- Agent: the retrieval node's `except` branch cannot be reached, because `get_context_string_with_board` catches every exception itself (rag_utils.py:428-430).
- Agent: `process_request` (langgraph_agent.py:393-449), which reads an image and packages the run, is not modelled. The run itself is modelled by `Agent.Invoke`.
- The exception path of `process_image_with_gemini` and the page rendering around lines 239-258 of pdf_reader_utils.py are not modelled, and nor is a `response.text` that raises.
- `create_step_by_step_solution` and `solve_with_multiple_methods` (solve_utils.py), `quick_check_answer` (evaluation_utils.py), and the progressive, themed and context-aware generators of similar_question_utils.py are not modelled. In the comprehensive set the progressive and themed generator calls are commented out, and both lists are [] (similar_question_utils.py:367-368).
- Database.Remove deletes every entry with the key: a Python dict holds each key once, so this is `del obj[key]`.
- Logging, `pdb` calls, `os.path` checks and file reads carry no behaviour here and are not modelled.
- `test_chunking_with_sample_data` and the CLI and test scripts are not modelled.
