# Verto Quiz API: quiz store, validator and scorer in Dafny

This project models the core of the Verto Quiz API, an in-memory quiz service. The model has three parts.

- **The store** keeps a list of quizzes and a quiz id counter. Its operations:
  - reset the store;
  - list the quizzes;
  - create a quiz, rejecting a title that an existing quiz already has up to case;
  - find a quiz by id;
  - add a batch of questions to a quiz;
  - list a quiz's questions.
- **The validator** checks a create-quiz payload and a question payload, in two steps:
  - the structural checks of the schemas: non-empty strings and a known type tag;
  - the per-type rules: a text question has at most 300 code units and a non-blank correct answer; a single-choice question has at least 2 options and exactly one correct; a multiple-choice question has at least 2 options and at least one correct.
- **The scorer** grades submitted answers against a quiz, one answer at a time:
  - single choice: the first selected id must be a correct option;
  - multiple choice: the selection must equal the correct ids up to order;
  - text: after trimming and lower-casing, the answer must contain the correct answer, or else pass a fuzzy matcher.

Modules:

- `Wrappers`: `Option` and `Result`.
- `JsStrings`: the JavaScript string built-ins the service uses.
  - `trim` covers the full ECMAScript whitespace set.
  - `toLowerCase` covers the ASCII letters only.
  - `includes` is a substring test.
  - `length` counts UTF-16 code units.
- `JsArrays`: the array built-ins.
  - `find` is `FindIndex`.
  - A `map` whose callback may throw is `MapOrFail`.
  - `Sort` stands in for the default `sort`, which orders numbers as strings. `Sort` is an insertion sort in numeric order, proved to be sorted and a permutation. Two lists sort equal exactly when they hold the same multiset, and that is the only use the scorer makes of it (see "## Left out").
- `Model`: the `Option`, `Question` and `Quiz` records, plus the invariant a stored question keeps.
- `Validation`: pure functions returning `Result`, with one error value per exception the code throws.
- `QuizService`: the store, as a class `QuizStore`.
  - Its fields are `quizzes: seq<Quiz>` and `quizIdCounter`.
  - Its methods carry `modifies` clauses and its functions carry `reads` clauses.
  - `Valid()` is the store invariant:
    - quiz ids are 1..n and the counter is n+1;
    - titles are distinct after lower-casing;
    - question ids in each quiz are 1..m;
    - every stored question satisfies the validator's rules.
- `Scoring`: `ScoreQuiz` walks the answers in a loop; its score equals `Tally`, a recursive sum of each answer's points.
- `ScoringExamples`: the scenarios of the repository's scoring tests, stated over the tests' quizzes written out as question records.
- `StoreScenarios`: the scoring tests restated as verified methods over the store. A fresh store creates the quiz and adds the tests' payloads one call at a time. The quiz it then holds is exactly the one `ScoringExamples` grades. The right answers score 3 of 3. The misspelt and the wrong text answers score as the fuzzy matcher decides.

Behaviour of the code that a reader might not expect, and that the model keeps:

- A quiz title is not trimmed. `ValidateCreateQuiz` returns it unchanged, and `TitleTaken` compares titles after lower-casing only.
- A text question that carries options, or a choice question that carries a `correctAnswer`, is accepted. The rules are per type only.
- Multiple-choice grading compares the sorted lists. This is multiset equality, not set equality, so a selection that repeats a correct id is not credited (`MultipleChoiceRejectsRepeats`).

## Model

| member | source | states |
|---|---|---|
| JsStrings.Trim | src/utils/validation.ts:30 | The input is a run of whitespace, then the result, then a run of whitespace. The result neither starts nor ends with whitespace, so it is the input with all leading and trailing whitespace removed. It is empty exactly when the input is whitespace only. |
| JsStrings.TrimIdempotent | src/services/quizService.ts:104-105 | Trimming twice is the same as trimming once. |
| JsStrings.TrimOfTrimmed | src/services/quizService.ts:104-105 | A string that neither starts nor ends with whitespace is left as it is by trim. |
| JsStrings.ToLower | src/services/quizService.ts:25 | Lower-casing keeps the length and leaves no upper-case ASCII letter. |
| JsStrings.ToLowerIdempotent | src/services/quizService.ts:104-105 | Lower-casing twice is the same as lower-casing once. |
| JsStrings.ToLowerIgnoresCase | src/services/quizService.ts:25 | Strings that differ only in the case of letters lower-case to the same string. |
| JsStrings.ToLowerAppend | src/services/quizService.ts:104-105 | Lower-casing distributes over concatenation. |
| JsStrings.ToLowerOfLower | src/services/quizService.ts:104-105 | A string with no upper-case letter is its own lower case. |
| JsStrings.Includes | src/services/quizService.ts:109 | `s.includes(p)`: `p` is a prefix of `s` or of one of its suffixes. |
| JsStrings.IncludesIffOccurs | src/services/quizService.ts:109 | `includes` holds if and only if `p` occurs in `s` at some position. |
| JsStrings.IncludesInfix | src/services/quizService.ts:109 | `includes` finds a string wherever it occurs inside another. |
| JsStrings.IncludesSelf | src/services/quizService.ts:109 | Every string includes itself. |
| JsStrings.IncludesNoLonger | src/services/quizService.ts:109 | A string includes only strings no longer than itself. |
| JsStrings.Utf16Length | src/utils/validation.ts:27 | `length` is between one and two code units per character. |
| JsArrays.FindIndex | src/services/quizService.ts:25 | `find` returns the first element satisfying the predicate. It returns none exactly when no element does. |
| JsArrays.MapOrFail | src/services/quizService.ts:52 | A `map` whose callback throws: it succeeds exactly when every element succeeds, and then gives each element's result in order. Otherwise it fails with the first element's error. |
| JsArrays.Sort | src/services/quizService.ts:133-135 | The result is sorted and is a permutation of the input. |
| JsArrays.SortedEqualIffSameMultiset | src/services/quizService.ts:136 | Two lists sort equal if and only if they hold the same multiset. |
| Model.CorrectIds | src/services/quizService.ts:135 | An id is among the correct ids exactly when some option flagged correct carries it. |
| Validation.TypeTag | src/utils/validation.ts:14 | Each question type's tag parses back to that type. |
| Validation.ParseQuestionType | src/utils/validation.ts:14 | A type tag is accepted exactly when it is one of the three enum values. |
| Validation.ValidateCreateQuiz | src/utils/validation.ts:3-5 | Accepts exactly when the title is present and non-empty. An accepted title is returned untrimmed. Any other payload fails with the title issue. |
| Validation.OptionIssues | src/utils/validation.ts:7-10 | There are no issues exactly when every option text is non-empty. Each issue names the position of an empty option text. |
| Validation.SchemaIssues | src/utils/validation.ts:12-17 | There are no structural issues exactly when the text is non-empty, the tag is one of the three values and every option text is non-empty. |
| Validation.TypeRulesHold | src/utils/validation.ts:26-53 | The per-type rules. A text question has at most 300 code units and a non-blank correct answer. A single-choice question has at least 2 options, exactly one marked correct. A multiple-choice question has at least 2 options, at least one marked correct. |
| Validation.CountMarked | src/utils/validation.ts:39 | The count of options flagged correct, where an omitted flag counts as false. It is 0 exactly when no option is flagged. |
| Validation.ValidateQuestionPayload | src/utils/validation.ts:23-56 | See below this table. |
| Validation.ValidateAll | src/services/quizService.ts:52 | The batch validates exactly when every payload does. The results are the payloads' results in order, and each is accepted by the rules. |
| QuizService.TitleTaken | src/services/quizService.ts:25 | Some stored quiz's title equals the given title after both are lower-cased, without trimming. |
| QuizService.TitleComparisonIgnoresCaseOnly | src/services/quizService.ts:25 | "math" collides with a stored "Math", but " math" does not. |
| QuizService.BuildOptions | src/services/quizService.ts:59-63 | Options get ids 1..k in payload order, the text is copied, and an omitted `isCorrect` is read as false. |
| QuizService.BuildQuestion | src/services/quizService.ts:65-71 | The question stored for a validated payload: the given id, the payload's text, type and correct answer, and the built options. |
| QuizService.CorrectCountKept | src/services/quizService.ts:59-63 | Building the options keeps the number flagged correct. |
| QuizService.ValidatedQuestionWellFormed | src/services/quizService.ts:57-71 | A question built from an accepted payload satisfies the stored-question invariant, whatever id it gets. |
| QuizService.AppendQuestionKeepsInvariant | src/services/quizService.ts:74 | Pushing a well-formed question that carries the next id of its quiz keeps the store invariant. |
| QuizService.QuizStore.constructor | src/services/quizService.ts:7-8 | The store starts empty with next id 1, and is valid. |
| QuizService.QuizStore.ResetQuizzes | src/services/quizService.ts:11-14 | The store is empty, the next id is 1, and the store is valid. |
| QuizService.QuizStore.GetAllQuizzes | src/services/quizService.ts:17 | In a valid store, returns the quizzes in creation order with ids 1..n. |
| QuizService.QuizStore.CreateNewQuiz | src/services/quizService.ts:20-37 | See below this table. |
| QuizService.QuizStore.FindQuizById | src/services/quizService.ts:40 | Returns the quiz with that id, and none exactly when no quiz has it. In a valid store, it finds exactly the ids 1..counter-1, each at its position. |
| QuizService.QuizStore.AddQuestionsToQuiz | src/services/quizService.ts:43-79 | See below this table. |
| QuizService.QuizStore.PushQuestions | src/services/quizService.ts:57-76 | Each validated question is built with ids continuing from the quiz's count and appended in order. Only that quiz changes, and the store stays valid. |
| QuizService.QuizStore.PushQuestion | src/services/quizService.ts:74 | Appends one question to the quiz at a position. Only that quiz changes, and the store stays valid. |
| QuizService.QuizStore.GetQuestionsOfQuiz | src/services/quizService.ts:82-86 | Fails with QUIZ_NOT_FOUND exactly when no quiz has that id. In a valid store, returns that quiz's questions, numbered 1..m, each well formed. |
| Scoring.FindQuestion | src/services/quizService.ts:98 | Returns a question with that id, and none exactly when no question has it. With questions numbered 1..n, it finds exactly the ids 1..n. |
| Scoring.FindQuestionNumbered | src/services/quizService.ts:98 | With questions numbered 1..n, the id k finds the k-th question. |
| Scoring.Normalize | src/services/quizService.ts:104-105 | Trim then lower-case. The result is empty exactly when the input is blank. It is no longer than the input because only ASCII letters are lowered (see `JsStrings.ToLower` under "## Left out"). |
| Scoring.FirstSelected | src/services/quizService.ts:122-124 | The id a single-choice answer selects: the value itself, or the first element of an array. There is none exactly when nothing is selected or the array is empty. |
| Scoring.DropZeros | src/services/quizService.ts:133 | `filter(Boolean)` keeps every non-zero id as often as it occurs and drops every 0. |
| Scoring.SelectedIds | src/services/quizService.ts:129-133 | The ids a multiple-choice answer selects: a single value counts as a one-element array and an absent one as empty. Every non-zero id is kept as often as it occurs, and no 0 is kept. |
| Scoring.SingleChoiceCredited | src/services/quizService.ts:120-125 | A single-choice answer is credited exactly when some correct option carries the selected id. |
| Scoring.MultipleChoiceCredited | src/services/quizService.ts:127-136 | A multiple-choice answer is credited when the sorted selected ids equal the sorted correct ids; `MultipleChoiceIffSameMultiset` states what that means. |
| Scoring.TextCredited | src/services/quizService.ts:102-118 | A text answer is credited when the normalised correct answer is non-empty and either the normalised submission includes it or the fuzzy matcher accepts the pair at 0.7; `TextGradingCases` splits the cases. |
| Scoring.Credited | src/services/quizService.ts:102-137 | Grading dispatched on the question's type: text, single choice or multiple choice. |
| Scoring.Points | src/services/quizService.ts:97-137 | An answer earns at most one point, and none when its question id is unknown. |
| Scoring.Tally | src/services/quizService.ts:97-138 | The score is at most the number of answers. |
| Scoring.GradeAnswer | src/services/quizService.ts:97-137 | The loop body credits an answer exactly when it earns a point. |
| Scoring.ScoreQuiz | src/services/quizService.ts:89-141 | See below this table. |
| Scoring.TallySnoc | src/services/quizService.ts:97-138 | One more answer adds exactly its own points to the score. |
| Scoring.TallyAppend | src/services/quizService.ts:97-138 | The score of two runs of answers is the sum of their scores. |
| Scoring.TallyPermutation | src/services/quizService.ts:97-138 | Permuting the answers does not change the score. |
| Scoring.UnknownAnswerIgnored | src/services/quizService.ts:98-99 | An answer whose question id matches no question changes the score nowhere in the list. |
| Scoring.MultipleChoiceIffSameMultiset | src/services/quizService.ts:127-137 | A multiple-choice answer is credited if and only if its non-zero ids and the correct ids are the same multiset. |
| Scoring.MultipleChoiceRejectsRepeats | src/services/quizService.ts:127-137 | On numbered options, a selection that repeats an id is never credited. |
| Scoring.CorrectIdsIncreasing | src/services/quizService.ts:135 | On options with increasing ids, the correct ids increase too. |
| Scoring.SingleChoiceOneWinner | src/services/quizService.ts:120-126 | On a stored single-choice question there is exactly one correct id. The answer is credited if and only if its first selected id is that one. |
| Scoring.CorrectTextAnswerCredited | src/services/quizService.ts:102-112 | On a stored text question, an answer equal to the correct one up to surrounding whitespace and ASCII case is always credited, whatever the matcher says. |
| Scoring.TextGradingCases | src/services/quizService.ts:102-118 | See below this table. |
| Scoring.StoredTextQuestionGradable | src/services/quizService.ts:107 | A stored text question's normalised correct answer is never empty, so the scorer's "no correct answer" skip cannot happen for it. |
| Scoring.RepeatedAnswerCountsAgain | src/services/quizService.ts:97-100 | An answer repeated for a question on which it is credited earns its point each time. |
| ScoringExamples.GeneralKnowledgeAllCorrect | src/tests/scoring.test.ts:57-73 | The General Knowledge quiz scores 3 of 3 for the right answers, whatever the fuzzy matcher does. |
| ScoringExamples.TypoLeftToMatcher | src/tests/scoring.test.ts:76-80 | The answer "jupitr" scores exactly when the fuzzy matcher accepts it. |
| ScoringExamples.ScienceQuizAllWrong | src/tests/scoring.test.ts:124-133 | The Science quiz scores 0 of 3 for the wrong answers, given a matcher that does not accept "saturn" for "jupiter". |
| ScoringExamples.ScoreCanExceedTotal | src/services/quizService.ts:97-100 | A one-question quiz answered twice scores 2. |
| StoreScenarios.IndiaBuildsCapitalOfIndia | src/tests/scoring.test.ts:21-30 | The "Capital of India?" payload validates and is stored as question 1, with options 1 and 2 and "New Delhi" correct. |
| StoreScenarios.PrimesBuildPrimeNumbers | src/tests/scoring.test.ts:33-44 | The "Select prime numbers" payload validates and is stored as question 2, with options 1 to 4 and "2", "3" and "5" correct. |
| StoreScenarios.PlanetBuildsLargestPlanet | src/tests/scoring.test.ts:47-54 | The "Largest planet?" payload validates and is stored as text question 3 with correct answer "jupiter". |
| StoreScenarios.FranceBuildsCapitalOfFrance | src/tests/scoring.test.ts:87-96 | The "Capital of France?" payload validates and is stored as question 1, with "Paris" correct. |
| StoreScenarios.EvensBuildEvenNumbers | src/tests/scoring.test.ts:99-110 | The "Select even numbers" payload validates and is stored as question 2, with "2" and "4" correct. |
| StoreScenarios.BuildQuiz | src/tests/scoring.test.ts:18-54 | A fresh store, one quiz created and three single-payload batches added: the store holds quiz 1 with the three built questions in order, and the calls return ids 1, 2 and 3. |
| StoreScenarios.GeneralKnowledgeTest | src/tests/scoring.test.ts:16-81 | The General Knowledge quiz, built through the store and answered with the returned question ids, scores 3 of 3. The misspelt "jupitr" scores 1 of 3 exactly when the fuzzy matcher accepts it. |
| StoreScenarios.ScienceQuizTest | src/tests/scoring.test.ts:83-133 | The Science quiz, built through the store, scores 0 of 3 for the wrong answers, given a matcher that does not accept "saturn" for "jupiter". |

Details for the rows marked "See below this table":

- `Validation.ValidateQuestionPayload`:
  - Accepts if and only if there are no structural issues and the type's rules hold.
  - An accepted payload is returned unchanged and satisfies `Accepted`.
  - It fails with the structural issues exactly when there are some.
  - It fails with "too long" exactly when a structurally valid text question exceeds 300 code units; so the length check comes first.
  - It fails with "missing answer" exactly when a structurally valid text question is within the limit and has no correct answer, or a blank one.
  - It fails with "too few single-choice options" exactly when a structurally valid single-choice question has no options or fewer than 2.
  - It fails with "not exactly one correct" exactly when such a question has at least 2 options and a number marked correct other than 1.
  - The multiple-choice errors follow the same pattern: "too few options" for fewer than 2, then "no correct option" when none is marked.
  - A non-text question never fails with a text error.
- `QuizService.QuizStore.CreateNewQuiz`:
  - It succeeds if and only if the title is present and non-empty and no quiz has it up to case.
  - An invalid title fails with the validation error.
  - Otherwise, it fails with QUIZ_EXISTS exactly when the title is taken up to case.
  - Any failure leaves the store and the counter unchanged.
  - On success, it appends exactly one quiz with the old counter as id, the given title and no questions, and adds 1 to the counter.
  - The store stays valid.
- `QuizService.QuizStore.AddQuestionsToQuiz`:
  - It succeeds if and only if the quiz exists, the batch is non-empty and every payload in it validates.
  - An unknown quiz fails with QUIZ_NOT_FOUND.
  - Then an empty batch fails with INVALID_QUESTIONS_ARRAY.
  - Then an invalid batch fails with the first validation error.
  - Any failure leaves the store unchanged.
  - On success, the questions get ids len+1..len+n in batch order and are appended to that quiz. The same list is returned. No other quiz and no earlier question changes, and the store stays valid.
- `Scoring.ScoreQuiz`:
  - The total is the number of questions.
  - A quiz without questions scores 0.
  - Otherwise the score is the sum of the answers' points, so it is at most the number of answers.
- `Scoring.TextGradingCases`:
  - A blank correct answer never credits.
  - An answer containing the correct one after normalisation always credits.
  - Otherwise the fuzzy matcher decides, at threshold 0.7.

## Left out

- The fuzzy matcher (`Searcher` of the `fast-fuzzy` library) is a foreign library whose algorithm is not part of this model. It is a parameter of type `(string, string, real) -> bool`: the normalised correct answer, the normalised submission and the threshold 0.7. The outcome of a misspelt answer is therefore stated in terms of that parameter.
- Zod's parsing of untyped payloads is not modelled. Payloads are typed records whose optional fields are `Option`s.
  - A field of the wrong JSON type cannot be expressed.
  - Of the schemas, the model keeps the length-1 checks, the type enum and the optional fields.
  - The schema error is a list of issues, not Zod's error object.
- JsStrings.ToLower: lowers only the ASCII letters A–Z. JavaScript's full Unicode case mapping is not modelled. That mapping can lengthen a string (`"İ".toLowerCase()` has two characters), so the length bounds of `ToLower` and `Scoring.Normalize` hold only for this ASCII mapping.
- The JavaScript coercions in multiple-choice grading are simplified:
  - `map(Number)` on string ids: selections are integers.
  - `filter(Boolean)` is modelled as dropping 0.
  - The default string-ordered `sort` is replaced by a numeric sort. Both sides are sorted with the same order, so equality of the sorted lists is multiset equality either way.
  - `JSON.stringify` equality is list equality.
- The non-array `questionsPayload` check of `addQuestionsToQuiz` is not modelled: a batch is always a sequence, so only the empty batch is rejected.
- Question and answer ids are integers, so an id of another JSON type cannot be expressed. Under `===`, a question id or a single-choice id of another type would never match. Multiple-choice ids are coerced by `map(Number)`; that coercion is covered by the multiple-choice entry above.
- The error message strings are not modelled. Each thrown error is a constructor of `StoreError` or `ValidationError`.
- The informational `message` of the zero-question result is not modelled.
- QuizService.QuizStore.CreateNewQuiz, QuizService.QuizStore.FindQuizById, QuizService.QuizStore.GetQuestionsOfQuiz: return values, not the live objects the source hands out. In the source, the quiz returned by `createNewQuiz` or `findQuizById` is the stored object, and `getQuestionsOfQuiz` returns the stored array. Later pushes show through these references, and a caller's writes to them change the store. The repository's scoring test relies on this: it scores the quiz object returned before any question was added. The model does not capture that aliasing; `StoreScenarios` reads the quiz back with `FindQuizById` after the additions instead.
- Answers are typed `Answer` records, so a malformed answer cannot be expressed. In the source, a `null` answer throws a TypeError at src/services/quizService.ts:99, where `ans.questionId` is read. A number, string or boolean answer has no `questionId`, so it matches no question and is skipped at line 100; this is the case `Scoring.UnknownAnswerIgnored` covers for an unknown id. A truthy non-string `textAnswer` on a text question throws at line 104, where `.trim()` is called. The model expresses none of these answers, and neither throw is modelled.
- QuizService.QuizStore.GetAllQuizzes: returns the list by value. The live array that the source hands out can be mutated by callers, and that aliasing is not modelled.
- The store's module-level state is a `QuizStore` object. Concurrency and persistence are not modelled, since the service has neither.
- JavaScript strings are sequences of UTF-16 code units, and a JSON payload can carry a lone surrogate such as `"\ud800"`. A Dafny `char` is a Unicode scalar value, so such a string cannot be expressed. `Utf16Length`, `Trim` and `Includes` therefore cover well-formed strings only; on those they agree with the code-unit behaviour of the source.
- The HTTP layer (controllers, routes, server) is not part of this model.
- The unused `questionIdCounter` and `optionIdCounter` of src/model.ts are not modelled.
