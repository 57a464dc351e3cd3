/**
 * The repository's scoring tests restated as verified methods over the store: a fresh store, a
 * quiz created by title, one question added per call, then the quiz scored. The questions the
 * store builds are the ones the scoring scenarios grade. The right answers score 3 of 3; the
 * misspelt and the wrong text answers score as the fuzzy matcher decides.
 */
module StoreScenarios {
  import opened Wrappers
  import opened Model
  import opened Validation
  import opened QuizService
  import opened Scoring
  import opened ScoringExamples

  function IndiaPayload(): QuestionPayload {
    QuestionPayload("Capital of India?", "single_choice",
      Some([OptionPayload("New Delhi", Some(true)), OptionPayload("Mumbai", Some(false))]), None)
  }

  function PrimesPayload(): QuestionPayload {
    QuestionPayload("Select prime numbers", "multiple_choice",
      Some([OptionPayload("2", Some(true)), OptionPayload("3", Some(true)),
            OptionPayload("4", Some(false)), OptionPayload("5", Some(true))]), None)
  }

  function PlanetPayload(): QuestionPayload {
    QuestionPayload("Largest planet?", "text", Some([]), Some("jupiter"))
  }

  function FrancePayload(): QuestionPayload {
    QuestionPayload("Capital of France?", "single_choice",
      Some([OptionPayload("Paris", Some(true)), OptionPayload("London", Some(false))]), None)
  }

  function EvensPayload(): QuestionPayload {
    QuestionPayload("Select even numbers", "multiple_choice",
      Some([OptionPayload("1", Some(false)), OptionPayload("2", Some(true)),
            OptionPayload("3", Some(false)), OptionPayload("4", Some(true))]), None)
  }

  /** A batch of one payload validates to that payload's validated question. */
  lemma SingleBatch(p: QuestionPayload, v: ValidQuestion)
    requires ValidateQuestionPayload(p) == Success(v)
    ensures ValidateAll([p]) == Success([v])
  {
    var r := ValidateAll([p]);
    assert r.Success?;
    assert |r.value| == 1 && r.value[0] == v;
    assert r.value == [v];
  }

  /** Validating a payload and building it under `id` gives question `q`. */
  predicate Builds(p: QuestionPayload, id: int, q: Question) {
    ValidateAll([p]).Success? && BuildQuestion(ValidateAll([p]).value[0], id) == q
  }

  lemma IndiaBuildsCapitalOfIndia()
    ensures Builds(IndiaPayload(), 1, CapitalOfIndia())
  {
    var p := IndiaPayload();
    var v := ValidQuestion(p.text, SingleChoice, p.options, p.correctAnswer);
    assert SchemaIssues(p) == [];
    assert CountMarked(p.options.value) == 1;
    SingleBatch(p, v);
  }

  lemma PrimesBuildPrimeNumbers()
    ensures Builds(PrimesPayload(), 2, PrimeNumbers())
  {
    var p := PrimesPayload();
    var v := ValidQuestion(p.text, MultipleChoice, p.options, p.correctAnswer);
    assert SchemaIssues(p) == [];
    assert CountMarked(p.options.value) >= 1;
    SingleBatch(p, v);
  }

  lemma PlanetBuildsLargestPlanet()
    ensures Builds(PlanetPayload(), 3, LargestPlanet())
  {
    var p := PlanetPayload();
    var v := ValidQuestion(p.text, Text, p.options, p.correctAnswer);
    assert SchemaIssues(p) == [];
    assert !JsStrings.IsWhitespace(p.correctAnswer.value[0]);
    SingleBatch(p, v);
  }

  lemma FranceBuildsCapitalOfFrance()
    ensures Builds(FrancePayload(), 1, CapitalOfFrance())
  {
    var p := FrancePayload();
    var v := ValidQuestion(p.text, SingleChoice, p.options, p.correctAnswer);
    assert SchemaIssues(p) == [];
    assert CountMarked(p.options.value) == 1;
    SingleBatch(p, v);
  }

  lemma EvensBuildEvenNumbers()
    ensures Builds(EvensPayload(), 2, EvenNumbers())
  {
    var p := EvensPayload();
    var v := ValidQuestion(p.text, MultipleChoice, p.options, p.correctAnswer);
    assert SchemaIssues(p) == [];
    assert CountMarked(p.options.value) >= 1;
    SingleBatch(p, v);
  }

  /** One `addQuestionsToQuiz` call with a batch of one payload on a store holding only quiz 1:
      the question the payload builds is appended to that quiz under the next id. */
  method AddOne(store: QuizStore, title: string, qs: seq<Question>, p: QuestionPayload, q: Question)
    returns (id: int)
    requires store.Valid() && store.quizzes == [Quiz(1, title, qs)]
    requires Builds(p, |qs| + 1, q)
    modifies store
    ensures store.Valid() && store.quizzes == [Quiz(1, title, qs + [q])]
    ensures id == |qs| + 1
  {
    var added := store.AddQuestionsToQuiz(1, [p]);
    assert added.value == [q];
    id := added.value[0].id;
  }

  /** A fresh store and one `createNewQuiz` call with a non-empty title: quiz 1, no questions. */
  method CreateOne(title: string) returns (store: QuizStore)
    requires title != []
    ensures fresh(store) && store.Valid() && store.quizzes == [Quiz(1, title, [])]
  {
    store := new QuizStore();
    var created := store.CreateNewQuiz(QuizPayload(Some(title)));
  }

  /** Creates a quiz in a fresh store and adds the three payloads, one call each; returns the
      quiz as the store then holds it and the ids the three calls gave their questions. */
  method BuildQuiz(title: string, p1: QuestionPayload, p2: QuestionPayload, p3: QuestionPayload, q1: Question, q2: Question, q3: Question)
    returns (quiz: Quiz, id1: int, id2: int, id3: int)
    requires title != []
    requires Builds(p1, 1, q1) && Builds(p2, 2, q2) && Builds(p3, 3, q3)
    ensures quiz == Quiz(1, title, [q1, q2, q3])
    ensures id1 == 1 && id2 == 2 && id3 == 3
  {
    var store := CreateOne(title);
    id1 := AddOne(store, title, [], p1, q1);
    assert [] + [q1] == [q1];
    id2 := AddOne(store, title, [q1], p2, q2);
    assert [q1] + [q2] == [q1, q2];
    id3 := AddOne(store, title, [q1, q2], p3, q3);
    assert [q1, q2] + [q3] == [q1, q2, q3];
    var found := store.FindQuizById(1);
    quiz := found.value;
  }

  /** The first test: the quiz built through the store scores 3 of 3 for the right answers,
      and the misspelt "jupitr" scores exactly when the fuzzy matcher accepts it. */
  method GeneralKnowledgeTest(fuzzy: FuzzyMatcher) returns (result: ScoreResult, typoResult: ScoreResult)
    ensures result == ScoreResult(3, 3)
    ensures typoResult == ScoreResult(if fuzzy("jupiter", "jupitr", FuzzyThreshold) then 1 else 0, 3)
  {
    IndiaBuildsCapitalOfIndia();
    PrimesBuildPrimeNumbers();
    PlanetBuildsLargestPlanet();
    var quiz, single, multiple, text :=
      BuildQuiz("General Knowledge", IndiaPayload(), PrimesPayload(), PlanetPayload(),
        CapitalOfIndia(), PrimeNumbers(), LargestPlanet());
    var answers := [
      Answer(single, Many([1]), None),
      Answer(multiple, Many([1, 2, 4]), None),
      Answer(text, NoSelection, Some("The largest planet is Jupiter"))];
    GeneralKnowledgeAllCorrect(fuzzy);
    result := ScoreQuiz(quiz, answers, fuzzy);
    TypoLeftToMatcher(fuzzy);
    typoResult := ScoreQuiz(quiz, [Answer(text, NoSelection, Some("jupitr"))], fuzzy);
  }

  /** The second test: the wrong answers score 0 of 3, given a matcher that does not take
      "saturn" for "jupiter". */
  method ScienceQuizTest(fuzzy: FuzzyMatcher) returns (result: ScoreResult)
    requires !fuzzy("jupiter", "saturn", FuzzyThreshold)
    ensures result == ScoreResult(0, 3)
  {
    FranceBuildsCapitalOfFrance();
    EvensBuildEvenNumbers();
    PlanetBuildsLargestPlanet();
    var quiz, single, multiple, text :=
      BuildQuiz("Science Quiz", FrancePayload(), EvensPayload(), PlanetPayload(),
        CapitalOfFrance(), EvenNumbers(), LargestPlanet());
    var answers := [
      Answer(single, Many([2]), None),
      Answer(multiple, Many([1, 3]), None),
      Answer(text, NoSelection, Some("Saturn"))];
    ScienceQuizAllWrong(fuzzy);
    result := ScoreQuiz(quiz, answers, fuzzy);
  }
}
