/**
 * The scoring scenarios of the repository's tests, stated over the tests' quizzes written out
 * with question and option ids numbered from 1, with the fuzzy matcher left open where the
 * outcome depends on it. `StoreScenarios` proves that the store builds these quizzes from the
 * tests' payloads.
 */
module ScoringExamples {
  import opened Wrappers
  import opened JsStrings
  import opened Model
  import opened Scoring

  function CapitalOfIndia(): Question {
    Question(1, "Capital of India?", SingleChoice,
      [AnswerOption(1, "New Delhi", true), AnswerOption(2, "Mumbai", false)], None)
  }

  function PrimeNumbers(): Question {
    Question(2, "Select prime numbers", MultipleChoice,
      [AnswerOption(1, "2", true), AnswerOption(2, "3", true),
       AnswerOption(3, "4", false), AnswerOption(4, "5", true)], None)
  }

  function LargestPlanet(): Question {
    Question(3, "Largest planet?", Text, [], Some("jupiter"))
  }

  function CapitalOfFrance(): Question {
    Question(1, "Capital of France?", SingleChoice,
      [AnswerOption(1, "Paris", true), AnswerOption(2, "London", false)], None)
  }

  function EvenNumbers(): Question {
    Question(2, "Select even numbers", MultipleChoice,
      [AnswerOption(1, "1", false), AnswerOption(2, "2", true),
       AnswerOption(3, "3", false), AnswerOption(4, "4", true)], None)
  }

  /** "General Knowledge": a single-choice, a multiple-choice and a text question. */
  function GeneralKnowledge(): seq<Question> {
    [CapitalOfIndia(), PrimeNumbers(), LargestPlanet()]
  }

  /** "Science Quiz": the same shapes with other options. */
  function ScienceQuiz(): seq<Question> {
    [CapitalOfFrance(), EvenNumbers(), LargestPlanet()]
  }

  /** Three answers score the sum of their points. */
  lemma TallyOfThree(questions: seq<Question>, a: Answer, b: Answer, c: Answer, fuzzy: FuzzyMatcher)
    ensures Tally(questions, [a, b, c], fuzzy)
      == Points(questions, a, fuzzy) + Points(questions, b, fuzzy) + Points(questions, c, fuzzy)
  {
    TallySnoc(questions, [], a, fuzzy);
    assert [] + [a] == [a];
    TallySnoc(questions, [a], b, fuzzy);
    assert [a] + [b] == [a, b];
    TallySnoc(questions, [a, b], c, fuzzy);
    assert [a, b] + [c] == [a, b, c];
  }

  /** A lower-case word without surrounding blanks normalises to itself. */
  lemma NormalizeOfNormal(s: string)
    requires s != [] && !IsWhitespace(s[0]) && !IsWhitespace(s[|s| - 1])
    requires forall i :: 0 <= i < |s| ==> !IsAsciiUpper(s[i])
    ensures Normalize(s) == s
  {
    TrimOfTrimmed(s);
    ToLowerOfLower(s);
  }

  /** A string never includes a longer one. */
  lemma NotIncludesLonger(s: string, p: string)
    requires |s| < |p|
    ensures !Includes(s, p)
  {
    if Includes(s, p) {
      IncludesNoLonger(s, p);
    }
  }

  /** A sentence that starts and ends with a non-blank normalises to something that
      contains its last word in lower case. */
  lemma NormalizedSentenceIncludesLastWord(prefix: string, word: string)
    requires prefix != [] && !IsWhitespace(prefix[0])
    requires word != [] && !IsWhitespace(word[|word| - 1])
    ensures Includes(Normalize(prefix + word), ToLower(word))
  {
    var s := prefix + word;
    assert s[0] == prefix[0] && s[|s| - 1] == word[|word| - 1];
    TrimOfTrimmed(s);
    ToLowerAppend(prefix, word);
    IncludesInfix(ToLower(prefix), ToLower(word), "");
    assert ToLower(prefix) + ToLower(word) + "" == ToLower(prefix) + ToLower(word);
  }

  lemma GeneralKnowledgeNumbered()
    ensures forall k :: 0 <= k < |GeneralKnowledge()| ==> GeneralKnowledge()[k].id == k + 1
  {
  }

  lemma ScienceQuizNumbered()
    ensures forall k :: 0 <= k < |ScienceQuiz()| ==> ScienceQuiz()[k].id == k + 1
  {
  }

  lemma JupiterNormalized()
    ensures Normalize("jupiter") == "jupiter"
  {
    NormalizeOfNormal("jupiter");
  }

  lemma JupitrNormalized()
    ensures Normalize("jupitr") == "jupitr"
  {
    NormalizeOfNormal("jupitr");
  }

  lemma JupiterLowered()
    ensures ToLower("Jupiter") == "jupiter"
  {
    ToLowerIgnoresCase("Jupiter", "jupiter");
    ToLowerOfLower("jupiter");
  }

  lemma SaturnLowered()
    ensures ToLower("Saturn") == "saturn"
  {
    ToLowerIgnoresCase("Saturn", "saturn");
    ToLowerOfLower("saturn");
  }

  lemma SaturnNormalized()
    ensures Normalize("Saturn") == "saturn"
  {
    TrimOfTrimmed("Saturn");
    SaturnLowered();
  }

  /** The normalised sentence contains the normalised correct answer. */
  lemma SentenceIncludesJupiter()
    ensures Includes(Normalize("The largest planet is Jupiter"), "jupiter")
  {
    assert "The largest planet is " + "Jupiter" == "The largest planet is Jupiter";
    NormalizedSentenceIncludesLastWord("The largest planet is ", "Jupiter");
    JupiterLowered();
  }

  /** Selecting option 1 answers "Capital of India?" right. */
  lemma NewDelhiCredited()
    ensures SingleChoiceCredited(CapitalOfIndia(), Many([1]))
  {
    SingleChoiceOneWinner(CapitalOfIndia(), Many([1]));
  }

  /** Options 1, 2 and 4 are exactly the primes. */
  lemma PrimesCredited()
    ensures MultipleChoiceCredited(PrimeNumbers(), Many([1, 2, 4]))
  {
    var o := PrimeNumbers().options;
    assert o[3..][1..] == [];
    assert CorrectIds(o[3..]) == [4];
    assert o[2..][1..] == o[3..];
    assert CorrectIds(o[2..]) == [4];
    assert o[1..][1..] == o[2..];
    assert CorrectIds(o[1..]) == [2, 4];
    assert CorrectIds(o) == [1, 2, 4];
    assert SelectedIds(Many([1, 2, 4])) == [1, 2, 4];
    MultipleChoiceIffSameMultiset(PrimeNumbers(), Many([1, 2, 4]));
  }

  /** A sentence ending in "Jupiter" is credited by containment, whatever the matcher says. */
  lemma SentenceCredited(fuzzy: FuzzyMatcher)
    ensures TextCredited(LargestPlanet(), Some("The largest planet is Jupiter"), fuzzy)
  {
    JupiterNormalized();
    SentenceIncludesJupiter();
  }

  /** A misspelt answer is not contained in the correct one: the matcher decides. */
  lemma TypoCreditedByMatcherOnly(fuzzy: FuzzyMatcher)
    ensures TextCredited(LargestPlanet(), Some("jupitr"), fuzzy) == fuzzy("jupiter", "jupitr", FuzzyThreshold)
  {
    JupiterNormalized();
    JupitrNormalized();
    NotIncludesLonger("jupitr", "jupiter");
  }

  /** "Saturn" is not "jupiter", unless the matcher says so. */
  lemma SaturnCreditedByMatcherOnly(fuzzy: FuzzyMatcher)
    ensures TextCredited(LargestPlanet(), Some("Saturn"), fuzzy) == fuzzy("jupiter", "saturn", FuzzyThreshold)
  {
    JupiterNormalized();
    SaturnNormalized();
    NotIncludesLonger("saturn", "jupiter");
  }

  /** Selecting option 2 answers "Capital of France?" wrong. */
  lemma LondonNotCredited()
    ensures !SingleChoiceCredited(CapitalOfFrance(), Many([2]))
  {
    SingleChoiceOneWinner(CapitalOfFrance(), Many([2]));
    assert CapitalOfFrance().options[1..][1..] == [];
    assert CorrectIds(CapitalOfFrance().options) == [1];
  }

  /** Options 1 and 3 are not the even numbers. */
  lemma OddsNotCredited()
    ensures !MultipleChoiceCredited(EvenNumbers(), Many([1, 3]))
  {
    var o := EvenNumbers().options;
    assert o[3..][1..] == [];
    assert CorrectIds(o[3..]) == [4];
    assert o[2..][1..] == o[3..];
    assert CorrectIds(o[2..]) == [4];
    assert o[1..][1..] == o[2..];
    assert CorrectIds(o[1..]) == [2, 4];
    assert CorrectIds(o) == [2, 4];
    assert SelectedIds(Many([1, 3])) == [1, 3];
    assert multiset([1, 3])[1] != multiset([2, 4])[1];
    MultipleChoiceIffSameMultiset(EvenNumbers(), Many([1, 3]));
  }

  lemma GeneralKnowledgeFinds(id: int)
    requires 1 <= id <= 3
    ensures FindQuestion(GeneralKnowledge(), id) == Some(GeneralKnowledge()[id - 1])
  {
    GeneralKnowledgeNumbered();
    FindQuestionNumbered(GeneralKnowledge(), id);
  }

  lemma ScienceQuizFinds(id: int)
    requires 1 <= id <= 3
    ensures FindQuestion(ScienceQuiz(), id) == Some(ScienceQuiz()[id - 1])
  {
    ScienceQuizNumbered();
    FindQuestionNumbered(ScienceQuiz(), id);
  }

  lemma NewDelhiScores(fuzzy: FuzzyMatcher)
    ensures Points(GeneralKnowledge(), Answer(1, Many([1]), None), fuzzy) == 1
  {
    GeneralKnowledgeFinds(1);
    NewDelhiCredited();
    PointsOfFound(GeneralKnowledge(), Answer(1, Many([1]), None), CapitalOfIndia(), fuzzy);
  }

  lemma PrimesScore(fuzzy: FuzzyMatcher)
    ensures Points(GeneralKnowledge(), Answer(2, Many([1, 2, 4]), None), fuzzy) == 1
  {
    GeneralKnowledgeFinds(2);
    PrimesCredited();
    PointsOfFound(GeneralKnowledge(), Answer(2, Many([1, 2, 4]), None), PrimeNumbers(), fuzzy);
  }

  lemma SentenceScores(fuzzy: FuzzyMatcher)
    ensures Points(GeneralKnowledge(), Answer(3, NoSelection, Some("The largest planet is Jupiter")), fuzzy) == 1
  {
    GeneralKnowledgeFinds(3);
    SentenceCredited(fuzzy);
    PointsOfFound(GeneralKnowledge(), Answer(3, NoSelection, Some("The largest planet is Jupiter")), LargestPlanet(), fuzzy);
  }

  /** The right answers are all credited, the text one by containment, so whatever the fuzzy
      matcher does the score is 3 of 3. */
  lemma GeneralKnowledgeAllCorrect(fuzzy: FuzzyMatcher)
    ensures |GeneralKnowledge()| == 3
    ensures Tally(GeneralKnowledge(), [
      Answer(1, Many([1]), None),
      Answer(2, Many([1, 2, 4]), None),
      Answer(3, NoSelection, Some("The largest planet is Jupiter"))], fuzzy) == 3
  {
    NewDelhiScores(fuzzy);
    PrimesScore(fuzzy);
    SentenceScores(fuzzy);
    TallyOfThree(GeneralKnowledge(), Answer(1, Many([1]), None), Answer(2, Many([1, 2, 4]), None),
      Answer(3, NoSelection, Some("The largest planet is Jupiter")), fuzzy);
  }

  /** A misspelt text answer scores exactly when the fuzzy matcher accepts it. */
  lemma TypoLeftToMatcher(fuzzy: FuzzyMatcher)
    ensures Tally(GeneralKnowledge(), [Answer(3, NoSelection, Some("jupitr"))], fuzzy)
      == if fuzzy("jupiter", "jupitr", FuzzyThreshold) then 1 else 0
  {
    var qs := GeneralKnowledge();
    var a := Answer(3, NoSelection, Some("jupitr"));
    GeneralKnowledgeFinds(3);
    TypoCreditedByMatcherOnly(fuzzy);
    PointsOfFound(qs, a, LargestPlanet(), fuzzy);
    assert [a][..0] == [];
  }

  lemma LondonScoresNothing(fuzzy: FuzzyMatcher)
    ensures Points(ScienceQuiz(), Answer(1, Many([2]), None), fuzzy) == 0
  {
    ScienceQuizFinds(1);
    LondonNotCredited();
    PointsOfFound(ScienceQuiz(), Answer(1, Many([2]), None), CapitalOfFrance(), fuzzy);
  }

  lemma OddsScoreNothing(fuzzy: FuzzyMatcher)
    ensures Points(ScienceQuiz(), Answer(2, Many([1, 3]), None), fuzzy) == 0
  {
    ScienceQuizFinds(2);
    OddsNotCredited();
    PointsOfFound(ScienceQuiz(), Answer(2, Many([1, 3]), None), EvenNumbers(), fuzzy);
  }

  lemma SaturnScoresByMatcherOnly(fuzzy: FuzzyMatcher)
    ensures Points(ScienceQuiz(), Answer(3, NoSelection, Some("Saturn")), fuzzy)
      == if fuzzy("jupiter", "saturn", FuzzyThreshold) then 1 else 0
  {
    ScienceQuizFinds(3);
    SaturnCreditedByMatcherOnly(fuzzy);
    PointsOfFound(ScienceQuiz(), Answer(3, NoSelection, Some("Saturn")), LargestPlanet(), fuzzy);
  }

  /** Wrong answers score nothing, given a matcher that does not take "saturn" for "jupiter". */
  lemma ScienceQuizAllWrong(fuzzy: FuzzyMatcher)
    requires !fuzzy("jupiter", "saturn", FuzzyThreshold)
    ensures |ScienceQuiz()| == 3
    ensures Tally(ScienceQuiz(), [
      Answer(1, Many([2]), None),
      Answer(2, Many([1, 3]), None),
      Answer(3, NoSelection, Some("Saturn"))], fuzzy) == 0
  {
    LondonScoresNothing(fuzzy);
    OddsScoreNothing(fuzzy);
    SaturnScoresByMatcherOnly(fuzzy);
    TallyOfThree(ScienceQuiz(), Answer(1, Many([2]), None), Answer(2, Many([1, 3]), None),
      Answer(3, NoSelection, Some("Saturn")), fuzzy);
  }

  /** Answering the same question twice counts twice: a one-question quiz can score 2 of 1. */
  lemma ScoreCanExceedTotal(fuzzy: FuzzyMatcher)
    ensures Tally([CapitalOfIndia()], [Answer(1, Single(1), None), Answer(1, Single(1), None)], fuzzy) == 2
  {
    var qs := [CapitalOfIndia()];
    var a := Answer(1, Single(1), None);
    FindQuestionNumbered(qs, 1);
    SingleChoiceOneWinner(CapitalOfIndia(), Single(1));
    PointsOfFound(qs, a, CapitalOfIndia(), fuzzy);
    RepeatedAnswerCountsAgain(qs, [], a, fuzzy);
    assert [] + [a, a] == [a, a];
  }
}
