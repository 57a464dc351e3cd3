/**
 * The quiz entities: an option of a choice question, a question and a quiz, plus the
 * invariant every question keeps once the store has accepted it.
 */
module Model {
  import opened Wrappers
  import opened JsStrings

  /** The type tag of a question. */
  datatype QuestionType = SingleChoice | MultipleChoice | Text

  /** An option of a choice question; `id` is its position in the question, from 1. */
  datatype AnswerOption = AnswerOption(id: int, text: string, isCorrect: bool)

  /** A question; `correctAnswer` is what a text question is graded against. */
  datatype Question = Question(
    id: int,
    text: string,
    qtype: QuestionType,
    options: seq<AnswerOption>,
    correctAnswer: Option<string>)

  /** A quiz with its questions in the order they were added. */
  datatype Quiz = Quiz(id: int, title: string, questions: seq<Question>)

  /** The ids of the options flagged correct, in option order:
      `options.filter(o => o.isCorrect).map(o => o.id)`. */
  function CorrectIds(options: seq<AnswerOption>): (r: seq<int>)
    ensures |r| <= |options|
    ensures forall id :: id in r <==> exists k :: 0 <= k < |options| && options[k].isCorrect && options[k].id == id
  {
    if options == [] then []
    else
      var rest := CorrectIds(options[1..]);
      assert forall k :: 0 < k < |options| ==> options[k] == options[1..][k - 1];
      if options[0].isCorrect then [options[0].id] + rest else rest
  }

  /** Option ids are the positions 1..k of the options. */
  predicate OptionsNumbered(options: seq<AnswerOption>) {
    forall k :: 0 <= k < |options| ==> options[k].id == k + 1
  }

  /** What a stored question satisfies: it passed validation and its options were numbered. */
  predicate WellFormedQuestion(q: Question) {
    && Utf16Length(q.text) >= 1
    && OptionsNumbered(q.options)
    && (forall k :: 0 <= k < |q.options| ==> Utf16Length(q.options[k].text) >= 1)
    && match q.qtype
       case Text =>
         Utf16Length(q.text) <= 300 && q.correctAnswer.Some? && !AllWhitespace(q.correctAnswer.value)
       case SingleChoice =>
         |q.options| >= 2 && |CorrectIds(q.options)| == 1
       case MultipleChoice =>
         |q.options| >= 2 && |CorrectIds(q.options)| >= 1
  }

  /** What a stored quiz satisfies: a non-empty title and questions numbered 1..n, each well formed. */
  predicate WellFormedQuiz(quiz: Quiz) {
    && Utf16Length(quiz.title) >= 1
    && forall k :: 0 <= k < |quiz.questions| ==>
         quiz.questions[k].id == k + 1 && WellFormedQuestion(quiz.questions[k])
  }
}
