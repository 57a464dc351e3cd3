/**
 * The in-memory quiz store: a list of quizzes and a quiz id counter, with operations to
 * reset it, create a quiz, look one up, add a batch of questions and list a quiz's questions.
 */
module QuizService {
  import opened Wrappers
  import opened JsStrings
  import opened JsArrays
  import opened Model
  import opened Validation

  /** The errors the store throws. */
  datatype StoreError =
    | Invalid(reason: ValidationError)
    | QuizExists
    | QuizNotFound
    | InvalidQuestionsArray

  /** Some quiz already has `title`, compared after lower-casing (and without trimming). */
  predicate TitleTaken(quizzes: seq<Quiz>, title: string) {
    exists i :: 0 <= i < |quizzes| && ToLower(quizzes[i].title) == ToLower(title)
  }

  /** Titles are compared after lower-casing only: a title differing in ASCII case from a
      stored one is taken, one differing by surrounding spaces is not. */
  lemma TitleComparisonIgnoresCaseOnly()
    ensures TitleTaken([Quiz(1, "Math", [])], "math")
    ensures !TitleTaken([Quiz(1, "Math", [])], " math")
  {
    ToLowerIgnoresCase("Math", "math");
    assert ToLower([Quiz(1, "Math", [])][0].title) == ToLower("math");
    assert |ToLower(" math")| == 5;
  }

  /** The options of a new question: ids 1..k in payload order, the text copied, an omitted
      `isCorrect` read as false; a question without options gets none. */
  function BuildOptions(options: Option<seq<OptionPayload>>): (r: seq<AnswerOption>)
    ensures OptionsNumbered(r)
    ensures |r| == |options.GetOr([])|
    ensures forall k :: 0 <= k < |r| ==>
      r[k].text == options.GetOr([])[k].text && (r[k].isCorrect <==> options.GetOr([])[k].isCorrect == Some(true))
  {
    var os := options.GetOr([]);
    seq(|os|, k requires 0 <= k < |os| => AnswerOption(k + 1, os[k].text, os[k].isCorrect == Some(true)))
  }

  /** The question stored for a validated payload under the id `id`. */
  function BuildQuestion(v: ValidQuestion, id: int): Question {
    Question(id, v.text, v.qtype, BuildOptions(v.options), v.correctAnswer)
  }

  /** Building options keeps the number of options flagged correct. */
  lemma {:induction false} CorrectCountKept(built: seq<AnswerOption>, given: seq<OptionPayload>)
    requires |built| == |given|
    requires forall k :: 0 <= k < |built| ==> (built[k].isCorrect <==> given[k].isCorrect == Some(true))
    ensures |CorrectIds(built)| == CountMarked(given)
  {
    if built != [] {
      CorrectCountKept(built[1..], given[1..]);
    }
  }

  /** A question built from an accepted payload satisfies the stored-question invariant,
      whatever id it gets. */
  lemma ValidatedQuestionWellFormed(v: ValidQuestion, id: int)
    requires Accepted(v)
    ensures WellFormedQuestion(BuildQuestion(v, id))
  {
    var q := BuildQuestion(v, id);
    if v.options.Some? {
      CorrectCountKept(q.options, v.options.value);
    }
    forall k | 0 <= k < |q.options|
      ensures Utf16Length(q.options[k].text) >= 1
    {
      assert q.options[k].text == v.options.value[k].text;
    }
  }

  /** The store invariant on its two fields: quiz ids are the positions 1..n and the counter
      is the next one; titles are distinct after lower-casing; every quiz and question
      passed validation. */
  ghost predicate StoreInvariant(quizzes: seq<Quiz>, counter: int) {
    && counter == |quizzes| + 1
    && (forall i :: 0 <= i < |quizzes| ==> quizzes[i].id == i + 1 && WellFormedQuiz(quizzes[i]))
    && (forall i, j :: 0 <= i < j < |quizzes| ==> ToLower(quizzes[i].title) != ToLower(quizzes[j].title))
  }

  /** Appending a well-formed question that carries the next id of its quiz keeps the invariant. */
  lemma AppendQuestionKeepsInvariant(quizzes: seq<Quiz>, counter: int, i: nat, question: Question)
    requires StoreInvariant(quizzes, counter)
    requires i < |quizzes|
    requires question.id == |quizzes[i].questions| + 1 && WellFormedQuestion(question)
    ensures StoreInvariant(quizzes[i := quizzes[i].(questions := quizzes[i].questions + [question])], counter)
  {
  }

  /** The store. */
  class QuizStore {
    var quizzes: seq<Quiz>
    var quizIdCounter: int

    ghost predicate Valid()
      reads this
    {
      StoreInvariant(quizzes, quizIdCounter)
    }

    /** The store as the process starts: no quizzes, next id 1. */
    constructor ()
      ensures Valid()
      ensures quizzes == [] && quizIdCounter == 1
    {
      quizzes := [];
      quizIdCounter := 1;
    }

    /** `resetQuizzes`: empties the store and restarts ids at 1. */
    method ResetQuizzes()
      modifies this
      ensures Valid()
      ensures quizzes == [] && quizIdCounter == 1
    {
      quizzes := [];
      quizIdCounter := 1;
    }

    /** `getAllQuizzes`: the quizzes in creation order, numbered 1..n. */
    function GetAllQuizzes(): (r: seq<Quiz>)
      reads this
      ensures Valid() ==> |r| == quizIdCounter - 1 && forall i :: 0 <= i < |r| ==> r[i].id == i + 1
    {
      quizzes
    }

    /** `createNewQuiz`: validates the title, rejects a title some quiz has up to case, and
        otherwise appends an empty quiz with the next id. A failure changes nothing. */
    method CreateNewQuiz(data: QuizPayload) returns (r: Result<Quiz, StoreError>)
      requires Valid()
      modifies this
      ensures Valid()
      ensures r.Success? <==> ValidateCreateQuiz(data).Success? && !TitleTaken(old(quizzes), data.title.value)
      ensures r.Failure? ==> quizzes == old(quizzes) && quizIdCounter == old(quizIdCounter)
      ensures ValidateCreateQuiz(data).Failure? ==> r == Failure(Invalid(ValidateCreateQuiz(data).error))
      ensures ValidateCreateQuiz(data).Success? ==>
        (r == Failure(QuizExists) <==> TitleTaken(old(quizzes), ValidateCreateQuiz(data).value))
      ensures r.Success? ==>
        && ValidateCreateQuiz(data).Success?
        && !TitleTaken(old(quizzes), data.title.value)
        && r.value == Quiz(old(quizIdCounter), data.title.value, [])
        && quizzes == old(quizzes) + [r.value]
        && quizIdCounter == old(quizIdCounter) + 1
    {
      var parsed := ValidateCreateQuiz(data);
      if parsed.Failure? {
        return Failure(Invalid(parsed.error));
      }
      var title := parsed.value;
      var existing := FindIndex(quizzes, (q: Quiz) => ToLower(q.title) == ToLower(title));
      if existing.Some? {
        return Failure(QuizExists);
      }
      var quiz := Quiz(quizIdCounter, title, []);
      quizIdCounter := quizIdCounter + 1;
      quizzes := quizzes + [quiz];
      return Success(quiz);
    }

    /** `findQuizById`: the first quiz with that id, absent when there is none; in a valid
        store the ids present are exactly 1..counter-1. */
    function FindQuizById(id: int): (r: Option<Quiz>)
      reads this
      ensures r.Some? ==> r.value in quizzes && r.value.id == id
      ensures r.None? <==> forall q :: q in quizzes ==> q.id != id
      ensures Valid() ==> (r.Some? <==> 1 <= id < quizIdCounter)
      ensures Valid() && r.Some? ==> r.value == quizzes[id - 1]
    {
      assert Valid() && 1 <= id < quizIdCounter ==> quizzes[id - 1].id == id;
      match FindIndex(quizzes, (q: Quiz) => q.id == id)
      case Some(i) => Some(quizzes[i])
      case None => None
    }

    /** `addQuestionsToQuiz`: an unknown quiz fails first, then an empty batch; the whole
        batch is validated before anything is stored, so any failure changes nothing. On
        success the new questions get ids continuing from the quiz's question count and are
        appended in batch order; no other quiz changes. */
    method AddQuestionsToQuiz(quizId: int, payloads: seq<QuestionPayload>) returns (r: Result<seq<Question>, StoreError>)
      requires Valid()
      modifies this
      ensures Valid()
      ensures quizIdCounter == old(quizIdCounter)
      ensures r.Failure? ==> quizzes == old(quizzes)
      ensures r == Failure(QuizNotFound) <==> !(1 <= quizId < quizIdCounter)
      ensures r == Failure(InvalidQuestionsArray) <==> 1 <= quizId < quizIdCounter && payloads == []
      ensures r.Failure? && r.error.Invalid? <==>
        1 <= quizId < quizIdCounter && payloads != [] && ValidateAll(payloads).Failure?
      ensures r.Failure? && r.error.Invalid? ==> r.error.reason == ValidateAll(payloads).error
      ensures r.Success? <==> 1 <= quizId < quizIdCounter && payloads != [] && ValidateAll(payloads).Success?
      ensures r.Success? ==>
        var before := old(quizzes)[quizId - 1];
        && |r.value| == |payloads|
        && (forall k :: 0 <= k < |payloads| ==>
              r.value[k] == BuildQuestion(ValidateAll(payloads).value[k], |before.questions| + 1 + k))
        && quizzes == old(quizzes)[quizId - 1 := before.(questions := before.questions + r.value)]
    {
      var found := FindIndex(quizzes, (q: Quiz) => q.id == quizId);
      assert 1 <= quizId < quizIdCounter ==> quizzes[quizId - 1].id == quizId;
      if found.None? {
        return Failure(QuizNotFound);
      }
      if |payloads| == 0 {
        return Failure(InvalidQuestionsArray);
      }
      var validated := ValidateAll(payloads);
      if validated.Failure? {
        return Failure(Invalid(validated.error));
      }
      var added := PushQuestions(found.value, validated.value);
      return Success(added);
    }

    /** The pushes of `addQuestionsToQuiz`: each validated question is built with the next id
        of quiz `i` and appended to it, in batch order; the questions added are returned. */
    method PushQuestions(i: nat, vs: seq<ValidQuestion>) returns (added: seq<Question>)
      requires Valid() && i < |quizzes|
      requires forall k :: 0 <= k < |vs| ==> Accepted(vs[k])
      modifies this
      ensures Valid()
      ensures quizIdCounter == old(quizIdCounter)
      ensures |added| == |vs|
      ensures forall k :: 0 <= k < |vs| ==> added[k] == BuildQuestion(vs[k], |old(quizzes)[i].questions| + 1 + k)
      ensures quizzes == old(quizzes)[i := old(quizzes)[i].(questions := old(quizzes)[i].questions + added)]
    {
      var startId := |quizzes[i].questions| + 1;
      ghost var before := quizzes[i];
      added := [];
      assert before.(questions := before.questions + added) == before;
      for idx := 0 to |vs|
        invariant Valid()
        invariant quizzes == old(quizzes)[i := before.(questions := before.questions + added)]
        invariant |added| == idx
        invariant forall k :: 0 <= k < idx ==> added[k] == BuildQuestion(vs[k], startId + k)
      {
        var question := BuildQuestion(vs[idx], startId + idx);
        ValidatedQuestionWellFormed(vs[idx], startId + idx);
        PushQuestion(i, question);
        assert before.questions + added + [question] == before.questions + (added + [question]);
        added := added + [question];
      }
    }

    /** `quiz.questions.push(question)` on the quiz at position `i`. */
    method PushQuestion(i: nat, question: Question)
      requires Valid() && i < |quizzes|
      requires question.id == |quizzes[i].questions| + 1 && WellFormedQuestion(question)
      modifies this
      ensures Valid()
      ensures quizIdCounter == old(quizIdCounter)
      ensures quizzes == old(quizzes)[i := old(quizzes)[i].(questions := old(quizzes)[i].questions + [question])]
    {
      AppendQuestionKeepsInvariant(quizzes, quizIdCounter, i, question);
      quizzes := quizzes[i := quizzes[i].(questions := quizzes[i].questions + [question])];
    }

    /** `getQuestionsOfQuiz`: the questions of the quiz with that id, or QUIZ_NOT_FOUND; in a
        valid store they are numbered 1..n and each passed validation. */
    function GetQuestionsOfQuiz(quizId: int): (r: Result<seq<Question>, StoreError>)
      reads this
      ensures r.Failure? <==> forall q :: q in quizzes ==> q.id != quizId
      ensures r.Failure? ==> r.error == QuizNotFound
      ensures Valid() && r.Success? ==>
        && r.value == quizzes[quizId - 1].questions
        && forall k :: 0 <= k < |r.value| ==> r.value[k].id == k + 1 && WellFormedQuestion(r.value[k])
    {
      match FindQuizById(quizId)
      case Some(quiz) => Success(quiz.questions)
      case None => Failure(QuizNotFound)
    }
  }
}
