/**
 * Scoring a submission: each answer is looked up by question id and graded by the
 * question's type; the score counts the credited answers and the total counts the questions.
 */
module Scoring {
  import opened Wrappers
  import opened JsStrings
  import opened JsArrays
  import opened Model

  /** `selectedOptionIds` as submitted: absent, a single id, or an array of ids. */
  datatype Selection = NoSelection | Single(id: int) | Many(ids: seq<int>)

  /** One submitted answer. */
  datatype Answer = Answer(questionId: int, selectedOptionIds: Selection, textAnswer: Option<string>)

  datatype ScoreResult = ScoreResult(score: nat, total: nat)

  /** The fuzzy matcher, an outside library: given the correct answer, the submitted answer and
      the similarity threshold, whether the submitted answer matches. */
  type FuzzyMatcher = (string, string, real) -> bool

  const FuzzyThreshold: real := 0.7

  /** `quiz.questions.find(x => x.id === ans.questionId)`; when question ids are the positions
      1..n, exactly the ids 1..n are found. */
  function FindQuestion(questions: seq<Question>, id: int): (r: Option<Question>)
    ensures r.Some? ==> r.value in questions && r.value.id == id
    ensures r.None? <==> forall k :: 0 <= k < |questions| ==> questions[k].id != id
    ensures (forall k :: 0 <= k < |questions| ==> questions[k].id == k + 1) ==>
      (r.Some? <==> 1 <= id <= |questions|)
  {
    match FindIndex(questions, (q: Question) => q.id == id)
    case Some(k) => Some(questions[k])
    case None =>
      assert 1 <= id <= |questions| ==> questions[id - 1].id != id;
      None
  }

  /** `.trim().toLowerCase()`: empty exactly when the string is blank. */
  function Normalize(s: string): (r: string)
    ensures |r| <= |s|
    ensures r == [] <==> AllWhitespace(s)
  {
    ToLower(Trim(s))
  }

  /** The id a single-choice answer selects: the first element of an array, the value
      itself otherwise; nothing for an empty array or an absent selection. */
  function FirstSelected(sel: Selection): (r: Option<int>)
    ensures r.None? <==> sel.NoSelection? || sel == Many([])
    ensures r.Some? ==> (sel.Single? && r.value == sel.id) || (sel.Many? && r.value == sel.ids[0])
  {
    match sel
    case NoSelection => None
    case Single(id) => Some(id)
    case Many(ids) => if ids == [] then None else Some(ids[0])
  }

  /** `ids.filter(Boolean)`: the ids other than the falsy 0, each kept as often as it occurs. */
  function DropZeros(ids: seq<int>): (r: seq<int>)
    ensures 0 !in r
    ensures forall id :: id != 0 ==> multiset(r)[id] == multiset(ids)[id]
  {
    if ids == [] then []
    else
      assert ids == [ids[0]] + ids[1..];
      (if ids[0] == 0 then [] else [ids[0]]) + DropZeros(ids[1..])
  }

  /** The ids a multiple-choice answer selects: a single value is wrapped into an array, an
      absent one selects nothing, and 0 is dropped. */
  function SelectedIds(sel: Selection): (r: seq<int>)
    ensures 0 !in r
    ensures sel.NoSelection? ==> r == []
    ensures sel.Single? ==> forall id :: id != 0 ==> multiset(r)[id] == multiset([sel.id])[id]
    ensures sel.Many? ==> forall id :: id != 0 ==> multiset(r)[id] == multiset(sel.ids)[id]
  {
    match sel
    case NoSelection => []
    case Single(id) => if id == 0 then [] else [id]
    case Many(ids) => DropZeros(ids)
  }

  /** A single-choice answer earns its point when its selected id is that of a correct option. */
  predicate SingleChoiceCredited(q: Question, sel: Selection)
    ensures SingleChoiceCredited(q, sel) <==>
      exists k :: 0 <= k < |q.options| && q.options[k].isCorrect && FirstSelected(sel) == Some(q.options[k].id)
  {
    var selected := FirstSelected(sel);
    FindIndex(q.options, (o: AnswerOption) => o.isCorrect && selected == Some(o.id)).Some?
  }

  /** A multiple-choice answer earns its point when the sorted selection equals the sorted
      correct ids. */
  predicate MultipleChoiceCredited(q: Question, sel: Selection) {
    Sort(SelectedIds(sel)) == Sort(CorrectIds(q.options))
  }

  /** A text answer earns its point when the normalised correct answer is not empty and the
      normalised submission contains it, or else the fuzzy matcher accepts the submission. */
  predicate TextCredited(q: Question, textAnswer: Option<string>, fuzzy: FuzzyMatcher) {
    var userAnswer := Normalize(textAnswer.GetOr(""));
    var correctAnswer := Normalize(q.correctAnswer.GetOr(""));
    correctAnswer != [] && (Includes(userAnswer, correctAnswer) || fuzzy(correctAnswer, userAnswer, FuzzyThreshold))
  }

  /** Grading dispatched on the question's type. */
  predicate Credited(q: Question, ans: Answer, fuzzy: FuzzyMatcher) {
    match q.qtype
    case Text => TextCredited(q, ans.textAnswer, fuzzy)
    case SingleChoice => SingleChoiceCredited(q, ans.selectedOptionIds)
    case MultipleChoice => MultipleChoiceCredited(q, ans.selectedOptionIds)
  }

  /** The points of one answer: one when it names a question of the quiz and is credited. */
  function Points(questions: seq<Question>, ans: Answer, fuzzy: FuzzyMatcher): (n: nat)
    ensures n <= 1
    ensures FindQuestion(questions, ans.questionId).None? ==> n == 0
  {
    match FindQuestion(questions, ans.questionId)
    case None => 0
    case Some(q) => if Credited(q, ans, fuzzy) then 1 else 0
  }

  /** In a quiz whose questions are numbered 1..n, the id k finds the k-th question. */
  lemma FindQuestionNumbered(questions: seq<Question>, id: int)
    requires forall k :: 0 <= k < |questions| ==> questions[k].id == k + 1
    requires 1 <= id <= |questions|
    ensures FindQuestion(questions, id) == Some(questions[id - 1])
  {
  }

  /** The points of an answer to a question of the quiz are those its grading gives. */
  lemma PointsOfFound(questions: seq<Question>, ans: Answer, q: Question, fuzzy: FuzzyMatcher)
    requires FindQuestion(questions, ans.questionId) == Some(q)
    ensures Points(questions, ans, fuzzy) == if Credited(q, ans, fuzzy) then 1 else 0
  {
  }

  /** The points of all answers, added answer by answer: at most one per answer. */
  function Tally(questions: seq<Question>, answers: seq<Answer>, fuzzy: FuzzyMatcher): (n: nat)
    ensures n <= |answers|
  {
    if answers == [] then 0
    else Tally(questions, answers[..|answers| - 1], fuzzy) + Points(questions, answers[|answers| - 1], fuzzy)
  }

  /** The body of the scoring loop for one answer: whether it earns a point. An answer to an
      unknown question is skipped, and a text question whose correct answer is blank never
      credits; a contained answer is credited without consulting the fuzzy matcher. */
  method GradeAnswer(questions: seq<Question>, ans: Answer, fuzzy: FuzzyMatcher) returns (credited: bool)
    ensures credited <==> Points(questions, ans, fuzzy) == 1
  {
    var found := FindQuestion(questions, ans.questionId);
    if found.None? {
      return false;
    }
    var q := found.value;
    if q.qtype == Text {
      var userAnswer := Normalize(ans.textAnswer.GetOr(""));
      var correctAnswer := Normalize(q.correctAnswer.GetOr(""));
      if correctAnswer == [] {
        return false;
      }
      if Includes(userAnswer, correctAnswer) {
        return true;
      }
      credited := fuzzy(correctAnswer, userAnswer, FuzzyThreshold);
    } else if q.qtype == SingleChoice {
      var selected := FirstSelected(ans.selectedOptionIds);
      credited := FindIndex(q.options, (o: AnswerOption) => o.isCorrect && selected == Some(o.id)).Some?;
    } else {
      var selected := Sort(SelectedIds(ans.selectedOptionIds));
      var correctIds := Sort(CorrectIds(q.options));
      credited := selected == correctIds;
    }
  }

  /** `scoreQuiz`: the total is the number of questions; a quiz without questions scores 0
      without looking at the answers; otherwise the score is the tally of the answers. */
  method ScoreQuiz(quiz: Quiz, answers: seq<Answer>, fuzzy: FuzzyMatcher) returns (result: ScoreResult)
    ensures result.total == |quiz.questions|
    ensures result.score == if |quiz.questions| == 0 then 0 else Tally(quiz.questions, answers, fuzzy)
    ensures result.score <= |answers|
  {
    var score := 0;
    var total := |quiz.questions|;
    if total == 0 {
      return ScoreResult(0, 0);
    }
    for i := 0 to |answers|
      invariant score == Tally(quiz.questions, answers[..i], fuzzy)
    {
      assert answers[..i + 1][..i] == answers[..i];
      var credited := GradeAnswer(quiz.questions, answers[i], fuzzy);
      if credited {
        score := score + 1;
      }
    }
    assert answers[..|answers|] == answers;
    return ScoreResult(score, total);
  }

  /** One more answer adds its points to the tally. */
  lemma TallySnoc(questions: seq<Question>, a: seq<Answer>, ans: Answer, fuzzy: FuzzyMatcher)
    ensures Tally(questions, a + [ans], fuzzy) == Tally(questions, a, fuzzy) + Points(questions, ans, fuzzy)
  {
    assert (a + [ans])[..|a|] == a;
  }

  /** The tally of two runs of answers is the sum of their tallies. */
  lemma {:induction false} TallyAppend(questions: seq<Question>, a: seq<Answer>, b: seq<Answer>, fuzzy: FuzzyMatcher)
    ensures Tally(questions, a + b, fuzzy) == Tally(questions, a, fuzzy) + Tally(questions, b, fuzzy)
  {
    if b == [] {
      assert a + b == a;
    } else {
      var last := b[|b| - 1];
      TallyAppend(questions, a, b[..|b| - 1], fuzzy);
      assert (a + b)[..|a + b| - 1] == a + b[..|b| - 1];
    }
  }

  /** The order of the answers does not matter: permuting them keeps the tally. */
  lemma {:induction false} TallyPermutation(questions: seq<Question>, a: seq<Answer>, b: seq<Answer>, fuzzy: FuzzyMatcher)
    requires multiset(a) == multiset(b)
    ensures Tally(questions, a, fuzzy) == Tally(questions, b, fuzzy)
    decreases |a|
  {
    if a == [] {
      assert |b| == |multiset(b)| == 0;
    } else {
      var x := a[|a| - 1];
      var a' := a[..|a| - 1];
      assert a == a' + [x];
      assert x in multiset(b);
      var j :| 0 <= j < |b| && b[j] == x;
      var b' := b[..j] + b[j + 1..];
      assert b == b[..j] + [x] + b[j + 1..];
      assert multiset(a') == multiset(a) - multiset{x};
      assert multiset(b') == multiset(b) - multiset{x};
      TallyPermutation(questions, a', b', fuzzy);
      TallyAppend(questions, b[..j] + [x], b[j + 1..], fuzzy);
      TallyAppend(questions, b[..j], [x], fuzzy);
      TallyAppend(questions, b[..j], b[j + 1..], fuzzy);
      assert Tally(questions, [x], fuzzy) == Points(questions, x, fuzzy) by {
        assert [x][..0] == [];
      }
    }
  }

  /** An answer naming no question of the quiz leaves the tally as it is, wherever it stands.
      The proof is not inductive; automatic induction is switched off because the hypothesis
      Dafny would add is never needed and only makes the verifier report vacuous steps. */
  lemma {:induction false} UnknownAnswerIgnored(questions: seq<Question>, a: seq<Answer>, ans: Answer, b: seq<Answer>, fuzzy: FuzzyMatcher)
    requires forall k :: 0 <= k < |questions| ==> questions[k].id != ans.questionId
    ensures Tally(questions, a + [ans] + b, fuzzy) == Tally(questions, a + b, fuzzy)
  {
    TallyAppend(questions, a + [ans], b, fuzzy);
    TallyAppend(questions, a, b, fuzzy);
    assert (a + [ans])[..|a|] == a;
  }

  /** A multiple-choice answer is credited exactly when it selects the correct ids, each as
      often as it is correct, and nothing else: order does not matter, repetitions do. */
  lemma MultipleChoiceIffSameMultiset(q: Question, sel: Selection)
    ensures MultipleChoiceCredited(q, sel) <==> multiset(SelectedIds(sel)) == multiset(CorrectIds(q.options))
  {
    SortedEqualIffSameMultiset(SelectedIds(sel), CorrectIds(q.options));
  }

  /** Options with increasing ids have increasing correct ids. */
  lemma {:induction false} CorrectIdsIncreasing(options: seq<AnswerOption>)
    requires forall i, j :: 0 <= i < j < |options| ==> options[i].id < options[j].id
    ensures forall i, j :: 0 <= i < j < |CorrectIds(options)| ==> CorrectIds(options)[i] < CorrectIds(options)[j]
  {
    if options != [] {
      var tail := options[1..];
      var rest := CorrectIds(tail);
      CorrectIdsIncreasing(tail);
      if options[0].isCorrect {
        forall j | 0 <= j < |rest|
          ensures options[0].id < rest[j]
        {
          assert rest[j] in rest;
          var k :| 0 <= k < |tail| && tail[k].isCorrect && tail[k].id == rest[j];
          assert tail[k] == options[k + 1];
        }
      }
    }
  }

  /** A strictly increasing sequence holds each value at most once. */
  lemma {:induction false} IncreasingCountAtMostOne(s: seq<int>, x: int)
    requires forall i, j :: 0 <= i < j < |s| ==> s[i] < s[j]
    ensures multiset(s)[x] <= 1
  {
    if s != [] {
      assert s == [s[0]] + s[1..];
      IncreasingCountAtMostOne(s[1..], x);
      if s[0] == x {
        assert x !in s[1..];
      }
    }
  }

  /** A value at two positions of a sequence is counted at least twice. */
  lemma RepeatedCountAtLeastTwo(s: seq<int>, i: nat, j: nat)
    requires i < j < |s| && s[i] == s[j]
    ensures multiset(s)[s[i]] >= 2
  {
    assert s == s[..i] + [s[i]] + s[i + 1..j] + [s[j]] + s[j + 1..];
  }

  /** On a question whose options are numbered, a multiple-choice answer that selects the same
      id twice is never credited, since every correct id occurs once. */
  lemma MultipleChoiceRejectsRepeats(q: Question, sel: Selection, i: nat, j: nat)
    requires OptionsNumbered(q.options)
    requires i < j < |SelectedIds(sel)| && SelectedIds(sel)[i] == SelectedIds(sel)[j]
    ensures !MultipleChoiceCredited(q, sel)
  {
    var selected := SelectedIds(sel);
    var correct := CorrectIds(q.options);
    MultipleChoiceIffSameMultiset(q, sel);
    RepeatedCountAtLeastTwo(selected, i, j);
    CorrectIdsIncreasing(q.options);
    IncreasingCountAtMostOne(correct, selected[i]);
  }

  /** On a stored single-choice question there is one correct option, and an answer is credited
      exactly when the id it selects first is that option's id. */
  lemma SingleChoiceOneWinner(q: Question, sel: Selection)
    requires WellFormedQuestion(q) && q.qtype == SingleChoice
    ensures |CorrectIds(q.options)| == 1
    ensures SingleChoiceCredited(q, sel) <==> FirstSelected(sel) == Some(CorrectIds(q.options)[0])
  {
    var correct := CorrectIds(q.options);
    var selected := FirstSelected(sel);
    var p := (o: AnswerOption) => o.isCorrect && selected == Some(o.id);
    var found := FindIndex(q.options, p);
    if found.Some? {
      var o := q.options[found.value];
      assert o.id in correct;
    }
    if selected == Some(correct[0]) {
      assert correct[0] in correct;
      var k :| 0 <= k < |q.options| && q.options[k].isCorrect && q.options[k].id == correct[0];
      assert p(q.options[k]);
    }
  }

  /** On a stored text question, an answer equal to the correct one up to surrounding
      whitespace and ASCII case is credited whatever the fuzzy matcher says. */
  lemma CorrectTextAnswerCredited(q: Question, answer: string, fuzzy: FuzzyMatcher)
    requires WellFormedQuestion(q) && q.qtype == Text
    requires Normalize(answer) == Normalize(q.correctAnswer.value)
    ensures TextCredited(q, Some(answer), fuzzy)
  {
    IncludesSelf(Normalize(answer));
  }

  /** An answer repeated for a question it is credited on earns its point each time, so the
      score can exceed the total. */
  lemma RepeatedAnswerCountsAgain(questions: seq<Question>, a: seq<Answer>, ans: Answer, fuzzy: FuzzyMatcher)
    requires Points(questions, ans, fuzzy) == 1
    ensures Tally(questions, a + [ans, ans], fuzzy) == Tally(questions, a, fuzzy) + 2
  {
    TallyAppend(questions, a, [ans, ans], fuzzy);
    assert [ans, ans][..1] == [ans];
    assert [ans][..0] == [];
  }

  /** Text grading in three cases: a blank correct answer never credits; a submission that
      contains the correct answer after normalisation always does; otherwise the fuzzy
      matcher decides. */
  lemma TextGradingCases(q: Question, textAnswer: Option<string>, fuzzy: FuzzyMatcher)
    ensures AllWhitespace(q.correctAnswer.GetOr("")) ==> !TextCredited(q, textAnswer, fuzzy)
    ensures !AllWhitespace(q.correctAnswer.GetOr("")) && Includes(Normalize(textAnswer.GetOr("")), Normalize(q.correctAnswer.GetOr("")))
      ==> TextCredited(q, textAnswer, fuzzy)
    ensures !Includes(Normalize(textAnswer.GetOr("")), Normalize(q.correctAnswer.GetOr(""))) ==>
      (TextCredited(q, textAnswer, fuzzy) <==>
        !AllWhitespace(q.correctAnswer.GetOr(""))
        && fuzzy(Normalize(q.correctAnswer.GetOr("")), Normalize(textAnswer.GetOr("")), FuzzyThreshold))
  {
  }

  /** A stored text question has a correct answer that is not blank, so the scorer never
      skips it for want of one. */
  lemma StoredTextQuestionGradable(q: Question)
    requires WellFormedQuestion(q) && q.qtype == Text
    ensures Normalize(q.correctAnswer.GetOr("")) != []
  {
  }
}
