/**
 * Validation of the create-quiz and question payloads: the structural checks of the
 * schemas (non-empty strings, a known type tag) and the per-type semantic rules.
 * Validation is pure: it returns the payload unchanged or the error it throws.
 */
module Validation {
  import opened Wrappers
  import opened JsStrings
  import opened JsArrays
  import opened Model

  /** The create-quiz payload; `title` is absent when the request has none. */
  datatype QuizPayload = QuizPayload(title: Option<string>)

  /** An option as submitted: `isCorrect` may be omitted. */
  datatype OptionPayload = OptionPayload(text: string, isCorrect: Option<bool>)

  /** A question as submitted, with its type still a string. */
  datatype QuestionPayload = QuestionPayload(
    text: string,
    typeTag: string,
    options: Option<seq<OptionPayload>>,
    correctAnswer: Option<string>)

  /** A question payload that passed validation, its type tag parsed. */
  datatype ValidQuestion = ValidQuestion(
    text: string,
    qtype: QuestionType,
    options: Option<seq<OptionPayload>>,
    correctAnswer: Option<string>)

  /** One structural problem the schema reports. */
  datatype Issue =
    | TitleRequired
    | QuestionTextRequired
    | UnknownQuestionType
    | OptionTextRequired(index: nat)

  /** Why a payload was rejected: every structural issue, or the first semantic rule broken. */
  datatype ValidationError =
    | SchemaError(issues: seq<Issue>)
    | TextTooLong
    | MissingCorrectAnswer
    | TooFewSingleChoiceOptions
    | NotExactlyOneCorrect
    | TooFewMultipleChoiceOptions
    | NoCorrectOption

  const MaxTextQuestionLength := 300

  /** The tag the schema's enum accepts for each type. */
  function TypeTag(t: QuestionType): (tag: string)
    ensures ParseQuestionType(tag) == Some(t)
  {
    match t
    case SingleChoice => "single_choice"
    case MultipleChoice => "multiple_choice"
    case Text => "text"
  }

  /** The enum check on `type`: exactly the three tags are accepted. */
  function ParseQuestionType(tag: string): (r: Option<QuestionType>)
    ensures r.Some? <==> tag in {"single_choice", "multiple_choice", "text"}
  {
    if tag == "single_choice" then Some(SingleChoice)
    else if tag == "multiple_choice" then Some(MultipleChoice)
    else if tag == "text" then Some(Text)
    else None
  }

  /** `createQuizSchema.parse`: the title must be present and of length at least 1; it is
      returned as it is, not trimmed. */
  function ValidateCreateQuiz(data: QuizPayload): (r: Result<string, ValidationError>)
    ensures r.Success? <==> data.title.Some? && data.title.value != []
    ensures r.Success? ==> r.value == data.title.value
    ensures r.Failure? ==> r.error == SchemaError([TitleRequired])
  {
    match data.title
    case Some(title) =>
      if Utf16Length(title) >= 1 then Success(title) else Failure(SchemaError([TitleRequired]))
    case None => Failure(SchemaError([TitleRequired]))
  }

  /** The issues of the options from position `from` on, one per empty option text. */
  function OptionIssues(options: seq<OptionPayload>, from: nat): (r: seq<Issue>)
    ensures r == [] <==> forall k :: 0 <= k < |options| ==> options[k].text != []
    ensures forall i :: 0 <= i < |r| ==>
      r[i].OptionTextRequired? && from <= r[i].index < from + |options| && options[r[i].index - from].text == []
  {
    if options == [] then []
    else
      var rest := OptionIssues(options[1..], from + 1);
      assert forall k :: 0 < k < |options| ==> options[k] == options[1..][k - 1];
      if Utf16Length(options[0].text) >= 1 then rest else [OptionTextRequired(from)] + rest
  }

  /** `questionSchema`'s structural issues, in field order: text, type, options. */
  function SchemaIssues(p: QuestionPayload): (r: seq<Issue>)
    ensures r == [] <==>
      && p.text != []
      && p.typeTag in {"single_choice", "multiple_choice", "text"}
      && (p.options.Some? ==> forall k :: 0 <= k < |p.options.value| ==> p.options.value[k].text != [])
  {
    (if Utf16Length(p.text) >= 1 then [] else [QuestionTextRequired])
    + (if ParseQuestionType(p.typeTag).Some? then [] else [UnknownQuestionType])
    + (match p.options case None => [] case Some(options) => OptionIssues(options, 0))
  }

  /** `options.filter(o => o.isCorrect).length`: an omitted flag counts as not correct. */
  function CountMarked(options: seq<OptionPayload>): (n: nat)
    ensures n <= |options|
    ensures n == 0 <==> forall k :: 0 <= k < |options| ==> options[k].isCorrect != Some(true)
  {
    if options == [] then 0
    else
      assert forall k :: 0 < k < |options| ==> options[k] == options[1..][k - 1];
      (if options[0].isCorrect == Some(true) then 1 else 0) + CountMarked(options[1..])
  }

  /** The per-type rules, stated on their own: a text question has at most 300 code units
      and a correct answer that is not blank; a single-choice question has at least two
      options, exactly one marked correct; a multiple-choice question has at least two
      options, at least one marked correct. */
  predicate TypeRulesHold(t: QuestionType, text: string, options: Option<seq<OptionPayload>>, correctAnswer: Option<string>) {
    match t
    case Text =>
      Utf16Length(text) <= MaxTextQuestionLength && correctAnswer.Some? && !AllWhitespace(correctAnswer.value)
    case SingleChoice =>
      options.Some? && |options.value| >= 2 && CountMarked(options.value) == 1
    case MultipleChoice =>
      options.Some? && |options.value| >= 2 && CountMarked(options.value) >= 1
  }

  /** What an accepted question satisfies: non-empty question and option texts and the
      per-type rules. */
  predicate Accepted(v: ValidQuestion) {
    && v.text != []
    && (v.options.Some? ==> forall k :: 0 <= k < |v.options.value| ==> v.options.value[k].text != [])
    && TypeRulesHold(v.qtype, v.text, v.options, v.correctAnswer)
  }

  /** `validateQuestionPayload`: structural issues first; then, for a text question, the
      length limit before the answer check; for a choice question, the option count before
      the correct count. An accepted payload is returned unchanged. */
  function ValidateQuestionPayload(p: QuestionPayload): (r: Result<ValidQuestion, ValidationError>)
    ensures r.Success? <==>
      SchemaIssues(p) == [] && TypeRulesHold(ParseQuestionType(p.typeTag).value, p.text, p.options, p.correctAnswer)
    ensures r.Success? ==>
      r.value == ValidQuestion(p.text, ParseQuestionType(p.typeTag).value, p.options, p.correctAnswer)
    ensures r.Success? ==> Accepted(r.value)
    ensures r.Failure? && r.error.SchemaError? <==> SchemaIssues(p) != []
    ensures r.Failure? && r.error.SchemaError? ==> r.error.issues == SchemaIssues(p)
    ensures r == Failure(TextTooLong) <==>
      SchemaIssues(p) == [] && p.typeTag == "text" && Utf16Length(p.text) > MaxTextQuestionLength
    ensures r == Failure(MissingCorrectAnswer) <==>
      && SchemaIssues(p) == []
      && p.typeTag == "text"
      && Utf16Length(p.text) <= MaxTextQuestionLength
      && (p.correctAnswer.None? || AllWhitespace(p.correctAnswer.value))
    ensures r == Failure(TooFewSingleChoiceOptions) <==>
      SchemaIssues(p) == [] && p.typeTag == "single_choice" && (p.options.None? || |p.options.value| < 2)
    ensures r == Failure(NotExactlyOneCorrect) <==>
      && SchemaIssues(p) == []
      && p.typeTag == "single_choice"
      && p.options.Some? && |p.options.value| >= 2
      && CountMarked(p.options.value) != 1
    ensures r == Failure(TooFewMultipleChoiceOptions) <==>
      SchemaIssues(p) == [] && p.typeTag == "multiple_choice" && (p.options.None? || |p.options.value| < 2)
    ensures r == Failure(NoCorrectOption) <==>
      && SchemaIssues(p) == []
      && p.typeTag == "multiple_choice"
      && p.options.Some? && |p.options.value| >= 2
      && CountMarked(p.options.value) == 0
    ensures r.Failure? && !r.error.SchemaError? && p.typeTag != "text" ==> r.error != TextTooLong && r.error != MissingCorrectAnswer
  {
    var issues := SchemaIssues(p);
    if issues != [] then Failure(SchemaError(issues))
    else
      match ParseQuestionType(p.typeTag).value
      case Text =>
        if Utf16Length(p.text) > MaxTextQuestionLength then Failure(TextTooLong)
        else if p.correctAnswer.None? || Utf16Length(Trim(p.correctAnswer.value)) == 0 then Failure(MissingCorrectAnswer)
        else Success(ValidQuestion(p.text, Text, p.options, p.correctAnswer))
      case SingleChoice =>
        if p.options.None? || |p.options.value| < 2 then Failure(TooFewSingleChoiceOptions)
        else if CountMarked(p.options.value) != 1 then Failure(NotExactlyOneCorrect)
        else Success(ValidQuestion(p.text, SingleChoice, p.options, p.correctAnswer))
      case MultipleChoice =>
        if p.options.None? || |p.options.value| < 2 then Failure(TooFewMultipleChoiceOptions)
        else if CountMarked(p.options.value) < 1 then Failure(NoCorrectOption)
        else Success(ValidQuestion(p.text, MultipleChoice, p.options, p.correctAnswer))
  }

  /** `questionsPayload.map(validateQuestionPayload)`: every payload validated in order,
      the first error thrown stopping the batch. */
  function ValidateAll(ps: seq<QuestionPayload>): (r: Result<seq<ValidQuestion>, ValidationError>)
    ensures r.Success? <==> forall k :: 0 <= k < |ps| ==> ValidateQuestionPayload(ps[k]).Success?
    ensures r.Success? ==> |r.value| == |ps|
    ensures r.Success? ==> forall k :: 0 <= k < |ps| ==> r.value[k] == ValidateQuestionPayload(ps[k]).value
    ensures r.Success? ==> forall k :: 0 <= k < |ps| ==> Accepted(r.value[k])
  {
    MapOrFail(ps, ValidateQuestionPayload)
  }
}
