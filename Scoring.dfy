/** The marking of a submitted quiz in `/api/submit-answers` (server.js:201-278):
    one correction per question, in quiz order, and a counter that goes up on
    each answer that is `===` to the question's `answer`. The store of the
    score row is a parameter. */
module Scoring {
  import opened Js

  /** One entry of `corrections` (server.js:227-233). */
  datatype Correction = Correction(
    question: JsValue,
    user_answer: JsValue,
    correct_answer: JsValue,
    is_correct: bool,
    explanation: JsValue)

  /** `question.question`, `question.answer` or `question.explanation` on one
      element of the quiz array. None is the TypeError that reading a property
      of null throws; values other than objects have none of these properties. */
  function QuestionField(q: Json, key: string): (field: Option<JsValue>)
    requires key == "question" || key == "answer" || key == "explanation"
    ensures field.None? <==> q == JNull
    ensures field.Some? && field.value.Defined? ==> q.JObject?
    ensures q.JObject? ==> field == Some(Member(q.members, key))
  {
    match q
    case JNull => None
    case JObject(members) => Some(Member(members, key))
    case _ => Some(Undefined)
  }

  /** `answers[idx]` on a truthy `answers`: an element of an array, a
      one-character string of a string, a property of an object named by the
      index's decimal form, and undefined for a number or a boolean. */
  function Element(answers: Json, idx: nat): (e: JsValue)
    requires answers != JNull
    ensures answers.JArray? ==> (e.Defined? <==> idx < |answers.items|)
    ensures answers.JArray? && idx < |answers.items| ==> e == Defined(answers.items[idx])
    ensures answers.JObject? ==> e == Member(answers.members, DecimalString(idx))
    ensures answers.JStr? ==> (e.Defined? <==> idx < |answers.s|)
    ensures answers.JStr? && e.Defined? ==> e.json == JStr([answers.s[idx]])
    ensures answers.JBool? || answers.JNum? ==> e == Undefined
  {
    match answers
    case JArray(items) => if idx < |items| then Defined(items[idx]) else Undefined
    case JStr(s) => if idx < |s| then Defined(JStr([s[idx]])) else Undefined
    case JObject(members) => Member(members, DecimalString(idx))
    case _ => Undefined
  }

  /** Line 225: `answers[idx] === question.answer`. */
  predicate IsCorrect(q: Json, answers: Json, idx: nat): (correct: bool)
    requires q != JNull && answers != JNull
    ensures correct <==>
      && Element(answers, idx) == QuestionField(q, "answer").value
      && (Element(answers, idx).Undefined? || !IsComposite(Element(answers, idx).json))
  {
    StrictEquals(Element(answers, idx), QuestionField(q, "answer").value)
  }

  /** The correction the map callback returns for question idx. */
  function CorrectionFor(q: Json, answers: Json, idx: nat): (c: Correction)
    requires q != JNull && answers != JNull
    ensures c.user_answer == Element(answers, idx)
    ensures c.correct_answer == QuestionField(q, "answer").value
    ensures c.is_correct <==> StrictEquals(c.user_answer, c.correct_answer)
  {
    Correction(
      QuestionField(q, "question").value,
      Element(answers, idx),
      QuestionField(q, "answer").value,
      IsCorrect(q, answers, idx),
      QuestionField(q, "explanation").value)
  }

  /** The number of corrections marked correct. */
  function CountCorrect(corrections: seq<Correction>): (n: nat)
    ensures n <= |corrections|
  {
    if corrections == [] then 0
    else
      var last := |corrections| - 1;
      CountCorrect(corrections[..last]) + (if corrections[last].is_correct then 1 else 0)
  }

  /** Appending a correction adds one to the count exactly when it is marked correct. */
  lemma {:induction false} CountCorrectStep(corrections: seq<Correction>, c: Correction)
    ensures CountCorrect(corrections + [c]) == CountCorrect(corrections) + (if c.is_correct then 1 else 0)
  {
    assert (corrections + [c])[..|corrections|] == corrections;
  }

  /** The indices among the first n whose correction is marked correct. */
  ghost function CorrectIndices(corrections: seq<Correction>, n: nat): (indices: set<nat>)
    requires n <= |corrections|
  {
    set k: nat | k < n && corrections[k].is_correct
  }

  lemma {:induction false} CountCorrectPrefix(corrections: seq<Correction>, n: nat)
    requires n <= |corrections|
    ensures CountCorrect(corrections[..n]) == |CorrectIndices(corrections, n)|
  {
    if n > 0 {
      var before := CorrectIndices(corrections, n - 1);
      var after := CorrectIndices(corrections, n);
      CountCorrectPrefix(corrections, n - 1);
      assert corrections[..n] == corrections[..n - 1] + [corrections[n - 1]];
      CountCorrectStep(corrections[..n - 1], corrections[n - 1]);
      assert n - 1 !in before;
      if corrections[n - 1].is_correct {
        assert after == before + {n - 1};
      } else {
        assert after == before;
      }
    } else {
      assert corrections[..0] == [];
      assert CorrectIndices(corrections, 0) == {};
    }
  }

  /** The count is the number of corrections marked correct. */
  lemma {:induction false} CountCorrectIsCardinality(corrections: seq<Correction>)
    ensures CountCorrect(corrections) == |set k: nat | k < |corrections| && corrections[k].is_correct|
  {
    CountCorrectPrefix(corrections, |corrections|);
    assert corrections[..|corrections|] == corrections;
  }

  /** For the corrections of a quiz, the count is the number of questions whose
      submitted answer is `===` to the expected one. */
  lemma {:induction false} CountIsCorrectAnswers(quiz: seq<Json>, answers: Json, corrections: seq<Correction>)
    requires JNull !in quiz && answers != JNull && |corrections| == |quiz|
    requires forall k :: 0 <= k < |quiz| ==> corrections[k] == CorrectionFor(quiz[k], answers, k)
    ensures CountCorrect(corrections) == |set k: nat | k < |quiz| && IsCorrect(quiz[k], answers, k)|
  {
    CountCorrectIsCardinality(corrections);
    var marked := set k: nat | k < |corrections| && corrections[k].is_correct;
    var correct := set k: nat | k < |quiz| && IsCorrect(quiz[k], answers, k);
    forall k: nat ensures k in marked <==> k in correct {
      if k < |quiz| {
        assert corrections[k].is_correct == IsCorrect(quiz[k], answers, k);
      }
    }
    assert marked == correct;
  }

  datatype Marking = Marking(corrections: seq<Correction>, correct_answers: nat)

  /** Lines 222-235: `quiz.map` with the counter `correct_answers`. A null
      question throws in the middle of the loop (None). */
  method Mark(quiz: seq<Json>, answers: Json) returns (marking: Option<Marking>)
    requires answers != JNull
    ensures marking.None? <==> JNull in quiz
    ensures marking.Some? ==>
      && |marking.value.corrections| == |quiz|
      && (forall k :: 0 <= k < |quiz| ==> marking.value.corrections[k] == CorrectionFor(quiz[k], answers, k))
      && marking.value.correct_answers == CountCorrect(marking.value.corrections)
  {
    var correctAnswers := 0;
    var corrections := [];
    for idx := 0 to |quiz|
      invariant JNull !in quiz[..idx]
      invariant |corrections| == idx
      invariant forall k :: 0 <= k < idx ==> corrections[k] == CorrectionFor(quiz[k], answers, k)
      invariant correctAnswers == CountCorrect(corrections)
    {
      var question := quiz[idx];
      if question == JNull {
        return None;
      }
      var isCorrect := IsCorrect(question, answers, idx);
      if isCorrect {
        correctAnswers := correctAnswers + 1;
      }
      var correction := Correction(
        QuestionField(question, "question").value,
        Element(answers, idx),
        QuestionField(question, "answer").value,
        isCorrect,
        QuestionField(question, "explanation").value);
      CountCorrectStep(corrections, correction);
      corrections := corrections + [correction];
      assert quiz[..idx + 1] == quiz[..idx] + [question];
    }
    assert quiz[..|quiz|] == quiz;
    return Some(Marking(corrections, correctAnswers));
  }

  /** An answer in the array form the generation prompt asks for is never
      scored correct: `===` compares two distinct array objects. */
  lemma {:induction false} ArrayAnswerNeverCorrect(q: Json, answers: Json, idx: nat)
    requires q != JNull && answers != JNull
    requires QuestionField(q, "answer").value.Defined?
    requires QuestionField(q, "answer").value.json.JArray?
    ensures !IsCorrect(q, answers, idx)
  {
  }

  /** A string answer is correct exactly when the submitted answer is the same string. */
  lemma {:induction false} StringAnswerCorrectIff(q: Json, answers: Json, idx: nat, a: string)
    requires q != JNull && answers != JNull
    requires QuestionField(q, "answer") == Some(Defined(JStr(a)))
    ensures IsCorrect(q, answers, idx) <==> Element(answers, idx) == Defined(JStr(a))
  {
  }

  // ---------------------------------------------------------------------------
  // The handler around the marking loop
  // ---------------------------------------------------------------------------

  /** The fields of the submitted body (server.js:203-212). */
  datatype ScoreRequest = ScoreRequest(
    user_id: JsValue,
    answers: JsValue,
    quiz: JsValue,
    difficulty: JsValue,
    category: JsValue,
    period: JsValue,
    geographical_sphere: JsValue,
    time_taken: JsValue)

  /** Line 217: every field but `time_taken` must be truthy. */
  predicate HasScoreParameters(req: ScoreRequest) {
    && Truthy(req.user_id) && Truthy(req.answers) && Truthy(req.quiz)
    && Truthy(req.difficulty) && Truthy(req.category)
    && Truthy(req.period) && Truthy(req.geographical_sphere)
  }

  /** The row inserted into `quiz_scores` (lines 238-248). */
  datatype ScoreRow = ScoreRow(
    user_id: JsValue,
    score: nat,
    difficulty: JsValue,
    category: JsValue,
    period: JsValue,
    geographical_sphere: JsValue,
    total_questions: nat,
    time_taken: JsValue,
    correct_answers: nat)

  datatype SubmitFailure =
    | MissingScoreParameters  // 400, line 218
    | StoreFailed             // 500, line 262
    | SubmitError             // 500, line 276: an exception caught by the outer handler

  datatype SubmitResponse =
    | Scored(corrections: seq<Correction>, score: nat, data: ScoreRow)
    | SubmitRejected(status: nat, failure: SubmitFailure)

  /** The quiz can be marked: it is an array (otherwise `quiz.map` throws) with
      no null question. */
  predicate Markable(req: ScoreRequest) {
    req.quiz.Defined? && req.quiz.json.JArray? && JNull !in req.quiz.json.items
  }

  /** One submission; `storeFails` is a failed insert into `quiz_scores`. */
  method SubmitAnswers(req: ScoreRequest, storeFails: bool) returns (resp: SubmitResponse)
    ensures !HasScoreParameters(req) ==> resp == SubmitRejected(400, MissingScoreParameters)
    ensures HasScoreParameters(req) && !Markable(req) ==> resp == SubmitRejected(500, SubmitError)
    ensures HasScoreParameters(req) && Markable(req) && storeFails ==> resp == SubmitRejected(500, StoreFailed)
    ensures HasScoreParameters(req) && Markable(req) && !storeFails ==>
      var quiz := req.quiz.json.items;
      var answers := req.answers.json;
      && resp.Scored?
      && |resp.corrections| == |quiz|
      && (forall k :: 0 <= k < |quiz| ==> resp.corrections[k] == CorrectionFor(quiz[k], answers, k))
      && resp.score == |set k: nat | k < |quiz| && IsCorrect(quiz[k], answers, k)|
      && resp.score <= |quiz|
      && resp.data == ScoreRow(req.user_id, resp.score, req.difficulty, req.category, req.period,
                               req.geographical_sphere, |quiz|, req.time_taken, resp.score)
  {
    if !HasScoreParameters(req) {
      return SubmitRejected(400, MissingScoreParameters);
    }
    if !req.quiz.json.JArray? {
      return SubmitRejected(500, SubmitError);
    }
    var quiz := req.quiz.json.items;
    var marking := Mark(quiz, req.answers.json);
    if marking.None? {
      return SubmitRejected(500, SubmitError);
    }
    var correctAnswers := marking.value.correct_answers;
    CountIsCorrectAnswers(quiz, req.answers.json, marking.value.corrections);
    var totalQuestions := |quiz|;
    var score := correctAnswers;
    var payload := ScoreRow(req.user_id, score, req.difficulty, req.category, req.period,
                            req.geographical_sphere, totalQuestions, req.time_taken, correctAnswers);
    if storeFails {
      return SubmitRejected(500, StoreFailed);
    }
    resp := Scored(marking.value.corrections, score, payload);
  }
}
