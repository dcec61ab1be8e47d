/** The decision logic of the quiz API views (backend_django/quizzes/views.py):
    which quizzes are listed, the gates in front of starting an attempt, the
    grading of a submitted attempt, and the leaderboard order. Queries are
    replaced by the rows they return; the clock is a parameter. */
module Views {
  import opened Common
  import opened Models

  // ---------------------------------------------------------------- listing

  /** The listing window: an active quiz whose start (if any) is not after
      `now` and whose end (if any) is not before it. */
  predicate Listed(q: Quiz, now: int) {
    && q.active
    && (q.startTime.None? || q.startTime.value <= now)
    && (q.endTime.None? || q.endTime.value >= now)
  }

  /** `Quiz.clean` accepts an active quiz exactly when its listing window
      holds two different instants: a rejected quiz (start at or after the
      end) is listed at no time or at a single instant. */
  lemma CleanWindow(quiz: Quiz)
    requires quiz.active
    ensures Clean(quiz).None? <==> exists t1, t2 :: t1 < t2 && Listed(quiz, t1) && Listed(quiz, t2)
  {
    if Clean(quiz).None? {
      var t1 := if quiz.startTime.Some? then quiz.startTime.value
                else if quiz.endTime.Some? then quiz.endTime.value - 1 else 0;
      var t2 := if quiz.endTime.Some? then quiz.endTime.value else t1 + 1;
      assert t1 < t2 && Listed(quiz, t1) && Listed(quiz, t2);
    }
  }

  /** `QuizListView.get_queryset`: the listed quizzes, in their original
      order. */
  function QuizList(quizzes: seq<Quiz>, now: int): (r: seq<Quiz>)
    ensures |r| <= |quizzes|
    ensures forall q :: q in r <==> q in quizzes && Listed(q, now)
  {
    if quizzes == [] then []
    else (if Listed(quizzes[0], now) then [quizzes[0]] else []) + QuizList(quizzes[1..], now)
  }

  // ---------------------------------------------------------------- starting

  const MaxAttemptsMessage: string := "Max attempts reached"
  const NotStartedMessage: string := "Quiz not started yet"
  const OverMessage: string := "Quiz is over"

  datatype StartOutcome =
    | QuizNotFound                 // 404: no active quiz with that key
    | Forbidden(detail: string)    // 403
    | Started(attemptId: int)      // a new open attempt was created

  /** `QuizStartView.post` for the quiz row found under the key (`None` when
      there is none), the caller's attempt count so far and the id the new
      attempt receives. */
  function StartQuiz(quiz: Option<Quiz>, attemptsCount: nat, now: int, newId: int): (r: StartOutcome)
    ensures r.QuizNotFound? <==> quiz.None? || !quiz.value.active
    ensures r.Started? ==> r.attemptId == newId
  {
    if quiz.None? || !quiz.value.active then QuizNotFound
    else
      var q := quiz.value;
      if q.maxAttempts != 0 && attemptsCount >= q.maxAttempts then Forbidden(MaxAttemptsMessage)
      else if q.startTime.Some? && now < q.startTime.value then Forbidden(NotStartedMessage)
      else if q.endTime.Some? && now > q.endTime.value then Forbidden(OverMessage)
      else Started(newId)
  }

  /** The gates run in order and the first that fails decides the answer: the
      attempt limit (zero meaning unlimited), then the start, then the end. */
  lemma StartGateOrder(q: Quiz, attemptsCount: nat, now: int, newId: int)
    requires q.active
    ensures var r := StartQuiz(Some(q), attemptsCount, now, newId);
      && (r == Forbidden(MaxAttemptsMessage) <==> q.maxAttempts != 0 && attemptsCount >= q.maxAttempts)
      && (r == Forbidden(NotStartedMessage) <==>
            (q.maxAttempts == 0 || attemptsCount < q.maxAttempts)
            && q.startTime.Some? && now < q.startTime.value)
      && (r == Forbidden(OverMessage) <==>
            (q.maxAttempts == 0 || attemptsCount < q.maxAttempts)
            && (q.startTime.None? || now >= q.startTime.value)
            && q.endTime.Some? && now > q.endTime.value)
      && (r.Started? <==>
            (q.maxAttempts == 0 || attemptsCount < q.maxAttempts) && Listed(q, now))
  {
  }

  /** Both windows use inclusive bounds: a quiz below its attempt limit can
      be started exactly when it is listed. */
  lemma ListedIffStartable(q: Quiz, attemptsCount: nat, now: int, newId: int)
    requires q.maxAttempts == 0 || attemptsCount < q.maxAttempts
    ensures Listed(q, now) <==> StartQuiz(Some(q), attemptsCount, now, newId) == Started(newId)
  {
    if q.active {
      StartGateOrder(q, attemptsCount, now, newId);
    }
  }

  // ---------------------------------------------------------------- submitting

  /** One entry of the submitted payload as it arrives; `None` is a key the
      client left out. */
  datatype SubmittedAnswer = SubmittedAnswer(
    question: int,
    selectedOption: Option<Json>,
    answerText: Option<string>,
    codeSubmitted: Option<string>)

  /** An `Answer` row as the view creates it: a missing option is `None`
      (`JNull`), missing texts are empty. */
  datatype StoredAnswer = StoredAnswer(
    question: int,
    selectedOption: Json,
    answerText: string,
    codeSubmitted: string)

  /** Payload validation: an explicit `null` option is refused, texts are
      stripped (the serializer's text fields trim whitespace), and absent
      keys take the view's defaults. */
  function ValidateAnswer(a: SubmittedAnswer): (r: Option<StoredAnswer>)
    ensures r.None? <==> a.selectedOption == Some(JNull)
    ensures r.Some? ==> r.value.question == a.question
    ensures r.Some? && a.selectedOption.Some? ==> r.value.selectedOption == a.selectedOption.value
    ensures r.Some? && a.selectedOption.None? ==> r.value.selectedOption == JNull
    ensures r.Some? ==> r.value.answerText == if a.answerText.Some? then PyStrip(a.answerText.value) else ""
    ensures r.Some? ==> r.value.codeSubmitted == if a.codeSubmitted.Some? then PyStrip(a.codeSubmitted.value) else ""
  {
    if a.selectedOption == Some(JNull) then None
    else
      Some(StoredAnswer(
        a.question,
        if a.selectedOption.Some? then a.selectedOption.value else JNull,
        if a.answerText.Some? then PyStrip(a.answerText.value) else "",
        if a.codeSubmitted.Some? then PyStrip(a.codeSubmitted.value) else ""))
  }

  function ValidatePayload(payload: seq<SubmittedAnswer>): (r: Option<seq<StoredAnswer>>)
    ensures r.Some? <==> forall k :: 0 <= k < |payload| ==> ValidateAnswer(payload[k]).Some?
    ensures r.Some? ==> |r.value| == |payload|
    ensures r.Some? ==> forall k :: 0 <= k < |payload| ==> r.value[k] == ValidateAnswer(payload[k]).value
  {
    if payload == [] then Some([])
    else
      match (ValidateAnswer(payload[0]), ValidatePayload(payload[1..]))
      case (Some(a), Some(rest)) => Some([a] + rest)
      case (None, _) => None
      case (_, None) => assert !ValidateAnswer(payload[1..][0]).Some? || exists k :: 1 <= k < |payload| && !ValidateAnswer(payload[k]).Some?; None
  }

  /** The value that is graded: the selected option when truthy,
      otherwise the answer text; an int (or bool) for a multiple-choice
      question goes in a one-element list. */
  function GradedValue(q: Question, a: StoredAnswer): (v: Json)
    ensures PyTruthy(a.selectedOption) && !(q.questionType == "mcq" && (a.selectedOption.JInt? || a.selectedOption.JBool?))
      ==> v == a.selectedOption
    ensures !PyTruthy(a.selectedOption) ==> v == JStr(a.answerText)
    ensures q.questionType == "mcq" && PyTruthy(a.selectedOption) && (a.selectedOption.JInt? || a.selectedOption.JBool?)
      ==> v == JList([a.selectedOption])
  {
    var v := if PyTruthy(a.selectedOption) then a.selectedOption else JStr(a.answerText);
    if q.questionType == "mcq" && (v.JInt? || v.JBool?) then JList([v]) else v
  }

  /** How an answer is checked: whether it earns its question's points, or
      grading raised. */
  type AnswerCheck = (Question, StoredAnswer) -> Checked

  /** Whether an answer earns its question's points (code questions are
      graded elsewhere and earn nothing here). */
  function Grade(q: Question, a: StoredAnswer): Checked {
    if q.questionType == "code" then Checked(false) else IsCorrectAnswer(q, GradedValue(q, a))
  }

  /** Why a submission is refused part-way; the whole request is rolled
      back. */
  datatype SubmitError =
    | QuestionNotFound    // 404: the question is not part of the attempt's quiz
    | DuplicateAnswer     // 500: a second answer to the same question (unique per attempt)
    | GradingFailed       // 500: grading raised

  datatype Tally = Tally(totalPoints: nat, score: nat, stored: seq<StoredAnswer>)

  /** The questions already answered by the stored answers. */
  function AnsweredQuestions(s: seq<StoredAnswer>): set<int> {
    if s == [] then {} else AnsweredQuestions(s[..|s| - 1]) + {s[|s| - 1].question}
  }

  /** A question counts as answered exactly when some stored answer is
      for it. */
  lemma {:induction false} AnsweredQuestionsSpec(s: seq<StoredAnswer>, x: int)
    ensures x in AnsweredQuestions(s) <==> exists k :: 0 <= k < |s| && s[k].question == x
  {
    if s != [] {
      var init := s[..|s| - 1];
      AnsweredQuestionsSpec(init, x);
      assert forall k :: 0 <= k < |init| ==> init[k] == s[k];
    }
  }

  /** The scoring loop of `QuizSubmitView.post` over the answers in order:
      look the question up, store the answer, add the points to the total
      and, when graded correct, to the score. The first failure wins. */
  function TallyOf(answers: seq<StoredAnswer>, bank: map<int, Question>, grade: AnswerCheck): Result<Tally, SubmitError>
  {
    if answers == [] then Ok(Tally(0, 0, []))
    else
      match TallyOf(answers[..|answers| - 1], bank, grade)
      case Err(e) => Err(e)
      case Ok(t) => Step(t, answers[|answers| - 1], bank, grade)
  }

  /** One round of the loop. */
  function Step(t: Tally, a: StoredAnswer, bank: map<int, Question>, grade: AnswerCheck): (r: Result<Tally, SubmitError>)
    ensures r.Ok? <==>
      a.question in bank && a.question !in AnsweredQuestions(t.stored) && grade(bank[a.question], a).Checked?
    ensures r.Ok? ==> r.value.stored == t.stored + [a]
    ensures r.Ok? ==> r.value.totalPoints == t.totalPoints + bank[a.question].points
    ensures r.Ok? ==>
      r.value.score == t.score + (if grade(bank[a.question], a) == Checked(true) then bank[a.question].points else 0)
  {
    if a.question !in bank then Err(QuestionNotFound)
    else if a.question in AnsweredQuestions(t.stored) then Err(DuplicateAnswer)
    else
      var q := bank[a.question];
      match grade(q, a)
      case Raised => Err(GradingFailed)
      case Checked(c) =>
        Ok(Tally(t.totalPoints + q.points, if c then t.score + q.points else t.score, t.stored + [a]))
  }

  /** The points of the answered questions. */
  function PointsSum(answers: seq<StoredAnswer>, bank: map<int, Question>): nat {
    if answers == [] then 0
    else
      var a := answers[|answers| - 1];
      PointsSum(answers[..|answers| - 1], bank) + (if a.question in bank then bank[a.question].points else 0)
  }

  /** The points of the questions answered correctly. */
  function ScoreSum(answers: seq<StoredAnswer>, bank: map<int, Question>, grade: AnswerCheck): nat {
    if answers == [] then 0
    else
      var a := answers[|answers| - 1];
      ScoreSum(answers[..|answers| - 1], bank, grade)
        + (if a.question in bank && grade(bank[a.question], a) == Checked(true) then bank[a.question].points else 0)
  }

  lemma {:induction false} ScoreBounded(answers: seq<StoredAnswer>, bank: map<int, Question>, grade: AnswerCheck)
    ensures ScoreSum(answers, bank, grade) <= PointsSum(answers, bank)
  {
    if answers != [] {
      ScoreBounded(answers[..|answers| - 1], bank, grade);
    }
  }

  predicate AllKnown(answers: seq<StoredAnswer>, bank: map<int, Question>) {
    forall k :: 0 <= k < |answers| ==> answers[k].question in bank
  }

  predicate DistinctQuestions(answers: seq<StoredAnswer>) {
    forall i, j :: 0 <= i < j < |answers| ==> answers[i].question != answers[j].question
  }

  predicate GradesCleanly(answers: seq<StoredAnswer>, bank: map<int, Question>, grade: AnswerCheck) {
    forall k :: 0 <= k < |answers| && answers[k].question in bank ==>
      grade(bank[answers[k].question], answers[k]).Checked?
  }

  /** How the three conditions on a payload extend by one answer. */
  lemma SnocConditions(init: seq<StoredAnswer>, a: StoredAnswer, bank: map<int, Question>, grade: AnswerCheck)
    ensures var answers := init + [a];
      && (AllKnown(answers, bank) <==> AllKnown(init, bank) && a.question in bank)
      && (DistinctQuestions(answers) <==> DistinctQuestions(init) && a.question !in AnsweredQuestions(init))
      && (GradesCleanly(answers, bank, grade) <==>
            GradesCleanly(init, bank, grade) && (a.question in bank ==> grade(bank[a.question], a).Checked?))
  {
    var answers := init + [a];
    assert forall k :: 0 <= k < |init| ==> answers[k] == init[k];
    assert answers[|init|] == a;
    AnsweredQuestionsSpec(init, a.question);
    if DistinctQuestions(init) && a.question !in AnsweredQuestions(init) {
      forall i, j | 0 <= i < j < |answers|
        ensures answers[i].question != answers[j].question
      {
        if j == |init| {
          assert answers[i] == init[i];
        }
      }
    }
  }

  /** Scoring succeeds exactly when every answered question belongs to the
      quiz, no question is answered twice and no grading raises. */
  lemma {:induction false} TallyConditions(answers: seq<StoredAnswer>, bank: map<int, Question>, grade: AnswerCheck)
    ensures TallyOf(answers, bank, grade).Ok? <==>
      AllKnown(answers, bank) && DistinctQuestions(answers) && GradesCleanly(answers, bank, grade)
  {
    if answers != [] {
      var init := answers[..|answers| - 1];
      var a := answers[|answers| - 1];
      assert answers == init + [a];
      TallyConditions(init, bank, grade);
      if TallyOf(init, bank, grade).Ok? {
        TallyValues(init, bank, grade);
      }
      SnocConditions(init, a, bank, grade);
    }
  }

  /** A successful scoring stores every answer, totals the answered
      questions' points and scores the points of those graded correct. */
  lemma {:induction false} TallyValues(answers: seq<StoredAnswer>, bank: map<int, Question>, grade: AnswerCheck)
    requires TallyOf(answers, bank, grade).Ok?
    ensures var t := TallyOf(answers, bank, grade).value;
      && t.stored == answers
      && t.totalPoints == PointsSum(answers, bank)
      && t.score == ScoreSum(answers, bank, grade)
  {
    if answers != [] {
      var init := answers[..|answers| - 1];
      TallyValues(init, bank, grade);
      assert answers == init + [answers[|answers| - 1]];
    }
  }

  /** Both together, with the score never above the total. */
  lemma TallySpec(answers: seq<StoredAnswer>, bank: map<int, Question>, grade: AnswerCheck)
    ensures TallyOf(answers, bank, grade).Ok? <==>
      AllKnown(answers, bank) && DistinctQuestions(answers) && GradesCleanly(answers, bank, grade)
    ensures TallyOf(answers, bank, grade).Ok? ==>
      var t := TallyOf(answers, bank, grade).value;
      && t.stored == answers
      && t.totalPoints == PointsSum(answers, bank)
      && t.score == ScoreSum(answers, bank, grade)
      && t.score <= t.totalPoints
  {
    TallyConditions(answers, bank, grade);
    if TallyOf(answers, bank, grade).Ok? {
      TallyValues(answers, bank, grade);
      ScoreBounded(answers, bank, grade);
    }
  }

  /** The loop itself: question by question, returning at the first
      failure, with the already-answered questions kept in a set. */
  method ScoreAnswers(answers: seq<StoredAnswer>, bank: map<int, Question>, grade: AnswerCheck) returns (r: Result<Tally, SubmitError>)
    ensures r == TallyOf(answers, bank, grade)
  {
    var tally := Tally(0, 0, []);
    var seen: set<int> := {};
    var i := 0;
    while i < |answers|
      invariant 0 <= i <= |answers|
      invariant TallyOf(answers[..i], bank, grade) == Ok(tally)
      invariant seen == AnsweredQuestions(tally.stored)
    {
      var a := answers[i];
      TallyNext(answers, bank, grade, i, tally);
      var step := ScoreOne(tally, seen, a, bank, grade);
      if step.Err? {
        ReachedError(answers, bank, grade, i + 1);
        return step;
      }
      AnsweredSnoc(tally.stored, a);
      seen := seen + {a.question};
      tally := step.value;
      i := i + 1;
    }
    assert answers[..i] == answers;
    r := Ok(tally);
  }

  /** The specified tally of one more answer is one more step. */
  lemma TallyNext(answers: seq<StoredAnswer>, bank: map<int, Question>, grade: AnswerCheck, i: nat, t: Tally)
    requires i < |answers| && TallyOf(answers[..i], bank, grade) == Ok(t)
    ensures TallyOf(answers[..i + 1], bank, grade) == Step(t, answers[i], bank, grade)
  {
    assert answers[..i + 1][..i] == answers[..i];
  }

  /** Storing one more answer adds its question to the answered ones. */
  lemma AnsweredSnoc(s: seq<StoredAnswer>, a: StoredAnswer)
    ensures AnsweredQuestions(s + [a]) == AnsweredQuestions(s) + {a.question}
  {
    assert (s + [a])[..|s|] == s;
  }

  /** One round of the loop: look the question up, refuse a second answer
      to it, add its points to the total, grade the answer and add the
      points to the score when it is correct. */
  method ScoreOne(t: Tally, seen: set<int>, a: StoredAnswer, bank: map<int, Question>, grade: AnswerCheck)
    returns (r: Result<Tally, SubmitError>)
    requires seen == AnsweredQuestions(t.stored)
    ensures r == Step(t, a, bank, grade)
  {
    if a.question !in bank {
      return Err(QuestionNotFound);
    }
    if a.question in seen {
      return Err(DuplicateAnswer);
    }
    var q := bank[a.question];
    var totalPoints := t.totalPoints + q.points;
    var score := t.score;
    var g := grade(q, a);
    if g.Raised? {
      return Err(GradingFailed);
    }
    if g.correct {
      score := score + q.points;
    }
    r := Ok(Tally(totalPoints, score, t.stored + [a]));
  }

  /** A failure on a prefix is the failure of the whole payload. */
  lemma {:induction false} ReachedError(answers: seq<StoredAnswer>, bank: map<int, Question>, grade: AnswerCheck, n: nat)
    requires n <= |answers| && TallyOf(answers[..n], bank, grade).Err?
    ensures TallyOf(answers, bank, grade) == TallyOf(answers[..n], bank, grade)
    decreases |answers| - n
  {
    if n < |answers| {
      assert answers[..n + 1][..n] == answers[..n];
      ReachedError(answers, bank, grade, n + 1);
    } else {
      assert answers[..n] == answers;
    }
  }

  const AlreadySubmittedDetail: string := "Quiz already submitted"

  datatype SubmitResponse =
    | AttemptNotFound                 // 404: no such attempt for this user
    | AlreadySubmitted(detail: string) // 400
    | InvalidPayload                  // 400: the serializer refused the payload
    | Failed(error: SubmitError)      // 404 or 500, rolled back
    | Graded(totalScore: nat, totalPossiblePoints: nat)

  function StatusCode(r: SubmitResponse): int {
    match r
    case AttemptNotFound => 404
    case AlreadySubmitted(_) => 400
    case InvalidPayload => 400
    case Failed(QuestionNotFound) => 404
    case Failed(_) => 500
    case Graded(_, _) => 200
  }

  /** A `StudentQuizAttempt` row. */
  class Attempt {
    const id: int
    const user: int
    const quiz: int
    const startTime: int
    var submitted: bool
    var submissionTime: Option<int>
    var totalScore: nat
    var totalPossiblePoints: nat
    var answers: seq<StoredAnswer>

    /** A fresh open attempt, as `QuizStartView.post` creates it. */
    constructor (id: int, user: int, quiz: int, startTime: int)
      ensures this.id == id && this.user == user && this.quiz == quiz && this.startTime == startTime
      ensures !submitted && submissionTime == None
      ensures totalScore == 0 && totalPossiblePoints == 0 && answers == []
    {
      this.id := id;
      this.user := user;
      this.quiz := quiz;
      this.startTime := startTime;
      submitted := false;
      submissionTime := None;
      totalScore := 0;
      totalPossiblePoints := 0;
      answers := [];
    }

    /** `QuizSubmitView.post` by `requester` at time `now`, against the
        questions of the attempt's quiz. Every refusal leaves the attempt
        as it was (the request runs in one transaction); a success replaces
        the stored answers by the payload's and records the totals. */
    method Submit(requester: int, payload: seq<SubmittedAnswer>, bank: map<int, Question>, now: int)
      returns (r: SubmitResponse)
      modifies this
      ensures requester != user ==> r == AttemptNotFound
      ensures requester == user && old(submitted) ==> r == AlreadySubmitted(AlreadySubmittedDetail)
      ensures requester == user && !old(submitted) && ValidatePayload(payload).None? ==> r == InvalidPayload
      ensures requester == user && !old(submitted) && ValidatePayload(payload).Some? ==>
        match TallyOf(ValidatePayload(payload).value, bank, Grade)
        case Err(e) => r == Failed(e)
        case Ok(t) => r == Graded(t.score, t.totalPoints)
      ensures !r.Graded? ==> unchanged(this)
      ensures r.Graded? ==>
        && submitted && submissionTime == Some(now)
        && totalScore == r.totalScore && totalPossiblePoints == r.totalPossiblePoints
        && answers == ValidatePayload(payload).value
    {
      if requester != user {
        return AttemptNotFound;
      }
      if submitted {
        return AlreadySubmitted(AlreadySubmittedDetail);
      }
      var validated := ValidatePayload(payload);
      if validated.None? {
        return InvalidPayload;
      }
      var tally := ScoreAnswers(validated.value, bank, Grade);
      match tally {
        case Err(e) =>
          return Failed(e);
        case Ok(t) =>
          TallySpec(validated.value, bank, Grade);
          answers := t.stored;
          submitted := true;
          submissionTime := Some(now);
          totalPossiblePoints := t.totalPoints;
          totalScore := t.score;
          r := Graded(t.score, t.totalPoints);
      }
    }
  }

  /** Starting and then submitting twice: the second submission is refused
      with 400 and the first one's totals stay; a graded score never exceeds
      the possible points. */
  method StartAndSubmitTwice(q: Quiz, user: int, attemptsCount: nat, now: int, newId: int,
                             payload: seq<SubmittedAnswer>, bank: map<int, Question>)
    returns (first: SubmitResponse, second: SubmitResponse)
    requires StartQuiz(Some(q), attemptsCount, now, newId).Started?
    ensures first.Graded? ==> first.totalScore <= first.totalPossiblePoints
    ensures first.Graded? ==> second == AlreadySubmitted(AlreadySubmittedDetail) && StatusCode(second) == 400
    ensures !first.Graded? ==> second == first
  {
    var attempt := new Attempt(newId, user, q.id, now);
    first := attempt.Submit(user, payload, bank, now);
    if first.Graded? {
      TallySpec(ValidatePayload(payload).value, bank, Grade);
    }
    second := attempt.Submit(user, payload, bank, now);
  }

  // ---------------------------------------------------------------- leaderboard

  /** The leaderboard's view of an attempt row. */
  datatype AttemptRow = AttemptRow(
    id: int,
    user: int,
    quiz: int,
    submitted: bool,
    submissionTime: Option<int>,
    totalScore: int)

  /** Ascending submission time with a missing time last (the database
      orders NULL after every value in ascending order). */
  predicate TimeNoLater(a: Option<int>, b: Option<int>) {
    match (a, b)
    case (Some(x), Some(y)) => x <= y
    case (Some(_), None) => true
    case (None, Some(_)) => false
    case (None, None) => true
  }

  /** `a` may be listed before `b`: a higher score, or the same score and a
      submission no later. */
  predicate RanksNoLater(a: AttemptRow, b: AttemptRow) {
    a.totalScore > b.totalScore || (a.totalScore == b.totalScore && TimeNoLater(a.submissionTime, b.submissionTime))
  }

  predicate Ranked(s: seq<AttemptRow>) {
    forall i, j :: 0 <= i < j < |s| ==> RanksNoLater(s[i], s[j])
  }

  function SubmittedRows(rows: seq<AttemptRow>): (r: seq<AttemptRow>)
    ensures forall a :: a in r <==> a in rows && a.submitted
    ensures multiset(r) <= multiset(rows)
  {
    if rows == [] then []
    else
      assert rows == [rows[0]] + rows[1..];
      (if rows[0].submitted then [rows[0]] else []) + SubmittedRows(rows[1..])
  }

  function InsertRanked(x: AttemptRow, s: seq<AttemptRow>): (r: seq<AttemptRow>)
    ensures multiset(r) == multiset(s) + multiset{x}
    ensures forall e :: e in r <==> e == x || e in s
  {
    if s == [] || RanksNoLater(x, s[0]) then [x] + s
    else
      assert s == [s[0]] + s[1..];
      [s[0]] + InsertRanked(x, s[1..])
  }

  lemma {:induction false} InsertRankedKeepsOrder(x: AttemptRow, s: seq<AttemptRow>)
    requires Ranked(s)
    ensures Ranked(InsertRanked(x, s))
  {
    if s != [] && !RanksNoLater(x, s[0]) {
      var rest := InsertRanked(x, s[1..]);
      InsertRankedKeepsOrder(x, s[1..]);
      forall k | 0 <= k < |rest|
        ensures RanksNoLater(s[0], rest[k])
      {
        assert rest[k] in rest;
        if rest[k] != x {
          assert rest[k] in s[1..];
        }
      }
      var r := [s[0]] + rest;
      assert InsertRanked(x, s) == r;
      forall i, j | 0 <= i < j < |r|
        ensures RanksNoLater(r[i], r[j])
      {
        if i > 0 {
          assert r[i] == rest[i - 1] && r[j] == rest[j - 1];
        }
      }
    }
  }

  function SortRanked(s: seq<AttemptRow>): (r: seq<AttemptRow>)
    ensures Ranked(r) && multiset(r) == multiset(s)
  {
    if s == [] then []
    else
      assert s == [s[0]] + s[1..];
      InsertRankedKeepsOrder(s[0], SortRanked(s[1..]));
      InsertRanked(s[0], SortRanked(s[1..]))
  }

  const LeaderboardSize: nat := 50

  /** `LeaderboardView.get_queryset`: the submitted attempts, best score
      first and earlier submission first among equal scores, cut to 50. */
  function Leaderboard(rows: seq<AttemptRow>): seq<AttemptRow> {
    var ranked := SortRanked(SubmittedRows(rows));
    if |ranked| <= LeaderboardSize then ranked else ranked[..LeaderboardSize]
  }

  /** In a ranked sequence, nothing after the first `n` entries ranks
      strictly before one of them. */
  lemma CutOff(ranked: seq<AttemptRow>, n: nat)
    requires Ranked(ranked) && n <= |ranked|
    ensures forall a, b :: a in ranked && a !in ranked[..n] && b in ranked[..n] ==> RanksNoLater(b, a)
  {
    forall a, b | a in ranked && a !in ranked[..n] && b in ranked[..n]
      ensures RanksNoLater(b, a)
    {
      var j :| 0 <= j < |ranked| && ranked[j] == a;
      var i :| 0 <= i < n && ranked[..n][i] == b;
      assert ranked[i] == b;
    }
  }

  /** The first `n` entries of a ranked sequence are ranked and are some
      of its entries. */
  lemma RankedPrefix(ranked: seq<AttemptRow>, n: nat)
    requires Ranked(ranked) && n <= |ranked|
    ensures Ranked(ranked[..n])
    ensures multiset(ranked[..n]) <= multiset(ranked)
    ensures forall a :: a in ranked[..n] ==> a in ranked
  {
    assert ranked == ranked[..n] + ranked[n..];
  }

  /** The leaderboard lists only submitted attempts, the first 50 of them
      (all when there are fewer), in rank order; with 50 or fewer submitted attempts it lists all of them, and
      no submitted attempt left out ranks strictly before one listed. */
  lemma LeaderboardSpec(rows: seq<AttemptRow>)
    ensures var board := Leaderboard(rows);
      && |board| == (if |SubmittedRows(rows)| <= LeaderboardSize then |SubmittedRows(rows)| else LeaderboardSize)
      && Ranked(board)
      && (forall a :: a in board ==> a in rows && a.submitted)
      && multiset(board) <= multiset(SubmittedRows(rows))
      && (|SubmittedRows(rows)| <= LeaderboardSize ==> multiset(board) == multiset(SubmittedRows(rows)))
      && (forall a, b :: a in rows && a.submitted && a !in board && b in board ==> RanksNoLater(b, a))
  {
    var submitted := SubmittedRows(rows);
    var ranked := SortRanked(submitted);
    var n := if |ranked| <= LeaderboardSize then |ranked| else LeaderboardSize;
    assert Leaderboard(rows) == ranked[..n];
    assert |ranked| == |submitted| by {
      assert |multiset(ranked)| == |multiset(submitted)|;
    }
    assert n == |ranked| ==> ranked[..n] == ranked;
    RankedPrefix(ranked, n);
    CutOff(ranked, n);
    forall a | a in rows && a.submitted
      ensures a in ranked
    {
      assert a in multiset(submitted);
    }
    forall a | a in ranked
      ensures a in rows && a.submitted
    {
      assert a in multiset(ranked);
    }
  }
}
