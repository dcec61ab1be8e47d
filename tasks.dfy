/** The background grading of one submission (backend_django/quizzes/tasks.py,
    `grade_submission`): a per-type rule decides whether the answer is
    correct and what it earns, the submission is updated, and the newest
    open quiz session of the student receives the sum of the student's
    awards for that quiz. Code runs through a sandbox given as a function
    from (code, input) to output. */
module Tasks {
  import opened Common
  import opened Models

  /** The submission record the task reads. */
  datatype Submission = Submission(
    id: int,
    user: int,
    quiz: int,
    question: Option<Question>,
    answerText: Option<string>,
    isCorrect: bool,
    scoreAwarded: nat)

  datatype TestCase = TestCase(inputData: string, expectedOutput: Option<string>)

  /** A `StudentQuiz` row: one sitting of a quiz by a student. */
  datatype StudentQuizRow = StudentQuizRow(
    id: int,
    student: int,
    quiz: int,
    startedAt: int,
    completedAt: Option<int>,
    totalScore: nat)

  type Sandbox = (string, string) -> string

  /** The answer as graded: the text, empty when missing, stripped. */
  function AnswerOf(answerText: Option<string>): string {
    PyStrip(if answerText.Some? then answerText.value else "")
  }

  /** The texts of the correct choices. */
  function CorrectTexts(q: Question): (r: seq<string>)
    ensures |r| == |CorrectChoices(q.choices)|
    ensures forall k :: 0 <= k < |r| ==> r[k] == CorrectChoices(q.choices)[k].text
  {
    var cs := CorrectChoices(q.choices);
    seq(|cs|, k requires 0 <= k < |cs| => cs[k].text)
  }

  /** Multiple choice: an answer that parses as an integer is correct when it
      is the id of a correct choice; any other answer when it equals the
      stripped text of a correct choice, case included. */
  function McqAnswerMatches(q: Question, answer: string): bool {
    match ParsePyInt(answer)
    case Some(n) => n in CorrectIds(q)
    case None => exists t :: t in CorrectTexts(q) && PyStrip(t) == answer
  }

  /** Text, true/false and fill-in: correct when the lower-cased answer equals
      some correct choice's text, stripped and lower-cased. */
  predicate TextCorrect(q: Question, answer: string) {
    exists t :: t in CorrectTexts(q) && Lower(answer) == Lower(PyStrip(t))
  }

  function ExpectedText(tc: TestCase): string {
    if tc.expectedOutput.Some? then tc.expectedOutput.value else ""
  }

  /** One test case passes when the stripped output is the stripped
      expected output. */
  predicate Passes(code: string, tc: TestCase, sandbox: Sandbox) {
    SameOutput(sandbox(code, tc.inputData), ExpectedText(tc))
  }

  /** Outputs are compared without surrounding whitespace. */
  predicate SameOutput(output: string, expected: string) {
    PyStrip(output) == PyStrip(expected)
  }

  predicate AllTestsPass(code: string, tests: seq<TestCase>, sandbox: Sandbox) {
    forall k :: 0 <= k < |tests| ==> Passes(code, tests[k], sandbox)
  }

  /** The test-case loop: the code is run on each case in turn and the loop
      stops at the first mismatch; `runs` counts the sandbox runs. */
  method RunTestCases(code: string, tests: seq<TestCase>, sandbox: Sandbox) returns (allPassed: bool, runs: nat)
    ensures allPassed <==> AllTestsPass(code, tests, sandbox)
    ensures allPassed ==> runs == |tests|
    ensures !allPassed ==>
      && 1 <= runs <= |tests|
      && !Passes(code, tests[runs - 1], sandbox)
      && forall k :: 0 <= k < runs - 1 ==> Passes(code, tests[k], sandbox)
  {
    allPassed := true;
    runs := 0;
    while runs < |tests|
      invariant runs <= |tests|
      invariant forall k :: 0 <= k < runs ==> Passes(code, tests[k], sandbox)
    {
      var passed := Passes(code, tests[runs], sandbox);
      runs := runs + 1;
      if !passed {
        allPassed := false;
        break;
      }
    }
  }

  /** What grading decides for a submission. */
  datatype Grading = Grading(isCorrect: bool, scoreAwarded: nat)

  /** The per-type rule, keyed by the lower-cased question type. The award
      is the question's points when correct and 0 otherwise; an unknown type
      is never correct. */
  function GradeRule(q: Question, answerText: Option<string>, tests: seq<TestCase>, sandbox: Sandbox): (g: Grading)
    ensures g.scoreAwarded == if g.isCorrect then q.points else 0
    ensures var t := Lower(q.questionType);
      t != "mcq" && t != "text" && t != "tf" && t != "fill" && t != "code" ==> g == Grading(false, 0)
  {
    var answer := AnswerOf(answerText);
    var qtype := Lower(q.questionType);
    var correct :=
      if qtype == "mcq" then McqAnswerMatches(q, answer)
      else if qtype == "text" || qtype == "tf" || qtype == "fill" then TextCorrect(q, answer)
      else if qtype == "code" then AllTestsPass(answer, tests, sandbox)
      else false;
    Grading(correct, if correct then q.points else 0)
  }

  /** Answering a multiple-choice question with a printed choice id, with or
      without surrounding whitespace, is correct exactly when that choice is
      correct. */
  lemma McqById(q: Question, id: int, tests: seq<TestCase>, sandbox: Sandbox)
    requires Lower(q.questionType) == "mcq"
    ensures GradeRule(q, Some(IntToString(id)), tests, sandbox).isCorrect <==> id in CorrectIds(q)
    ensures GradeRule(q, Some(" " + IntToString(id) + "\n"), tests, sandbox).isCorrect <==> id in CorrectIds(q)
  {
    ParsePrinted(id);
    var s := IntToString(id);
    assert s != [] && !IsPySpace(s[0]) && !IsPySpace(s[|s| - 1]) by {
      assert s[0] == PyStrip(s)[0] && s[|s| - 1] == PyStrip(s)[|s| - 1];
    }
    StripPadded(s);
  }

  /** A leading blank and a trailing newline are stripped off a text with
      no whitespace at either end. */
  lemma StripPadded(s: string)
    requires s != [] && !IsPySpace(s[0]) && !IsPySpace(s[|s| - 1])
    ensures PyStrip(" " + s + "\n") == s
  {
    var padded := " " + s + "\n";
    assert padded[1..] == s + "\n";
    assert LeadingSpaces(s + "\n", IsPySpace) == 0;
    assert LeadingSpaces(padded, IsPySpace) == 1;
    assert (s + "\n")[..|s|] == s;
    assert TrailingSpaces(s, IsPySpace) == 0;
    assert TrailingSpaces(s + "\n", IsPySpace) == 1;
  }

  /** Answering a multiple-choice question with text that is not an
      integer is correct exactly when, once stripped, it is the stripped text
      of a correct choice, letter case included. */
  lemma McqByText(q: Question, s: string, tests: seq<TestCase>, sandbox: Sandbox)
    requires Lower(q.questionType) == "mcq" && ParsePyInt(PyStrip(s)).None?
    ensures GradeRule(q, Some(s), tests, sandbox).isCorrect <==>
      exists t :: t in CorrectTexts(q) && PyStrip(t) == PyStrip(s)
  {
  }

  /** Text-like questions ignore letter case and surrounding whitespace. */
  lemma TextIgnoresCase(q: Question, s: string, tests: seq<TestCase>, sandbox: Sandbox)
    requires var t := Lower(q.questionType); t == "text" || t == "tf" || t == "fill"
    ensures GradeRule(q, Some(Lower(s)), tests, sandbox) == GradeRule(q, Some(s), tests, sandbox)
    ensures GradeRule(q, Some(PyStrip(s)), tests, sandbox) == GradeRule(q, Some(s), tests, sandbox)
  {
    StripLower(s);
    LowerIdempotent(PyStrip(s));
    StripTwice(s);
  }

  /** Text, true/false and fill-in answers are checked against the correct
      choices: correct exactly when the stripped, lower-cased answer equals
      some correct choice's text, stripped and lower-cased. */
  lemma TextByChoice(q: Question, s: string, tests: seq<TestCase>, sandbox: Sandbox)
    requires var t := Lower(q.questionType); t == "text" || t == "tf" || t == "fill"
    ensures GradeRule(q, Some(s), tests, sandbox).isCorrect <==>
      exists c :: c in q.choices && c.isCorrect && Lower(PyStrip(s)) == Lower(PyStrip(c.text))
  {
    var cs := CorrectChoices(q.choices);
    var texts := CorrectTexts(q);
    if GradeRule(q, Some(s), tests, sandbox).isCorrect {
      var t :| t in texts && Lower(PyStrip(s)) == Lower(PyStrip(t));
      var k :| 0 <= k < |texts| && texts[k] == t;
      assert cs[k] in cs;
    } else {
      forall c | c in q.choices && c.isCorrect
        ensures Lower(PyStrip(s)) != Lower(PyStrip(c.text))
      {
        var k :| 0 <= k < |cs| && cs[k] == c;
        assert texts[k] in texts;
      }
    }
  }

  lemma StripTwice(s: string)
    ensures PyStrip(PyStrip(s)) == PyStrip(s)
  {
    var r := PyStrip(s);
    if r != [] {
      StripKeeps(r, IsPySpace);
    }
  }

  /** A code question with no test cases is always correct. */
  lemma CodeWithoutTests(q: Question, answerText: Option<string>, sandbox: Sandbox)
    requires Lower(q.questionType) == "code"
    ensures GradeRule(q, answerText, [], sandbox) == Grading(true, q.points)
  {
  }

  // ---------------------------------------------------------------- totals

  /** The sum of the awards of a student's submissions for a quiz. */
  function SumAwarded(subs: seq<Submission>, user: int, quiz: int): nat {
    if subs == [] then 0
    else
      var own := if subs[0].user == user && subs[0].quiz == quiz then subs[0].scoreAwarded else 0;
      own + SumAwarded(subs[1..], user, quiz)
  }

  /** Re-grading one submission moves the student's quiz total by exactly
      the change in that submission's award, and leaves other students' and
      other quizzes' totals alone. */
  lemma {:induction false} SumAwardedUpdate(subs: seq<Submission>, k: nat, s: Submission, user: int, quiz: int)
    requires k < |subs| && s.user == subs[k].user && s.quiz == subs[k].quiz
    ensures subs[k].user == user && subs[k].quiz == quiz ==>
      SumAwarded(subs[k := s], user, quiz) + subs[k].scoreAwarded == SumAwarded(subs, user, quiz) + s.scoreAwarded
    ensures !(subs[k].user == user && subs[k].quiz == quiz) ==>
      SumAwarded(subs[k := s], user, quiz) == SumAwarded(subs, user, quiz)
  {
    if k == 0 {
      assert subs[k := s][1..] == subs[1..];
    } else {
      assert subs[k := s][1..] == subs[1..][k - 1 := s];
      SumAwardedUpdate(subs[1..], k - 1, s, user, quiz);
    }
  }

  /** The newest open sitting of `student` for `quiz` (the first of them
      when several started at the same time), if any. */
  function LatestOpen(rows: seq<StudentQuizRow>, student: int, quiz: int): (r: Option<nat>)
    ensures r.None? <==> forall k :: 0 <= k < |rows| ==> !IsOpenFor(rows[k], student, quiz)
    ensures r.Some? ==> r.value < |rows| && IsOpenFor(rows[r.value], student, quiz)
    ensures r.Some? ==> forall k :: 0 <= k < |rows| && IsOpenFor(rows[k], student, quiz) ==>
      rows[k].startedAt <= rows[r.value].startedAt
  {
    if rows == [] then None
    else
      var rest := LatestOpen(rows[1..], student, quiz);
      if !IsOpenFor(rows[0], student, quiz) then
        (if rest.Some? then Some(rest.value + 1) else None)
      else if rest.Some? && rows[1..][rest.value].startedAt > rows[0].startedAt then Some(rest.value + 1)
      else Some(0)
  }

  predicate IsOpenFor(row: StudentQuizRow, student: int, quiz: int) {
    row.student == student && row.quiz == quiz && row.completedAt.None?
  }

  // ---------------------------------------------------------------- the task

  function NotFoundMessage(id: int): string {
    "Submission with id " + IntToString(id) + " not found."
  }

  const MissingQuestionError: string := "'NoneType' object has no attribute 'question_type'"

  function ErrorMessage(id: int, error: string): string {
    "Error grading submission " + IntToString(id) + ": " + error
  }

  function SuccessMessage(id: int): string {
    "Submission " + IntToString(id) + " graded successfully."
  }

  /** The position of the submission with this id, if any. */
  function FindSubmission(subs: seq<Submission>, id: int): (r: Option<nat>)
    ensures r.None? <==> forall k :: 0 <= k < |subs| ==> subs[k].id != id
    ensures r.Some? ==> r.value < |subs| && subs[r.value].id == id
  {
    if subs == [] then None
    else if subs[0].id == id then Some(0)
    else
      var rest := FindSubmission(subs[1..], id);
      if rest.Some? then Some(rest.value + 1) else None
  }

  /** The tables the task reads and writes. */
  class GradingStore {
    var submissions: seq<Submission>
    var studentQuizzes: seq<StudentQuizRow>
    const testCases: map<int, seq<TestCase>>

    /** Submission ids are unique. */
    ghost predicate Valid()
      reads this
    {
      forall i, j :: 0 <= i < j < |submissions| ==> submissions[i].id != submissions[j].id
    }

    constructor (submissions: seq<Submission>, studentQuizzes: seq<StudentQuizRow>, testCases: map<int, seq<TestCase>>)
      requires forall i, j :: 0 <= i < j < |submissions| ==> submissions[i].id != submissions[j].id
      ensures Valid()
      ensures this.submissions == submissions && this.studentQuizzes == studentQuizzes
      ensures this.testCases == testCases
    {
      this.submissions := submissions;
      this.studentQuizzes := studentQuizzes;
      this.testCases := testCases;
    }

    function TestsFor(q: Question): seq<TestCase>
      reads this
    {
      if q.id in testCases then testCases[q.id] else []
    }

    /** The per-type dispatch of `grade_submission`, running the code of a
        code question against this question's test cases. */
    method Judge(q: Question, answerText: Option<string>, sandbox: Sandbox) returns (g: Grading)
      ensures g == GradeRule(q, answerText, TestsFor(q), sandbox)
    {
      var answer := AnswerOf(answerText);
      var qtype := Lower(q.questionType);
      var correct := false;
      if qtype == "mcq" {
        correct := McqAnswerMatches(q, answer);
      } else if qtype == "text" || qtype == "tf" || qtype == "fill" {
        correct := TextCorrect(q, answer);
      } else if qtype == "code" {
        var runs;
        correct, runs := RunTestCases(answer, TestsFor(q), sandbox);
      }
      g := Grading(correct, if correct then q.points else 0);
    }

    /** `grade_submission(submission_id)`: never raises, always answers with
        a message. A missing submission or one without a question changes
        nothing; otherwise the submission receives the rule's verdict and
        award, and the student's newest open sitting of the quiz, if there
        is one, receives the sum of the student's awards for that quiz. */
    method GradeSubmission(submissionId: int, sandbox: Sandbox) returns (message: string)
      requires Valid()
      modifies this
      ensures Valid()
      ensures var found := FindSubmission(old(submissions), submissionId);
        && (found.None? ==> message == NotFoundMessage(submissionId) && unchanged(this))
        && (found.Some? && old(submissions)[found.value].question.None? ==>
              message == ErrorMessage(submissionId, MissingQuestionError) && unchanged(this))
        && (found.Some? && old(submissions)[found.value].question.Some? ==>
              var s := old(submissions)[found.value];
              var g := GradeRule(s.question.value, s.answerText, TestsFor(s.question.value), sandbox);
              && message == SuccessMessage(submissionId)
              && submissions == old(submissions)[found.value := s.(isCorrect := g.isCorrect, scoreAwarded := g.scoreAwarded)]
              && var latest := LatestOpen(old(studentQuizzes), s.user, s.quiz);
                 studentQuizzes == if latest.None? then old(studentQuizzes)
                   else old(studentQuizzes)[latest.value := old(studentQuizzes)[latest.value].(totalScore := SumAwarded(submissions, s.user, s.quiz))])
    {
      var found := FindSubmission(submissions, submissionId);
      if found.None? {
        return NotFoundMessage(submissionId);
      }
      var s := submissions[found.value];
      if s.question.None? {
        return ErrorMessage(submissionId, MissingQuestionError);
      }
      var q := s.question.value;
      var g := Judge(q, s.answerText, sandbox);
      submissions := submissions[found.value := s.(isCorrect := g.isCorrect, scoreAwarded := g.scoreAwarded)];
      var latest := LatestOpen(studentQuizzes, s.user, s.quiz);
      if latest.Some? {
        var total := SumAwarded(submissions, s.user, s.quiz);
        studentQuizzes := studentQuizzes[latest.value := studentQuizzes[latest.value].(totalScore := total)];
      }
      message := SuccessMessage(submissionId);
    }
  }
}
