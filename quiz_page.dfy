/** The quiz attempt page (frontend_react/src/pages/QuizPage.js): one
    attempt from load to submission. It keeps an answer map keyed by question
    id, mirrored into the browser's draft store under
    `quiz_answers_draft_<attemptId>`, a question cursor, and the
    `isSubmitting` / `alreadySubmitted` flags. Manual and timed submission go
    through one path that builds a filtered payload, refuses an empty manual
    submit, removes the draft on success and keeps it on failure.

    Requests to the server are recorded in a log instead of being sent; the
    server's answers arrive through `LoadSucceeded`, `LoadFailed` and
    `SubmitResolved`. */
module QuizPage {
  import opened Common
  import Timer

  /** A loaded question: its id and its declared type ("mcq", "tf", "text"
      or "code"). */
  datatype Question = Question(id: int, questionType: string)

  /** What the answer map holds for a question: the `null` written at load,
      an option id (multiple choice), a boolean (true/false), or a string
      (free text and code alike). */
  datatype AnswerValue = Null | OptionId(id: int) | Bool(b: bool) | Str(s: string)

  /** JavaScript truthiness of an answer value. */
  predicate Truthy(v: AnswerValue) {
    match v
    case Null => false
    case OptionId(n) => n != 0
    case Bool(b) => b
    case Str(s) => s != ""
  }

  /** Truthiness of a payload field that may be `undefined` (`None`). */
  predicate FieldTruthy(f: Option<AnswerValue>) {
    f.Some? && Truthy(f.value)
  }

  // ---------------------------------------------------------------- payload

  /** One element of the submitted `answers` array; `None` is a field left
      `undefined`, which the JSON body omits. */
  datatype PayloadEntry = PayloadEntry(
    question: int,
    selectedOption: AnswerValue,
    answerText: Option<AnswerValue>,
    codeSubmitted: Option<AnswerValue>)

  /** `answers[id]`, with an absent entry read as `null`. */
  function Lookup(answers: map<int, AnswerValue>, id: int): AnswerValue {
    if id in answers then answers[id] else Null
  }

  /** The `map` step: the raw answer goes into `selected_option` whatever the
      question type; `answer_text` is set for text questions only and
      `code_submitted` for code questions only. */
  function EntryFor(q: Question, answers: map<int, AnswerValue>): PayloadEntry {
    var v := Lookup(answers, q.id);
    PayloadEntry(
      q.id, v,
      if q.questionType == "text" then Some(v) else None,
      if q.questionType == "code" then Some(v) else None)
  }

  /** The `filter` predicate, as written. */
  predicate Kept(e: PayloadEntry) {
    e.selectedOption != Null || FieldTruthy(e.answerText) || FieldTruthy(e.codeSubmitted)
  }

  function Entries(qs: seq<Question>, answers: map<int, AnswerValue>): seq<PayloadEntry> {
    if qs == [] then [] else [EntryFor(qs[0], answers)] + Entries(qs[1..], answers)
  }

  function KeepEntries(es: seq<PayloadEntry>): seq<PayloadEntry> {
    if es == [] then []
    else (if Kept(es[0]) then [es[0]] else []) + KeepEntries(es[1..])
  }

  /** The body of the submit request: one entry per question, in question
      order, filtered. */
  function BuildPayload(qs: seq<Question>, answers: map<int, AnswerValue>): seq<PayloadEntry> {
    KeepEntries(Entries(qs, answers))
  }

  /** A question counts as answered when its entry is present and not
      `null`; `false`, `0` and `''` are answers. */
  predicate IsAnswered(q: Question, answers: map<int, AnswerValue>) {
    q.id in answers && answers[q.id] != Null
  }

  /** The answered questions, in question order. */
  function Answered(qs: seq<Question>, answers: map<int, AnswerValue>): seq<Question> {
    if qs == [] then []
    else (if IsAnswered(qs[0], answers) then [qs[0]] else []) + Answered(qs[1..], answers)
  }

  /** The filter keeps an entry exactly when its question is answered: a
      `null` `selected_option` leaves `answer_text` and `code_submitted`
      null or undefined, so the other two disjuncts never decide. */
  lemma KeptIffAnswered(q: Question, answers: map<int, AnswerValue>)
    ensures Kept(EntryFor(q, answers)) <==> IsAnswered(q, answers)
    ensures answers == answers[q.id := Bool(false)] ==> Kept(EntryFor(q, answers))
    ensures answers == answers[q.id := Str("")] ==> Kept(EntryFor(q, answers))
  {
  }

  /** Filtering the entries is the same as mapping the answered questions:
      the payload has one entry per answered question, in question order,
      with that question's stored answer. */
  lemma {:induction false} PayloadIsAnsweredEntries(qs: seq<Question>, answers: map<int, AnswerValue>)
    ensures BuildPayload(qs, answers) == Entries(Answered(qs, answers), answers)
  {
    if qs != [] {
      PayloadIsAnsweredEntries(qs[1..], answers);
      KeptIffAnswered(qs[0], answers);
      if IsAnswered(qs[0], answers) {
        assert Answered(qs, answers) == [qs[0]] + Answered(qs[1..], answers);
        assert Answered(qs, answers)[1..] == Answered(qs[1..], answers);
      } else {
        assert Answered(qs, answers) == Answered(qs[1..], answers);
      }
    }
  }

  /** Membership in `Answered`: exactly the questions of `qs` that are
      answered. */
  lemma {:induction false} AnsweredMembers(qs: seq<Question>, answers: map<int, AnswerValue>)
    ensures |Answered(qs, answers)| <= |qs|
    ensures forall q :: q in Answered(qs, answers) <==> q in qs && IsAnswered(q, answers)
  {
    if qs != [] {
      AnsweredMembers(qs[1..], answers);
      assert forall q :: q in qs <==> q == qs[0] || q in qs[1..];
    }
  }

  /** Field by field: entry `i` of the mapped list is question `i`'s id and
      stored answer, with `answer_text` present exactly for
      text questions and `code_submitted` exactly for code questions, each
      holding the same stored answer. */
  lemma {:induction false} EntriesAt(qs: seq<Question>, answers: map<int, AnswerValue>, i: nat)
    requires i < |qs|
    ensures |Entries(qs, answers)| == |qs|
    ensures var e := Entries(qs, answers)[i];
      && e.question == qs[i].id
      && e.selectedOption == Lookup(answers, qs[i].id)
      && (e.answerText.Some? <==> qs[i].questionType == "text")
      && (e.answerText.Some? ==> e.answerText.value == Lookup(answers, qs[i].id))
      && (e.codeSubmitted.Some? <==> qs[i].questionType == "code")
      && (e.codeSubmitted.Some? ==> e.codeSubmitted.value == Lookup(answers, qs[i].id))
  {
    if i > 0 {
      EntriesAt(qs[1..], answers, i - 1);
    } else {
      EntriesLength(qs[1..], answers);
    }
  }

  lemma {:induction false} EntriesLength(qs: seq<Question>, answers: map<int, AnswerValue>)
    ensures |Entries(qs, answers)| == |qs|
  {
    if qs != [] {
      EntriesLength(qs[1..], answers);
    }
  }

  /** The payload is empty exactly when no question is answered. */
  lemma PayloadEmptyIff(qs: seq<Question>, answers: map<int, AnswerValue>)
    ensures BuildPayload(qs, answers) == [] <==> forall q :: q in qs ==> !IsAnswered(q, answers)
  {
    PayloadIsAnsweredEntries(qs, answers);
    AnsweredMembers(qs, answers);
    var a := Answered(qs, answers);
    EntriesLength(a, answers);
    if a != [] {
      assert a[0] in a;
    }
  }

  // ---------------------------------------------------------------- draft store

  /** A value in the browser's draft store: the serialisation of an answer
      map, or a string that does not parse as one. */
  datatype Stored = Draft(answers: map<int, AnswerValue>) | Unparseable(raw: string)

  /** `if (saved)`: a stored string is truthy unless it is empty; a
      serialised map never is. */
  predicate StoredTruthy(s: Stored) {
    s.Draft? || s.raw != ""
  }

  const DraftPrefix: string := "quiz_answers_draft"

  /** The draft store key of an attempt. The attempt id can be read back
      from it, so two attempts never share a key. */
  function DraftKey(attempt: string): string {
    DraftPrefix + "_" + attempt
  }

  /** The key is the prefix, an underscore and the attempt id, which can be
      cut back out of it. */
  lemma DraftKeyParts(attempt: string)
    ensures var k := DraftKey(attempt);
      && |k| == |DraftPrefix| + 1 + |attempt|
      && k[..|DraftPrefix| + 1] == DraftPrefix + "_"
      && k[|DraftPrefix| + 1..] == attempt
  {
  }

  lemma DraftKeysDistinct(a: string, b: string)
    requires a != b
    ensures DraftKey(a) != DraftKey(b)
  {
    DraftKeyParts(a);
    DraftKeyParts(b);
    assert DraftKey(a)[|DraftPrefix| + 1..] != DraftKey(b)[|DraftPrefix| + 1..];
  }

  /** `${x}` for a URL parameter that is a string or `null`. */
  function UrlText(param: Option<string>): string {
    if param.Some? then param.value else "null"
  }

  /** `!x` for a URL parameter: absent or empty. */
  predicate Missing(param: Option<string>) {
    param.None? || param.value == ""
  }

  /** The ids of the loaded questions. */
  function QuestionIds(qs: seq<Question>): set<int> {
    set q | q in qs :: q.id
  }

  /** The answer map seeded at load when there is no draft: every loaded
      question id maps to `null`, and nothing else is a key. */
  function NullAnswers(qs: seq<Question>): (m: map<int, AnswerValue>)
    ensures m.Keys == QuestionIds(qs)
    ensures m.Values <= {Null}
    ensures forall q :: q in qs ==> !IsAnswered(q, m)
  {
    map q | q in qs :: q.id := Null
  }

  /** With no draft, a submit right after loading finds nothing answered. */
  lemma NullAnswersEmptyPayload(qs: seq<Question>)
    ensures BuildPayload(qs, NullAnswers(qs)) == []
  {
    PayloadEmptyIff(qs, NullAnswers(qs));
  }

  /** The server detail when there is a non-empty one (`detail || fallback`). */
  function DetailOr(detail: Option<string>, fallback: string): (msg: string)
    ensures detail.Some? && detail.value != "" ==> msg == detail.value
    ensures detail.None? || detail.value == "" ==> msg == fallback
  {
    if detail.Some? && detail.value != "" then detail.value else fallback
  }

  /** The minutes handed to the timer: `duration_minutes || 60`, so never 0. */
  function TimerMinutes(durationMinutes: Option<nat>): (m: nat)
    ensures m > 0
    ensures durationMinutes.Some? && durationMinutes.value > 0 ==> m == durationMinutes.value
  {
    if durationMinutes.Some? && durationMinutes.value > 0 then durationMinutes.value else 60
  }

  // ---------------------------------------------------------------- session

  datatype Request =
    | LoadAttempt(attempt: string)
    | SubmitAttempt(attempt: string, answers: seq<PayloadEntry>)

  datatype Toast = Info(message: string) | Success(message: string) | Failure(message: string)

  datatype SubmitResponse = Accepted | SubmitFailed(detail: Option<string>)

  const MissingIdsMessage: string := "Quiz ID or Attempt ID missing in URL"
  const LoadFailedMessage: string := "Failed to load quiz details."
  const EmptySubmitMessage: string := "Please answer at least one question before submitting."
  const SubmitFailedMessage: string := "Failed to submit quiz."
  const AlreadySubmittedMessage: string := "Quiz already submitted."
  const SubmittedMessage: string := "Quiz submitted successfully!"

  /** How many submit requests a request log holds. */
  function SubmitCount(rs: seq<Request>): nat {
    if rs == [] then 0
    else SubmitCount(rs[..|rs| - 1]) + (if rs[|rs| - 1].SubmitAttempt? then 1 else 0)
  }

  /** The state of one mounted quiz page. */
  class Session {
    const quizId: Option<string>
    const attemptId: Option<string>
    /** This attempt's draft store key. */
    const key: string
    var questions: seq<Question>
    var title: Option<string>
    var durationMinutes: Option<nat>
    var answers: map<int, AnswerValue>
    var currentIndex: nat
    var loading: bool
    var error: string
    var submitError: string
    var isSubmitting: bool
    var alreadySubmitted: bool
    var confirmOpen: bool
    /** The load effect's `saved`, which the load callback consults. */
    var hadDraft: bool
    /** The browser's draft store (localStorage). */
    var draftStore: map<string, Stored>
    var requests: seq<Request>
    var toasts: seq<Toast>
    var navigatedTo: Option<string>
    /** Submit requests whose response has arrived. */
    ghost var settledSubmits: nat


    /** The cursor stays on the list; the draft store holds the whole answer
        map or nothing (after a successful submit); questions arrive only
        with the load response; and at most one submit request is
        unanswered, the last one sent, exactly while `isSubmitting`. */
    ghost predicate Valid()
      reads this
    {
      && (currentIndex == 0 || currentIndex < |questions|)
      && (loading ==> questions == [])
      && (!Missing(attemptId) ==> key !in draftStore || draftStore[key] == Draft(answers))
      && SubmitCount(requests) == settledSubmits + (if isSubmitting then 1 else 0)
      && (isSubmitting ==> requests != [] && requests[|requests| - 1].SubmitAttempt?)
    }

    /** Mounting the page: the load effect (missing-id check, draft read, load
        request) and then the draft write effect. */
    constructor (quizId: Option<string>, attemptId: Option<string>, store: map<string, Stored>)
      ensures Valid()
      ensures this.quizId == quizId && this.attemptId == attemptId && key == DraftKey(UrlText(attemptId))
      ensures Missing(quizId) || Missing(attemptId) ==>
        error == MissingIdsMessage && !loading && requests == [] && !hadDraft && answers == map[]
      ensures !(Missing(quizId) || Missing(attemptId)) ==>
        && error == "" && loading && requests == [LoadAttempt(attemptId.value)]
        && (hadDraft <==> key in store && StoredTruthy(store[key]))
        && answers == (if key in store && store[key].Draft? then store[key].answers else map[])
      ensures draftStore == if Missing(attemptId) then store else store[key := Draft(answers)]
      ensures questions == [] && currentIndex == 0 && title == None && durationMinutes == None
      ensures submitError == "" && !isSubmitting && !alreadySubmitted && !confirmOpen
      ensures toasts == [] && navigatedTo == None && settledSubmits == 0
    {
      var k := DraftKey(UrlText(attemptId));
      var missing := Missing(quizId) || Missing(attemptId);
      var draft := !missing && k in store && StoredTruthy(store[k]);
      var restored := if draft && store[k].Draft? then store[k].answers else map[];
      this.quizId, this.attemptId, key := quizId, attemptId, k;
      questions, title, durationMinutes := [], None, None;
      answers, currentIndex := restored, 0;
      loading, error, submitError := !missing, if missing then MissingIdsMessage else "", "";
      isSubmitting, alreadySubmitted, confirmOpen := false, false, false;
      hadDraft := draft;
      draftStore := if Missing(attemptId) then store else store[k := Draft(restored)];
      requests := if missing then [] else [LoadAttempt(attemptId.value)];
      toasts, navigatedTo := [], None;
      settledSubmits := 0;
    }

    /** `setAnswers` followed by the draft write effect: the map is replaced
        and, when there is an attempt id, written through to the store. */
    method SetAnswers(m: map<int, AnswerValue>)
      requires Valid()
      modifies this`answers, this`draftStore
      ensures Valid()
      ensures answers == m
      ensures draftStore == if Missing(attemptId) then old(draftStore) else old(draftStore)[key := Draft(m)]
    {
      answers := m;
      if !Missing(attemptId) {
        draftStore := draftStore[key := Draft(answers)];
      }
    }

    /** The load request succeeds (`then` and `finally`): the questions are
        set and, when no draft was found at mount, every question starts at
        `null` and the map is written through; a draft is never
        overwritten. */
    method LoadSucceeded(submitted: bool, quizTitle: string, minutes: nat, qs: seq<Question>)
      requires Valid() && loading
      modifies this`alreadySubmitted, this`title, this`durationMinutes, this`questions
      modifies this`answers, this`draftStore, this`loading
      ensures Valid() && !loading
      ensures alreadySubmitted == submitted && questions == qs
      ensures title == Some(quizTitle) && durationMinutes == Some(minutes)
      ensures answers == if hadDraft then old(answers) else NullAnswers(qs)
      ensures draftStore == if hadDraft || Missing(attemptId) then old(draftStore)
                            else old(draftStore)[key := Draft(answers)]
    {
      alreadySubmitted := submitted;
      title, durationMinutes := Some(quizTitle), Some(minutes);
      questions := qs;
      loading := false;
      if !hadDraft {
        SetAnswers(NullAnswers(qs));
      }
    }

    /** The load request fails (`catch` and `finally`): the server detail or
        the generic message becomes the page error and a toast. */
    method LoadFailed(detail: Option<string>)
      requires Valid() && loading
      modifies this`error, this`toasts, this`loading
      ensures Valid() && !loading
      ensures error == DetailOr(detail, LoadFailedMessage)
      ensures toasts == old(toasts) + [Failure(error)]
    {
      error := DetailOr(detail, LoadFailedMessage);
      toasts := toasts + [Failure(error)];
      loading := false;
    }

    /** `handleAnswerChange`: only entry `questionId` changes, and the draft
        store then holds the whole new map. */
    method HandleAnswerChange(questionId: int, value: AnswerValue)
      requires Valid()
      modifies this`answers, this`draftStore
      ensures Valid()
      ensures answers == old(answers)[questionId := value]
      ensures forall id :: id != questionId ==> Lookup(answers, id) == Lookup(old(answers), id)
      ensures !Missing(attemptId) ==> draftStore == old(draftStore)[key := Draft(answers)]
      ensures Missing(attemptId) ==> draftStore == old(draftStore)
    {
      SetAnswers(answers[questionId := value]);
    }

    /** `goToNext`: one question forward unless on the last one. */
    method GoToNext()
      requires Valid()
      modifies this`currentIndex
      ensures Valid()
      ensures currentIndex == if old(currentIndex) < |questions| - 1 then old(currentIndex) + 1 else old(currentIndex)
      ensures |questions| > 0 ==> currentIndex <= |questions| - 1
    {
      if currentIndex < |questions| - 1 {
        currentIndex := currentIndex + 1;
      }
    }

    /** `goToPrev`: one question back unless on the first one. */
    method GoToPrev()
      requires Valid()
      modifies this`currentIndex
      ensures Valid()
      ensures currentIndex == if old(currentIndex) > 0 then old(currentIndex) - 1 else 0
    {
      if currentIndex > 0 {
        currentIndex := currentIndex - 1;
      }
    }

    /** The submit button: an info message when the attempt is already
        submitted, otherwise the confirmation dialog opens. */
    method HandleSubmit()
      requires Valid()
      modifies this`toasts, this`confirmOpen
      ensures Valid()
      ensures old(alreadySubmitted) ==> toasts == old(toasts) + [Info(AlreadySubmittedMessage)] && confirmOpen == old(confirmOpen)
      ensures !old(alreadySubmitted) ==> confirmOpen && toasts == old(toasts)
    {
      if alreadySubmitted {
        toasts := toasts + [Info(AlreadySubmittedMessage)];
        return;
      }
      confirmOpen := true;
    }

    /** The dialog's cancel button. */
    method CancelConfirm()
      requires Valid()
      modifies this`confirmOpen
      ensures Valid() && !confirmOpen
    {
      confirmOpen := false;
    }

    /** `confirmSubmission(auto)`: ignored while a submission is in flight.
        Otherwise the payload is built; an empty manual submit only sets the
        "answer at least one question" error, while every other submit,
        including an empty automatic one, sends the payload. */
    method ConfirmSubmission(auto: bool)
      requires Valid()
      modifies this`confirmOpen, this`submitError, this`isSubmitting, this`requests
      ensures Valid()
      ensures old(isSubmitting) ==>
        && isSubmitting && confirmOpen == old(confirmOpen)
        && submitError == old(submitError) && requests == old(requests)
      ensures !old(isSubmitting) ==>
        var payload := BuildPayload(questions, answers);
        && !confirmOpen
        && (if payload == [] && !auto
            then submitError == EmptySubmitMessage && !isSubmitting && requests == old(requests)
            else submitError == "" && isSubmitting
                 && requests == old(requests) + [SubmitAttempt(UrlText(attemptId), payload)])
    {
      if isSubmitting {
        return;
      }
      confirmOpen := false;
      submitError := "";
      isSubmitting := true;
      var payload := BuildPayload(questions, answers);
      if |payload| == 0 && !auto {
        submitError := EmptySubmitMessage;
        isSubmitting := false;
        return;
      }
      requests := requests + [SubmitAttempt(UrlText(attemptId), payload)];
    }

    /** `handleTimeUp`: an automatic submit unless the attempt is already
        submitted. */
    method HandleTimeUp()
      requires Valid()
      modifies this`confirmOpen, this`submitError, this`isSubmitting, this`requests
      ensures Valid()
      ensures old(alreadySubmitted) || old(isSubmitting) ==>
        && requests == old(requests) && isSubmitting == old(isSubmitting)
        && confirmOpen == old(confirmOpen) && submitError == old(submitError)
      ensures !old(alreadySubmitted) && !old(isSubmitting) ==>
        && isSubmitting && !confirmOpen && submitError == ""
        && requests == old(requests) + [SubmitAttempt(UrlText(attemptId), BuildPayload(questions, answers))]
    {
      if !alreadySubmitted {
        ConfirmSubmission(true);
      }
    }

    /** The submit response arrives. On success the draft key is removed,
        the attempt is marked submitted and the page moves to the results.
        On failure the draft stays, `alreadySubmitted` is unchanged and the
        server detail or the generic message is shown. `isSubmitting` ends
        false either way. */
    method SubmitResolved(response: SubmitResponse)
      requires Valid() && isSubmitting
      modifies this`toasts, this`draftStore, this`alreadySubmitted, this`navigatedTo
      modifies this`submitError, this`isSubmitting, this`settledSubmits
      ensures Valid() && !isSubmitting && settledSubmits == old(settledSubmits) + 1
      ensures response.Accepted? ==>
        && draftStore == old(draftStore) - {key} && key !in draftStore
        && alreadySubmitted
        && navigatedTo == Some("/results/" + UrlText(attemptId))
        && toasts == old(toasts) + [Success(SubmittedMessage)]
        && submitError == old(submitError)
      ensures response.SubmitFailed? ==>
        var msg := DetailOr(response.detail, SubmitFailedMessage);
        && draftStore == old(draftStore)
        && alreadySubmitted == old(alreadySubmitted)
        && navigatedTo == old(navigatedTo)
        && submitError == msg && toasts == old(toasts) + [Failure(msg)]
    {
      match response {
        case Accepted =>
          toasts := toasts + [Success(SubmittedMessage)];
          draftStore := draftStore - {key};
          alreadySubmitted := true;
          navigatedTo := Some("/results/" + UrlText(attemptId));
        case SubmitFailed(detail) =>
          var msg := DetailOr(detail, SubmitFailedMessage);
          submitError := msg;
          toasts := toasts + [Failure(msg)];
      }
      isSubmitting := false;
      settledSubmits := settledSubmits + 1;
    }
  }

  // ---------------------------------------------------------------- scenarios

  /** A double click on the dialog's confirm button sends one request:
      the second click finds the first one in flight. */
  method DoubleConfirm(page: Session)
    requires page.Valid() && !page.isSubmitting && BuildPayload(page.questions, page.answers) != []
    modifies page
    ensures page.Valid() && page.isSubmitting
    ensures page.requests ==
      old(page.requests) + [SubmitAttempt(UrlText(page.attemptId), BuildPayload(page.questions, page.answers))]
    ensures SubmitCount(page.requests) == SubmitCount(old(page.requests)) + 1
  {
    page.ConfirmSubmission(false);
    page.ConfirmSubmission(false);
  }

  /** The timer runs out on a freshly loaded page where nothing was
      answered: an empty payload is still sent, and on success the draft
      is gone and the attempt is marked submitted. */
  method TimeUpWithoutAnswers(page: Session)
    requires page.Valid() && !page.alreadySubmitted && !page.isSubmitting
    requires page.answers == NullAnswers(page.questions)
    modifies page
    ensures page.Valid()
    ensures page.requests == old(page.requests) + [SubmitAttempt(UrlText(page.attemptId), [])]
    ensures page.alreadySubmitted && page.key !in page.draftStore
  {
    NullAnswersEmptyPayload(page.questions);
    page.HandleTimeUp();
    page.SubmitResolved(Accepted);
  }

  /** A failed submit leaves the draft holding the answers and the attempt
      open, and confirming again sends the same answers once more. */
  method RetryAfterFailure(page: Session, detail: Option<string>)
    requires page.Valid() && page.isSubmitting && !Missing(page.attemptId)
    requires BuildPayload(page.questions, page.answers) != []
    modifies page
    ensures page.Valid()
    ensures page.alreadySubmitted == old(page.alreadySubmitted) && page.answers == old(page.answers)
    ensures page.draftStore == old(page.draftStore)
    ensures page.key in page.draftStore ==> page.draftStore[page.key] == Draft(page.answers)
    ensures page.isSubmitting && SubmitCount(page.requests) == SubmitCount(old(page.requests)) + 1
    ensures page.requests ==
      old(page.requests) + [SubmitAttempt(UrlText(page.attemptId), BuildPayload(page.questions, page.answers))]
  {
    page.SubmitResolved(SubmitFailed(detail));
    page.ConfirmSubmission(false);
  }

  /** The page's countdown, mounted once loading has finished with a
      time-up handler: it runs for the quiz's duration (or 60 minutes) and
      then calls its handler exactly once. */
  method RunPageTimer(page: Session) returns (ticks: nat, calls: nat)
    ensures ticks > 0 && ticks == TimerMinutes(page.durationMinutes) * 60
    ensures calls == 1
  {
    ticks, calls := Timer.RunToEnd(TimerMinutes(page.durationMinutes), true);
  }
}
