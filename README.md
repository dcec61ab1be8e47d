# Quiz website core, modelled in Dafny

This project models the parts of the quiz website that carry decisions:

- the student's quiz session in the browser;
- the countdown;
- the server's grading and submission rules;
- the background grading task;
- the sign-up form's validation.

Rendering, HTTP, the ORM and the framework are left out. Each module follows one source file:

| module | file | form |
|---|---|---|
| `Common` | (shared) | JavaScript `trim` / Python `strip` on ASCII whitespace, ASCII lower-casing, decimal printing and Python's `int()` on strings, `join` |
| `Timer` | frontend_react/src/components/quiz/Timer.js | `FormatTime` as a function; the countdown as a class `Countdown` whose `Tick` and `RunEffect` update the seconds left and the once-only flag |
| `QuizPage` | frontend_react/src/pages/QuizPage.js | the payload filter as functions; the page state as a class `Session` holding the answer map, cursor, flags, the browser's draft store (a map) and logs of requests, toasts and navigation |
| `Models` | backend_django/quizzes/models.py | `Quiz.clean`, `Question.is_correct_answer` (Python's `sorted` as an insertion sort, proved equal to multiset comparison) and `time_taken` as functions |
| `Views` | backend_django/quizzes/views.py | the listing window, start gates and leaderboard as functions; the scoring loop as a method proved against a recursive specification; the attempt row as a class whose `Submit` either changes nothing or records the graded submission |
| `Tasks` | backend_django/quizzes/tasks.py | the per-type rules as functions; the test-case loop (with `break`) as a method; the stored tables as a class whose `GradeSubmission` updates one submission and the newest open sitting's total |
| `SignupForm` | frontend_react/src/components/auth/SignupForm.js | the field update, the ordered guards and the server-error precedence as functions |

In `Views`, the scoring loop and its specification take the answer check as a function-valued parameter of type `AnswerCheck`; `Submit` passes the check of `models.py` (`Grade`).

The browser's draft store, the server's reply to each request and the clock are parameters or fields.
The code sandbox is a function value from (code, input) to output.
Each React handler is one atomic step.

Client answers are `Null`, an option id, a boolean or a string, as the question components produce them.

The payload filter in `QuizPage.js` keeps an answer of `false` or of the empty string: only `null` and absent answers are dropped.
So a text answer of `''` is sent.

## Model

| member | source | states |
|---|---|---|
| `Common.Strip` | frontend_react/src/components/auth/SignupForm.js:25 | trimming leaves nothing exactly when the string is all whitespace; otherwise both ends of the result are non-space |
| `Common.LeadingSpacesSpec` | frontend_react/src/components/auth/SignupForm.js:25 | the leading run cut by trimming is whitespace and stops at a non-space character |
| `Common.TrailingSpacesSpec` | frontend_react/src/components/auth/SignupForm.js:25 | the trailing run cut by trimming is whitespace and stops at a non-space character |
| `Common.StripKeeps` | backend_django/quizzes/tasks.py:19 | a text with no whitespace at either end is its own stripped form |
| `Common.StripLower` | backend_django/quizzes/tasks.py:41 | stripping and lower-casing can be applied in either order |
| `Common.LeadingLower` | backend_django/quizzes/tasks.py:41 | lower-casing does not change the leading whitespace run |
| `Common.TrailingLower` | backend_django/quizzes/tasks.py:41 | lower-casing does not change the trailing whitespace run |
| `Common.LowerIdempotent` | backend_django/quizzes/tasks.py:41 | lower-casing twice is lower-casing once |
| `Common.NatToDecimal` | frontend_react/src/components/quiz/Timer.js:6 | `toString` of a natural number: digits only, no leading zero, at most two digits below 100, and its decimal value is the number |
| `Common.ParsePyInt` | backend_django/quizzes/tasks.py:29 | Python's `int()` on a string: surrounding whitespace, an optional sign and ASCII digits; it fails on an all-whitespace string, and `ParsePrinted` shows it reads back every printed integer |
| `Common.LeadingZeros` | frontend_react/src/components/quiz/Timer.js:6 | leading zeros keep a digit string's value |
| `Common.ParsePrinted` | backend_django/quizzes/tasks.py:29 | `int(str(i)) == i` for every integer, and a printed integer carries no surrounding whitespace |
| `Timer.PadStart` | frontend_react/src/components/quiz/Timer.js:6 | `padStart`: length is `max(width, len)`, the original is the suffix, the rest is fill |
| `Timer.PaddedValue` | frontend_react/src/components/quiz/Timer.js:6 | zero padding keeps a digit string's value |
| `Timer.FormatTime` | frontend_react/src/components/quiz/Timer.js:3-7 | the text has at least five characters with `:` third from the end |
| `Timer.FormatTimeReadsBack` | frontend_react/src/components/quiz/Timer.js:3-7 | the text is `MM:SS` with at least two minute digits (no leading zero beyond two) reading back as `s div 60`, and exactly two second digits reading back as `s mod 60` |
| `Timer.ReadFields` | frontend_react/src/components/quiz/Timer.js:6 | both fields can be cut back out of the joined text |
| `Timer.Countdown.constructor` | frontend_react/src/components/quiz/Timer.js:10-11 | the count starts at `durationMinutes * 60` with the once-only flag clear |
| `Timer.Countdown.RunEffect` | frontend_react/src/components/quiz/Timer.js:13-27 | at or below zero the handler fires only if present and not yet called, and the flag is then set; above zero an interval is installed and nothing fires |
| `Timer.Countdown.Tick` | frontend_react/src/components/quiz/Timer.js:22-24 | a tick (only while above zero) lowers the count by exactly one and never below zero; the handler fires at most once in total |
| `Timer.RunToEnd` | frontend_react/src/components/quiz/Timer.js:10-24 | run to the end, a positive start ticks exactly `minutes*60` times and the handler, if any, is called exactly once |
| `QuizPage.KeptIffAnswered` | frontend_react/src/pages/QuizPage.js:108-115 | an entry survives the filter exactly when its stored answer is neither null nor absent; `false` and `''` survive |
| `QuizPage.BuildPayload` | frontend_react/src/pages/QuizPage.js:108-115 | the submit body, mapped per question and then filtered; what it contains is stated by `KeptIffAnswered`, `PayloadIsAnsweredEntries` and `PayloadEmptyIff` |
| `QuizPage.PayloadIsAnsweredEntries` | frontend_react/src/pages/QuizPage.js:108-115 | the filtered payload equals the entries of the answered questions, in question order |
| `QuizPage.AnsweredMembers` | frontend_react/src/pages/QuizPage.js:115 | the answered questions are exactly the questions with a non-null answer |
| `QuizPage.EntriesAt` | frontend_react/src/pages/QuizPage.js:108-114 | entry `i` carries question `i`'s id and raw answer; `answer_text` is present exactly for text questions and `code_submitted` exactly for code questions, each then holding that same raw answer |
| `QuizPage.EntriesLength` | frontend_react/src/pages/QuizPage.js:108-114 | the mapped list has one entry per question |
| `QuizPage.PayloadEmptyIff` | frontend_react/src/pages/QuizPage.js:115-117 | the payload is empty exactly when no question is answered |
| `QuizPage.DraftKey` | frontend_react/src/pages/QuizPage.js:38 | the local-storage key of an attempt's draft; its shape is stated by `DraftKeyParts` and its injectivity by `DraftKeysDistinct` |
| `QuizPage.DraftKeyParts` | frontend_react/src/pages/QuizPage.js:38 | the draft key is `quiz_answers_draft_` followed by the attempt id, which can be read back |
| `QuizPage.DraftKeysDistinct` | frontend_react/src/pages/QuizPage.js:69 | two attempts never share a draft key |
| `QuizPage.NullAnswers` | frontend_react/src/pages/QuizPage.js:51-57 | the seeded map's keys are exactly the loaded question ids, every value is null, and no question counts as answered |
| `QuizPage.NullAnswersEmptyPayload` | frontend_react/src/pages/QuizPage.js:51-57 | right after a load without a draft the payload is empty |
| `QuizPage.DetailOr` | frontend_react/src/pages/QuizPage.js:132 | the message is the server detail when it is non-empty, else the fallback |
| `QuizPage.TimerMinutes` | frontend_react/src/pages/QuizPage.js:148 | the timer gets the quiz duration when positive, else 60, so never 0 |
| `QuizPage.RunPageTimer` | frontend_react/src/pages/QuizPage.js:148 | the page's countdown runs `duration_minutes || 60` minutes, a positive number of ticks, and then calls its time-up handler exactly once (which handler that is, `handleTimeUp`, is not part of this member) |
| `QuizPage.Session.constructor` | frontend_react/src/pages/QuizPage.js:32-71 | the session's `key` is the attempt's draft key; with a missing id: the error is set, loading stops, no request is sent; otherwise one load request, and the answers come from a parseable draft (an unparseable one leaves them empty); the draft store then holds the answers whenever there is an attempt id |
| `QuizPage.Session.SetAnswers` | frontend_react/src/pages/QuizPage.js:67-71 | the answer map is replaced and written through under the attempt's key |
| `QuizPage.Session.LoadSucceeded` | frontend_react/src/pages/QuizPage.js:44-58 | questions and submitted flag are taken from the response; without a draft every question starts at null and is written through; a draft is never overwritten |
| `QuizPage.Session.LoadFailed` | frontend_react/src/pages/QuizPage.js:59-64 | the error and an error toast carry the server detail or "Failed to load quiz details."; loading stops |
| `QuizPage.Session.HandleAnswerChange` | frontend_react/src/pages/QuizPage.js:73-75 | only entry `q` changes, and the draft store then holds the whole new map |
| `QuizPage.Session.GoToNext` | frontend_react/src/pages/QuizPage.js:77-79 | one step forward except on the last question; the cursor stays in range |
| `QuizPage.Session.GoToPrev` | frontend_react/src/pages/QuizPage.js:81-83 | one step back except on the first question |
| `QuizPage.Session.HandleSubmit` | frontend_react/src/pages/QuizPage.js:93-99 | when already submitted an info toast and no dialog; otherwise the dialog opens |
| `QuizPage.Session.CancelConfirm` | frontend_react/src/pages/QuizPage.js:210 | the dialog closes |
| `QuizPage.Session.ConfirmSubmission` | frontend_react/src/pages/QuizPage.js:102-124 | ignored while a submit is in flight; an empty manual submit sets the "answer at least one question" error and sends nothing; any other submit, an empty automatic one included, sends exactly the filtered payload |
| `QuizPage.Session.HandleTimeUp` | frontend_react/src/pages/QuizPage.js:86-90 | when not submitted and no submit is in flight, the dialog closes, the error clears and the filtered payload is sent, even when empty; otherwise nothing changes |
| `QuizPage.Session.SubmitResolved` | frontend_react/src/pages/QuizPage.js:125-136 | success removes the draft key, marks the attempt submitted and navigates to the results; failure keeps the draft and the flag and shows the detail or "Failed to submit quiz."; `isSubmitting` ends false |
| `QuizPage.DoubleConfirm` | frontend_react/src/pages/QuizPage.js:103-106 | confirming twice in a row with answers given appends exactly one submit request, carrying the filtered payload |
| `QuizPage.TimeUpWithoutAnswers` | frontend_react/src/pages/QuizPage.js:86-129 | time-up on a freshly loaded page with nothing answered posts an empty payload; on success the attempt is submitted and no draft is left |
| `QuizPage.RetryAfterFailure` | frontend_react/src/pages/QuizPage.js:102-136 | after a failed submit the answers and draft store are untouched, the draft (if any) holds the answers, the submitted flag is unchanged, and confirming again sends the same payload as one more submit request |
| `Models.Clean` | backend_django/quizzes/models.py:19-21 | a validation error exactly when both times are set and the start is not before the end; `Views.CleanWindow` relates it to the listing window |
| `Models.CorrectChoices` | backend_django/quizzes/models.py:55 | exactly the choices flagged correct |
| `Models.ChoiceIds` | backend_django/quizzes/models.py:56 | the ids of the given choices, position by position |
| `Models.Insert` | backend_django/quizzes/models.py:63 | inserting adds exactly one element to the multiset |
| `Models.HeadIsLeast` | backend_django/quizzes/models.py:63 | the head of an ascending list is its least element |
| `Models.DropHead` | backend_django/quizzes/models.py:63 | dropping the head of an ascending list leaves an ascending list of the other elements |
| `Models.ConsSorted` | backend_django/quizzes/models.py:63 | an element no larger than any of an ascending list's can go in front |
| `Models.SameHead` | backend_django/quizzes/models.py:63 | two ascending lists with the same elements start alike, and so do their tails |
| `Models.InsertSorted` | backend_django/quizzes/models.py:63 | inserting into a sorted list keeps it sorted |
| `Models.SortInts` | backend_django/quizzes/models.py:63 | `sorted` returns an ascending permutation |
| `Models.SortedUnique` | backend_django/quizzes/models.py:63 | two ascending lists with the same elements are equal |
| `Models.SortedEqualIff` | backend_django/quizzes/models.py:63 | `sorted(a) == sorted(b)` exactly when `a` and `b` are equal as multisets |
| `Models.IntList` | backend_django/quizzes/models.py:61-62 | element-wise `int()`: fails exactly when some element cannot convert |
| `Models.IsCorrectAnswer` | backend_django/quizzes/models.py:53-84 | only the multiple-choice rule can raise; code and unknown types are never correct |
| `Models.McqCorrect` | backend_django/quizzes/models.py:54-63 | the multiple-choice comparison `sorted(answer) == sorted(correct_ids)` per answer shape (a bool counts as 0 or 1, a string matches only when both are empty, `None` raises); stated by `McqRule` |
| `Models.TfParse` | backend_django/quizzes/models.py:69-76 | the true/false reading of an answer; stated by `TfRule` |
| `Models.TextEquals` | backend_django/quizzes/models.py:78-80 | Python `==` of the answer with the stored text; stated by `TextRule` |
| `Models.McqRule` | backend_django/quizzes/models.py:54-63 | an int answer is correct exactly when it is the only correct id; a list exactly when it equals the correct ids as a multiset; an unconvertible list raises; a bool grades as the int 0 or 1; a string is correct only when it is empty and there is no correct id; `None` raises |
| `Models.McqOrderIrrelevant` | backend_django/quizzes/models.py:54-63 | reordering a multiple-choice answer list keeps its grade |
| `Models.IntsJsonConvert` | backend_django/quizzes/models.py:62 | a list of ints converts to itself |
| `Models.TfRule` | backend_django/quizzes/models.py:64-77 | with no correct choice nothing is correct; otherwise a bool answer is correct exactly when it equals "the first correct choice's text lower-cased is `true`"; a string grades as the bool "lower-case form is `true`", a number as its truthiness |
| `Models.TextRule` | backend_django/quizzes/models.py:78-80 | a text answer is correct exactly when it equals the stored text; a different-case answer is wrong |
| `Models.TimeTaken` | backend_django/quizzes/models.py:109-114 | submission minus start when submitted with a time; now minus start when open; 0 when submitted without a time |
| `Models.TimeTakenFrozen` | backend_django/quizzes/models.py:109-114 | a submitted attempt's time no longer moves with the clock, an open one's grows; with consistent times it is never negative |
| `Views.QuizList` | backend_django/quizzes/views.py:23-29 | a quiz is listed exactly when it is active and now lies in its window, either bound optional and inclusive |
| `Views.Listed` | backend_django/quizzes/views.py:24-29 | the listing filter: active, start absent or not after now, end absent or not before now; used by `QuizList`, `StartGateOrder` and `CleanWindow` |
| `Views.CleanWindow` | backend_django/quizzes/models.py:19-21 | for an active quiz, `clean` accepts exactly when the listing window holds two different instants |
| `Views.StartQuiz` | backend_django/quizzes/views.py:41-62 | not found exactly when no active quiz; a started attempt gets the new id |
| `Views.StartGateOrder` | backend_django/quizzes/views.py:44-54 | the attempt limit (0 meaning none), then the start, then the end; the first failing gate gives its detail, each exactly when the earlier gates passed |
| `Views.ListedIffStartable` | backend_django/quizzes/views.py:26-54 | below the attempt limit, a quiz can be started exactly when it is listed |
| `Views.ValidateAnswer` | backend_django/quizzes/views.py:106-112 | an explicit null option is refused; an absent option is stored as None; `answer_text` and `code_submitted` are stored stripped when present and empty when absent |
| `Views.ValidatePayload` | backend_django/quizzes/views.py:92-94 | the payload is valid exactly when every entry is, and is then converted entry by entry |
| `Views.GradedValue` | backend_django/quizzes/views.py:116-119 | the selected option when truthy, else the answer text; for a multiple-choice question a truthy int or bool option is wrapped in a one-element list |
| `Views.Grade` | backend_django/quizzes/views.py:115-121 | the answer check used by `Submit`: code questions earn nothing, others go through `is_correct_answer` on the graded value |
| `Views.AnsweredQuestionsSpec` | backend_django/quizzes/models.py:129 | a question counts as answered exactly when some stored answer is for it |
| `Views.AnsweredSnoc` | backend_django/quizzes/models.py:129 | storing one more answer adds exactly its question to the answered ones |
| `Views.Step` | backend_django/quizzes/views.py:102-121 | one round succeeds exactly when the question belongs to the quiz, is not yet answered and grades without raising; it then adds its points to the total and, when correct, to the score |
| `Views.TallyOf` | backend_django/quizzes/views.py:99-121 | the scoring loop as a recursive specification, answer by answer; stated by `TallyConditions`, `TallyValues` and `TallySpec` |
| `Views.ScoreBounded` | backend_django/quizzes/views.py:99-121 | the score never exceeds the possible points |
| `Views.SnocConditions` | backend_django/quizzes/views.py:102-112 | the three success conditions extend answer by answer |
| `Views.TallyConditions` | backend_django/quizzes/views.py:99-121 | scoring succeeds exactly when every question belongs to the quiz, none is answered twice and no grading raises |
| `Views.TallyValues` | backend_django/quizzes/views.py:99-121 | a successful scoring stores every answer, totals all their points and scores those graded correct |
| `Views.TallySpec` | backend_django/quizzes/views.py:99-121 | scoring succeeds exactly when all questions belong to the quiz, none is answered twice and no grading raises; then all answers are stored, the total is the sum of their points and the score the sum over the correct non-code ones, `0 <= score <= total` |
| `Views.ScoreOne` | backend_django/quizzes/views.py:102-121 | one loop round computes exactly the specified step |
| `Views.TallyNext` | backend_django/quizzes/views.py:102-121 | the tally of one more answer is one more loop round |
| `Views.ScoreAnswers` | backend_django/quizzes/views.py:99-124 | the loop computes exactly the specified tally or the first failure |
| `Views.ReachedError` | backend_django/quizzes/views.py:102-103 | a failure part-way is the failure of the whole request |
| `Views.Attempt.constructor` | backend_django/quizzes/views.py:56-61 | a new attempt is open, unscored and without answers |
| `Views.Attempt.Submit` | backend_django/quizzes/views.py:85-132 | another user's attempt is not found; an already submitted attempt gives 400 and nothing changes; any refusal changes nothing; a success stores exactly the payload's answers, marks the attempt submitted at `now` and records total and score |
| `Views.StartAndSubmitTwice` | backend_django/quizzes/views.py:89-90 | a graded score never exceeds the possible points, and a second submission is refused with 400 |
| `Views.SubmittedRows` | backend_django/quizzes/views.py:140 | exactly the submitted attempts |
| `Views.InsertRanked` | backend_django/quizzes/views.py:140 | inserting adds exactly one row |
| `Views.InsertRankedKeepsOrder` | backend_django/quizzes/views.py:140 | inserting into a ranked list keeps it ranked |
| `Views.SortRanked` | backend_django/quizzes/views.py:140 | the ordering returns a ranked permutation |
| `Views.Leaderboard` | backend_django/quizzes/views.py:140 | submitted attempts, ranked, cut to 50; stated by `LeaderboardSpec` |
| `Views.RankedPrefix` | backend_django/quizzes/views.py:140 | the first `n` rows of a ranked list are ranked and drawn from it |
| `Views.CutOff` | backend_django/quizzes/views.py:140 | in a ranked list nothing after the cut ranks strictly before what is kept |
| `Views.LeaderboardSpec` | backend_django/quizzes/views.py:140 | only submitted attempts, exactly `min(50, submitted)` of them, score descending then earlier submission (missing time last); all of them when there are at most 50; no left-out attempt outranks a listed one |
| `Tasks.CorrectTexts` | backend_django/quizzes/tasks.py:33 | the texts of the correct choices, in order |
| `Tasks.McqAnswerMatches` | backend_django/quizzes/tasks.py:25-34 | an answer that parses as an integer is matched against the correct ids, any other answer against the stripped correct texts, case included; stated by `McqById` and `McqByText` |
| `Tasks.TextCorrect` | backend_django/quizzes/tasks.py:38-42 | text, true/false and fill-in: some correct choice's stripped, lower-cased text equals the lower-cased answer; stated by `TextByChoice` and `TextIgnoresCase` |
| `Tasks.RunTestCases` | backend_django/quizzes/tasks.py:44-53 | all passed exactly when every case's stripped output equals its stripped expected output (missing meaning empty); the loop stops at the first mismatch |
| `Tasks.GradeRule` | backend_django/quizzes/tasks.py:19-54 | the award is the points when correct and 0 otherwise; an unknown type is incorrect with 0 |
| `Tasks.McqById` | backend_django/quizzes/tasks.py:28-31 | answering with a printed choice id, padded or not, is correct exactly when that choice is correct |
| `Tasks.McqByText` | backend_django/quizzes/tasks.py:32-34 | a multiple-choice answer that is not an integer is correct exactly when, stripped, it equals the stripped text of a correct choice, case included |
| `Tasks.StripPadded` | backend_django/quizzes/tasks.py:19 | a leading blank and a trailing newline are stripped off |
| `Tasks.TextByChoice` | backend_django/quizzes/tasks.py:38-42 | a text, true/false or fill-in answer is correct exactly when, stripped and lower-cased, it equals the stripped, lower-cased text of some correct choice |
| `Tasks.TextIgnoresCase` | backend_django/quizzes/tasks.py:38-42 | text, true/false and fill-in answers ignore case and surrounding whitespace |
| `Tasks.StripTwice` | backend_django/quizzes/tasks.py:19 | stripping twice is stripping once |
| `Tasks.CodeWithoutTests` | backend_django/quizzes/tasks.py:46-53 | a code question without test cases is correct and earns its points |
| `Tasks.SumAwarded` | backend_django/quizzes/tasks.py:67-69 | the sum of a student's awards for a quiz, 0 when there are none; stated by `SumAwardedUpdate` |
| `Tasks.SumAwardedUpdate` | backend_django/quizzes/tasks.py:66-70 | re-grading one submission changes its student's quiz total by exactly the change in its award, and no other total |
| `Tasks.LatestOpen` | backend_django/quizzes/tasks.py:62-64 | none exactly when the student has no open sitting of the quiz; otherwise an open sitting with the latest start |
| `Tasks.FindSubmission` | backend_django/quizzes/tasks.py:17 | the position of the submission with the id, none exactly when there is none |
| `Tasks.GradingStore.constructor` | backend_django/quizzes/tasks.py:17 | the tables are taken as given, with submission ids unique |
| `Tasks.GradingStore.Judge` | backend_django/quizzes/tasks.py:19-54 | the per-type dispatch, running the test-case loop for code questions, decides exactly what the rule decides |
| `Tasks.GradingStore.GradeSubmission` | backend_django/quizzes/tasks.py:16-78 | a missing submission gives the not-found message and a submission without a question the error message, both changing nothing; otherwise only that submission's verdict and award change, the newest open sitting's total becomes the sum of awards, and the success message is returned |
| `SignupForm.HandleChange` | frontend_react/src/components/auth/SignupForm.js:16-19 | the named field takes the value and every other field is unchanged |
| `SignupForm.HandleChangeCommutes` | frontend_react/src/components/auth/SignupForm.js:16-19 | updates to different fields commute and repeating one is idempotent |
| `SignupForm.Validate` | frontend_react/src/components/auth/SignupForm.js:24-38 | the ordered guards in front of `signup`; stated by `ValidateSpec` |
| `SignupForm.ValidateSpec` | frontend_react/src/components/auth/SignupForm.js:24-38 | blank (whitespace-only) name or email or empty password or confirmation gives "Please fill all fields."; then mismatch; then fewer than 8 characters; each exactly when the earlier ones pass; `signup` gets the untrimmed fields without the confirmation exactly when all pass |
| `SignupForm.FailureMessage` | frontend_react/src/components/auth/SignupForm.js:42-48 | the message for a refused registration; stated by `FailurePrecedence` |
| `SignupForm.FailurePrecedence` | frontend_react/src/components/auth/SignupForm.js:42-48 | email errors hide all later fields, then username, then password, then the general errors; a field's message is its label followed by its errors joined by spaces, the general errors are joined by spaces without a label, and with none the message is "Registration failed." |
| `SignupForm.HandleSubmit` | frontend_react/src/components/auth/SignupForm.js:21-49 | a request is sent exactly when validation passes; on acceptance a success toast and navigation to `/login`; otherwise one error toast with the guard's or the server's message |
| `SignupForm.FilledFormReachesServer` | frontend_react/src/components/auth/SignupForm.js:16-39 | filling the four inputs with a valid entry sends exactly the typed values and leads to `/login` |

## Left out

- HTTP, authentication and routing: every request is a log entry and every response an input. This covers the token refresh, ownership checks beyond the attempt's user, and the 401 redirect.
- Rendering: the loader, error page, question components and dialog are not modelled, only the state they read.
- React scheduling: each handler runs as one atomic step. Batching, effect re-runs caused by a new `onTimeUp` on every render, and stale closures are not modelled.
- Timer: the interval is modelled as ticks while the count is above zero; real time and clearing intervals are not modelled.
- Timer.FormatTime: only defined for non-negative seconds. The page never shows a negative count, because the duration is never 0 or less.
- The ORM and transactions: queries are sequences and maps passed in. A transaction is "the attempt is unchanged on every refusal". Question order, `order_by('?')` and database tie order are not modelled.
- Views.LeaderboardSpec: among equal scores and times, the database's order is arbitrary. The model keeps the input order, and the lemma states nothing about ties.
- Tasks.LatestOpen: among sittings with the same start, the database's choice is arbitrary. The model takes the first, and the lemma only promises one with the latest start.
- Serializer validation: only what changes grading is kept. That is an explicit `null` option being refused, and texts being stripped. Type errors in other fields are not modelled.
- Tasks: `tasks.py` reads fields that the `Submission` model in `models.py` does not declare (`question`, `answer_text`, `user`, `is_correct`, `score_awarded`). The model uses a record with exactly those fields. With the model as declared, the lookup itself fails.
- Tasks: the sandbox is an uninterpreted function. Subprocesses, temporary files and the 5-second timeout are not modelled.
- Celery, websockets, the Express proxy and email sending are not modelled.
- Scores and times are integers. Float fields, `total_seconds()` and date formatting are not modelled.
- Choice order: a question's choices are taken to be listed in primary-key order. `Choice` declares no ordering, so `.first()` in the true/false rule takes the correct choice with the lowest primary key; the model takes the first correct choice of the list as given and does not check the list's order.
- JSON values: floats and objects are not modelled. Python's `bool(0.0)`, `int()` of a float and `sorted` on a dict are not covered.
- Strings: only ASCII whitespace and ASCII case are modelled. Python's `int()` accepting underscores and non-ASCII digits is not modelled. JavaScript string length in UTF-16 units is also left out (characters here are Unicode scalar values).
- `graded_score` on answers, quiz feedback, the detail and attempt-list views, and account views are not part of this model.
