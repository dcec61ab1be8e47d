/** The decision rules of the quiz models (backend_django/quizzes/models.py):
    the start/end consistency check of a quiz, the grading of one answer by
    question type, and the time an attempt took. Database lookups are
    replaced by the records they return; times are integer seconds. */
module Models {
  import opened Common

  /** A decoded JSON value as Python sees it (floats and objects left out). */
  datatype Json = JNull | JBool(b: bool) | JInt(i: int) | JStr(s: string) | JList(items: seq<Json>)

  /** Python truthiness. */
  predicate PyTruthy(v: Json) {
    match v
    case JNull => false
    case JBool(b) => b
    case JInt(i) => i != 0
    case JStr(s) => s != ""
    case JList(xs) => xs != []
  }

  datatype Quiz = Quiz(
    id: int,
    active: bool,
    startTime: Option<int>,
    endTime: Option<int>,
    maxAttempts: nat,
    durationMinutes: nat)

  const CleanMessage: string := "Quiz start_time must be before end_time."

  /** `Quiz.clean`: a validation error exactly when both times are set and
      the start is not before the end. */
  function Clean(quiz: Quiz): (error: Option<string>)
    ensures error.Some? <==>
      quiz.startTime.Some? && quiz.endTime.Some? && quiz.startTime.value >= quiz.endTime.value
    ensures error.Some? ==> error.value == CleanMessage
  {
    if quiz.startTime.Some? && quiz.endTime.Some? && quiz.startTime.value >= quiz.endTime.value
    then Some(CleanMessage)
    else None
  }

  /** A choice row; a question's choices are listed in primary-key order. */
  datatype Choice = Choice(id: int, text: string, isCorrect: bool)

  datatype Question = Question(
    id: int,
    questionType: string,
    points: nat,
    correctTextAnswer: Option<string>,
    choices: seq<Choice>)

  /** `choices.filter(is_correct=True)`, in primary-key order. */
  function CorrectChoices(cs: seq<Choice>): (r: seq<Choice>)
    ensures forall c :: c in r <==> c in cs && c.isCorrect
  {
    if cs == [] then []
    else (if cs[0].isCorrect then [cs[0]] else []) + CorrectChoices(cs[1..])
  }

  function ChoiceIds(cs: seq<Choice>): (r: seq<int>)
    ensures |r| == |cs| && forall k :: 0 <= k < |cs| ==> r[k] == cs[k].id
  {
    seq(|cs|, k requires 0 <= k < |cs| => cs[k].id)
  }

  /** `values_list('id', flat=True)` of the correct choices. */
  function CorrectIds(q: Question): seq<int> {
    ChoiceIds(CorrectChoices(q.choices))
  }

  // ---------------------------------------------------------------- sorted()

  predicate Sorted(s: seq<int>) {
    forall i, j :: 0 <= i < j < |s| ==> s[i] <= s[j]
  }

  function Insert(x: int, s: seq<int>): (r: seq<int>)
    ensures multiset(r) == multiset(s) + multiset{x}
    ensures |r| == |s| + 1
    ensures forall e :: e in r <==> e == x || e in s
  {
    if s == [] || x <= s[0] then [x] + s
    else
      assert s == [s[0]] + s[1..];
      [s[0]] + Insert(x, s[1..])
  }

  lemma {:induction false} InsertSorted(x: int, s: seq<int>)
    requires Sorted(s)
    ensures Sorted(Insert(x, s))
  {
    if s != [] && x > s[0] {
      var rest := Insert(x, s[1..]);
      InsertSorted(x, s[1..]);
      forall e | e in rest
        ensures s[0] <= e
      {
        if e != x {
          HeadIsLeast(s, e);
        }
      }
      ConsSorted(s[0], rest);
      assert Insert(x, s) == [s[0]] + rest;
    }
  }

  /** An ascending sequence stays ascending behind a head no greater than
      any of its elements. */
  lemma ConsSorted(h: int, s: seq<int>)
    requires Sorted(s) && forall e :: e in s ==> h <= e
    ensures Sorted([h] + s)
  {
    var r := [h] + s;
    forall i, j | 0 <= i < j < |r|
      ensures r[i] <= r[j]
    {
      assert r[j] == s[j - 1];
      if i > 0 {
        assert r[i] == s[i - 1];
      } else {
        assert s[j - 1] in s;
      }
    }
  }

  /** Python's `sorted` on a list of ints: an ascending permutation. */
  function SortInts(s: seq<int>): (r: seq<int>)
    ensures Sorted(r) && multiset(r) == multiset(s)
  {
    if s == [] then []
    else
      assert s == [s[0]] + s[1..];
      InsertSorted(s[0], SortInts(s[1..]));
      Insert(s[0], SortInts(s[1..]))
  }

  /** The head of an ascending sequence is its least element. */
  lemma HeadIsLeast(s: seq<int>, x: int)
    requires Sorted(s) && x in s
    ensures s[0] <= x
  {
  }

  /** Removing the head of an ascending sequence leaves an ascending
      sequence with one copy of the head fewer. */
  lemma DropHead(s: seq<int>)
    requires s != [] && Sorted(s)
    ensures Sorted(s[1..])
    ensures multiset(s[1..]) == multiset(s) - multiset{s[0]}
  {
    assert s == [s[0]] + s[1..];
  }

  /** Two ascending sequences with the same elements start alike and
      continue with the same remaining elements. */
  lemma SameHead(a: seq<int>, b: seq<int>)
    requires Sorted(a) && Sorted(b) && multiset(a) == multiset(b) && a != []
    ensures b != [] && a[0] == b[0]
    ensures Sorted(a[1..]) && Sorted(b[1..]) && multiset(a[1..]) == multiset(b[1..])
  {
    assert a[0] in multiset(b);
    assert b[0] in multiset(a);
    HeadIsLeast(a, b[0]);
    HeadIsLeast(b, a[0]);
    DropHead(a);
    DropHead(b);
  }

  /** Two ascending sequences with the same elements are equal. */
  lemma {:induction false} SortedUnique(a: seq<int>, b: seq<int>)
    requires Sorted(a) && Sorted(b) && multiset(a) == multiset(b)
    ensures a == b
  {
    if a == [] {
      assert |multiset(b)| == 0;
    } else {
      SameHead(a, b);
      SortedUnique(a[1..], b[1..]);
      assert a == [a[0]] + a[1..];
      assert b == [b[0]] + b[1..];
    }
  }

  /** `sorted(a) == sorted(b)` holds exactly when `a` and `b` are equal as
      multisets: order is irrelevant, repetitions count. */
  lemma SortedEqualIff(a: seq<int>, b: seq<int>)
    ensures SortInts(a) == SortInts(b) <==> multiset(a) == multiset(b)
  {
    if multiset(a) == multiset(b) {
      SortedUnique(SortInts(a), SortInts(b));
    }
  }

  // ---------------------------------------------------------------- is_correct_answer

  /** The outcome of grading: a verdict, or an exception Python raises. */
  datatype Checked = Checked(correct: bool) | Raised

  /** `int(a)` for an element of a multiple-choice answer list; `None` when
      it raises (a bool is an int in Python). */
  function PyIntOf(v: Json): Option<int> {
    match v
    case JInt(i) => Some(i)
    case JBool(b) => Some(if b then 1 else 0)
    case JStr(s) => ParsePyInt(s)
    case JNull => None
    case JList(_) => None
  }

  /** `[int(a) for a in answer]`; `None` when some conversion raises. */
  function IntList(items: seq<Json>): (r: Option<seq<int>>)
    ensures r.Some? ==> |r.value| == |items|
    ensures r.Some? ==> forall k :: 0 <= k < |items| ==> PyIntOf(items[k]) == Some(r.value[k])
    ensures r.None? ==> exists k :: 0 <= k < |items| && PyIntOf(items[k]).None?
  {
    if items == [] then Some([])
    else
      match (PyIntOf(items[0]), IntList(items[1..]))
      case (Some(x), Some(xs)) => Some([x] + xs)
      case (None, _) => None
      case (_, None) => assert PyIntOf(items[1..][0]).None? || exists k :: 1 <= k < |items| && PyIntOf(items[k]).None?; None
  }

  /** The multiple-choice rule: an int (or bool) answer becomes a one-element
      list, a list is converted element-wise, and the sorted lists are
      compared. A string sorts into a list of characters, equal to the
      sorted ids only when both are empty; `None` cannot be sorted. */
  function McqCorrect(correctIds: seq<int>, answer: Json): Checked {
    match answer
    case JInt(i) => Checked(SortInts([i]) == SortInts(correctIds))
    case JBool(b) => Checked(SortInts([if b then 1 else 0]) == SortInts(correctIds))
    case JList(items) =>
      (match IntList(items)
       case None => Raised
       case Some(xs) => Checked(SortInts(xs) == SortInts(correctIds)))
    case JStr(s) => Checked(s == "" && correctIds == [])
    case JNull => Raised
  }

  /** The true/false reading of an answer: a bool as is, a string by its
      lower-case form being "true", anything else by truthiness. */
  function TfParse(answer: Json): bool {
    match answer
    case JBool(b) => b
    case JStr(s) => Lower(s) == "true"
    case _ => PyTruthy(answer)
  }

  /** `answer == correct_text_answer`: a string equals a string exactly,
      `None` equals `None`, nothing else matches. */
  predicate TextEquals(answer: Json, expected: Option<string>) {
    match answer
    case JStr(s) => expected == Some(s)
    case JNull => expected == None
    case _ => false
  }

  /** `Question.is_correct_answer`. Only the multiple-choice rule can raise;
      code questions (graded elsewhere) and unknown types are never
      correct. */
  function IsCorrectAnswer(q: Question, answer: Json): (r: Checked)
    ensures r.Raised? ==> q.questionType == "mcq"
    ensures q.questionType != "mcq" && q.questionType != "tf" && q.questionType != "text" ==> r == Checked(false)
  {
    if q.questionType == "mcq" then McqCorrect(CorrectIds(q), answer)
    else if q.questionType == "tf" then
      var correct := CorrectChoices(q.choices);
      if correct == [] then Checked(false)
      else Checked(TfParse(answer) == (Lower(correct[0].text) == "true"))
    else if q.questionType == "text" then Checked(TextEquals(answer, q.correctTextAnswer))
    else Checked(false)
  }

  /** Multiple choice: an int answer is correct exactly when it is the only
      correct id; an int list exactly when it has the correct ids as a
      multiset (any order, repetitions count); a list with an element `int()`
      cannot convert raises. A bool is an int to Python, so it is graded as
      0 or 1; a string is compared as its list of characters, which equals
      the sorted ids only when both are empty; `None` cannot be sorted and
      raises. */
  lemma McqRule(q: Question, answer: Json)
    requires q.questionType == "mcq"
    ensures answer.JInt? ==>
      IsCorrectAnswer(q, answer) == Checked(multiset{answer.i} == multiset(CorrectIds(q)))
    ensures answer.JList? && IntList(answer.items).Some? ==>
      IsCorrectAnswer(q, answer) == Checked(multiset(IntList(answer.items).value) == multiset(CorrectIds(q)))
    ensures answer.JList? && IntList(answer.items).None? ==> IsCorrectAnswer(q, answer) == Raised
    ensures answer.JBool? ==> IsCorrectAnswer(q, answer) == IsCorrectAnswer(q, JInt(if answer.b then 1 else 0))
    ensures answer.JStr? ==> IsCorrectAnswer(q, answer) == Checked(answer.s == "" && CorrectIds(q) == [])
    ensures answer.JNull? ==> IsCorrectAnswer(q, answer) == Raised
  {
    match answer
    case JInt(i) =>
      SortedEqualIff([i], CorrectIds(q));
    case JList(items) =>
      if IntList(items).Some? {
        SortedEqualIff(IntList(items).value, CorrectIds(q));
      }
    case _ =>
  }

  /** Reordering a multiple-choice answer list does not change its grade. */
  lemma McqOrderIrrelevant(q: Question, xs: seq<int>, ys: seq<int>)
    requires q.questionType == "mcq" && multiset(xs) == multiset(ys)
    ensures IsCorrectAnswer(q, JList(IntsJson(xs))) == IsCorrectAnswer(q, JList(IntsJson(ys)))
  {
    IntsJsonConvert(xs);
    IntsJsonConvert(ys);
    McqRule(q, JList(IntsJson(xs)));
    McqRule(q, JList(IntsJson(ys)));
  }

  function IntsJson(xs: seq<int>): seq<Json> {
    seq(|xs|, k requires 0 <= k < |xs| => JInt(xs[k]))
  }

  lemma {:induction false} IntsJsonConvert(xs: seq<int>)
    ensures IntList(IntsJson(xs)) == Some(xs)
  {
    if xs != [] {
      assert IntsJson(xs)[1..] == IntsJson(xs[1..]);
      IntsJsonConvert(xs[1..]);
      assert xs == [xs[0]] + xs[1..];
    }
  }

  /** True/false: with no correct choice nothing is correct; otherwise a
      bool answer is correct exactly when it equals the first correct
      choice's text read as "is its lower-case form 'true'". A string is
      graded as the bool "its lower-case form is 'true'", and a number as
      its truthiness. */
  lemma TfRule(q: Question, s: string, i: int, b: bool)
    requires q.questionType == "tf"
    ensures CorrectChoices(q.choices) == [] ==> forall a :: IsCorrectAnswer(q, a) == Checked(false)
    ensures CorrectChoices(q.choices) != [] ==>
      IsCorrectAnswer(q, JBool(b)) == Checked(b == (Lower(CorrectChoices(q.choices)[0].text) == "true"))
    ensures IsCorrectAnswer(q, JStr(s)) == IsCorrectAnswer(q, JBool(Lower(s) == "true"))
    ensures IsCorrectAnswer(q, JStr(s)) == IsCorrectAnswer(q, JStr(Lower(s)))
    ensures IsCorrectAnswer(q, JInt(i)) == IsCorrectAnswer(q, JBool(i != 0))
  {
    LowerIdempotent(s);
  }

  /** Text: correct exactly when the answer is the stored text, character for
      character (no case folding, no trimming). */
  lemma TextRule(q: Question, s: string)
    requires q.questionType == "text"
    ensures IsCorrectAnswer(q, JStr(s)) == Checked(q.correctTextAnswer == Some(s))
    ensures q.correctTextAnswer == Some(s) && s != Lower(s) ==> IsCorrectAnswer(q, JStr(Lower(s))) == Checked(false)
  {
  }

  // ---------------------------------------------------------------- time_taken

  /** `StudentQuizAttempt.time_taken` in seconds: until the submission for a
      submitted attempt with a submission time, until now for an open one,
      and 0 for a submitted attempt without a submission time. */
  function TimeTaken(submitted: bool, startTime: int, submissionTime: Option<int>, now: int): (seconds: int)
    ensures submitted && submissionTime.Some? ==> seconds == submissionTime.value - startTime
    ensures !submitted ==> seconds == now - startTime
    ensures submitted && submissionTime.None? ==> seconds == 0
  {
    if submitted && submissionTime.Some? then submissionTime.value - startTime
    else if !submitted then now - startTime
    else 0
  }

  /** Once submitted, the time taken no longer depends on the clock; before,
      it grows with it. With times that do not run backwards it is never
      negative. */
  lemma TimeTakenFrozen(submitted: bool, startTime: int, submissionTime: Option<int>, now: int, later: int)
    requires now <= later
    ensures submitted ==> TimeTaken(submitted, startTime, submissionTime, now) == TimeTaken(submitted, startTime, submissionTime, later)
    ensures !submitted ==> TimeTaken(submitted, startTime, submissionTime, now) <= TimeTaken(submitted, startTime, submissionTime, later)
    ensures startTime <= now && (submissionTime.Some? ==> startTime <= submissionTime.value) ==>
      TimeTaken(submitted, startTime, submissionTime, now) >= 0
  {
  }
}
