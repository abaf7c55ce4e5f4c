/** The quiz-taking page as a state machine: starting a quiz, picking an
    answer, and moving to the next question or finishing, which submits the
    percentage of correct answers as a quiz attempt. */
module QuizSession {
  import opened Wrappers
  import opened Entities
  import opened Quizzes
  import QuizAttempts

  datatype State = State(
    quiz: Option<QuizView>,
    index: nat,
    selected: Option<string>,
    showExplanation: bool,
    score: nat)

  /** The page's state before any quiz is started. */
  const Initial: State := State(None, 0, None, false, 0)

  /** The body `saveQuizAttempt` posts: no `answers` field. */
  datatype Submission = Submission(quizId: QuizId, userId: UserId, score: int)

  /** The state after an event, and the attempt it submitted, if any. */
  datatype Step = Step(state: State, sent: Option<Submission>)

  function Questions(s: State): seq<QuestionView> {
    if s.quiz.Some? then s.quiz.value.questions else []
  }

  /** The page shows question `index` of the current quiz. */
  predicate Consistent(s: State) {
    s.quiz.Some? ==> s.index < |Questions(s)| || (|Questions(s)| == 0 && s.index == 0)
  }

  /** `Math.round(k / n * 100)` for k >= 0 and n >= 1, in exact arithmetic:
      the nearest integer to 100k/n, halves rounded up. */
  function RoundPercent(k: nat, n: nat): (r: nat)
    requires n >= 1
    ensures 2 * n * r <= 200 * k + n < 2 * n * (r + 1)
  {
    (200 * k + n) / (2 * n)
  }

  lemma MulMonotone(a: nat, b: int, c: int)
    requires b <= c
    ensures a * b <= a * c
  {
  }

  /** A share of correct answers gives a percentage between 0 and 100; all of
      them give exactly 100, none give 0. */
  lemma PercentBounds(k: nat, n: nat)
    requires 1 <= n && k <= n
    ensures RoundPercent(k, n) <= 100
    ensures k == n ==> RoundPercent(k, n) == 100
    ensures k == 0 ==> RoundPercent(k, n) == 0
  {
    var r := RoundPercent(k, n);
    MulMonotone(200, k, n);
    if r >= 101 {
      MulMonotone(2 * n, 101, r);
      assert false;
    }
    if k == n && r <= 99 {
      MulMonotone(2 * n, r + 1, 100);
      assert false;
    }
    if k == 0 && r >= 1 {
      MulMonotone(2 * n, 1, r);
      assert false;
    }
  }

  /** `startQuiz`: everything about the previous run is reset. */
  function StartQuiz(s: State, quiz: QuizView): (r: State)
    ensures Consistent(r)
    ensures r.quiz == Some(quiz) && r.index == 0 && r.selected.None? && !r.showExplanation && r.score == 0
  {
    State(Some(quiz), 0, None, false, 0)
  }

  /** The "Back to Quizzes" button: only the current quiz is dropped; the
      index, selection and counter stay as they were. */
  function BackToQuizzes(s: State): (r: State)
    ensures r.quiz.None? && Consistent(r) && Questions(r) == []
    ensures r.index == s.index && r.selected == s.selected
    ensures r.showExplanation == s.showExplanation && r.score == s.score
  {
    s.(quiz := None)
  }

  /** Leaving a quiz and starting one again is the same as starting it from
      the page's first state: whatever the left quiz had reached is gone. */
  lemma BackThenStartResets(s: State, quiz: QuizView)
    ensures StartQuiz(BackToQuizzes(s), quiz) == StartQuiz(Initial, quiz)
    ensures Consistent(Initial) && Initial.quiz.None?
  {
  }

  /** Clicking an option button. Buttons exist only for the options of the
      question on screen and are disabled once an answer is selected, so the
      click has an effect only then. */
  function SelectAnswer(s: State, answer: string): (r: State)
    ensures Consistent(s) ==> Consistent(r)
    ensures r.quiz == s.quiz && r.index == s.index && r.score == s.score
    ensures s.selected.Some? ==> r == s
    ensures r.selected.Some? && r != s ==> s.index < |Questions(s)| && answer in Questions(s)[s.index].options
    ensures s.selected.None? && s.index < |Questions(s)| && answer in Questions(s)[s.index].options ==>
      r == s.(selected := Some(answer))
    ensures !(s.selected.None? && s.index < |Questions(s)| && answer in Questions(s)[s.index].options) ==> r == s
  {
    if s.selected.None? && s.index < |Questions(s)| && answer in Questions(s)[s.index].options
    then s.(selected := Some(answer))
    else s
  }

  /** Whether the selected answer is the correct answer of the question on
      screen (`selectedAnswer === currentQuestion?.correctAnswer`). */
  predicate AnsweredCorrectly(s: State) {
    s.selected.Some? && s.index < |Questions(s)| && s.selected.value == Questions(s)[s.index].correctAnswer
  }

  /** `handleNextQuestion`, wired to the "Next Question" / "Finish Quiz" button. */
  function NextQuestion(s: State, session: Option<UserId>): (r: Step)
    ensures Consistent(s) ==> Consistent(r.state)
    // no truthy selection: nothing happens
    ensures !Truthy(s.selected) ==> r == Step(s, None)
    // the counter grows by one exactly when the answer is right
    ensures Truthy(s.selected) ==> r.state.score == (if AnsweredCorrectly(s) then s.score + 1 else s.score)
    ensures r.state.quiz == s.quiz
    // not the last question: advance and clear, submit nothing
    ensures Truthy(s.selected) && s.index + 1 < |Questions(s)| ==>
      && r.state.index == s.index + 1 && r.state.selected.None? && !r.state.showExplanation
      && r.sent.None?
    // the last question: nothing is reset, and the percentage is submitted
    ensures Truthy(s.selected) && s.index + 1 >= |Questions(s)| ==>
      && r.state.index == s.index && r.state.selected == s.selected
      && r.state.showExplanation == s.showExplanation
      && (r.sent.Some? <==> s.quiz.Some? && Truthy(session))
      && (r.sent.Some? ==>
            var n := if |Questions(s)| == 0 then 1 else |Questions(s)|;
            r.sent.value == Submission(s.quiz.value.id, session.value, RoundPercent(r.state.score, n)))
  {
    if !Truthy(s.selected) then Step(s, None)
    else
      var qs := Questions(s);
      var score := if AnsweredCorrectly(s) then s.score + 1 else s.score;
      if s.index < |qs| - 1 then
        Step(State(s.quiz, s.index + 1, None, false, score), None)
      else
        var finalScore := if AnsweredCorrectly(s) then s.score + 1 else s.score;
        var percentage := RoundPercent(finalScore, if |qs| == 0 then 1 else |qs|);
        var sent := if s.quiz.Some? && Truthy(session)
                    then Some(Submission(s.quiz.value.id, session.value, percentage))
                    else None;
        Step(s.(score := score), sent)
  }

  // ---------------------------------------------------------------- whole runs

  /** Answering with each of `answers` in turn: select it, then press the button. */
  function Play(s: State, answers: seq<string>, session: Option<UserId>): (r: (State, seq<Submission>))
    decreases |answers|
  {
    if answers == [] then (s, [])
    else
      var step := NextQuestion(SelectAnswer(s, answers[0]), session);
      var (last, sent) := Play(step.state, answers[1..], session);
      (last, (if step.sent.Some? then [step.sent.value] else []) + sent)
  }

  /** How many of the first `i` answers are right. */
  function CountCorrect(qs: seq<QuestionView>, answers: seq<string>, i: nat): (k: nat)
    requires i <= |qs| && i <= |answers|
    ensures k <= i
  {
    if i == 0 then 0
    else CountCorrect(qs, answers, i - 1) + if answers[i - 1] == qs[i - 1].correctAnswer then 1 else 0
  }

  /** Each answer is a non-empty option of its question. */
  predicate Playable(qs: seq<QuestionView>, answers: seq<string>) {
    |answers| == |qs| && forall i :: 0 <= i < |qs| ==> answers[i] != "" && answers[i] in qs[i].options
  }

  /** The page before question `i` is answered, the earlier ones answered
      with `answers`. */
  function Before(quiz: QuizView, answers: seq<string>, i: nat): State
    requires i <= |quiz.questions| && i <= |answers|
  {
    State(Some(quiz), i, None, false, CountCorrect(quiz.questions, answers, i))
  }

  /** Answering a question that is not the last moves on to the next one. */
  lemma AnswerNotLast(quiz: QuizView, answers: seq<string>, session: Option<UserId>, i: nat)
    requires Playable(quiz.questions, answers) && i + 1 < |answers|
    ensures NextQuestion(SelectAnswer(Before(quiz, answers, i), answers[i]), session)
         == Step(Before(quiz, answers, i + 1), None)
  {
    var picked := SelectAnswer(Before(quiz, answers, i), answers[i]);
    assert picked.selected == Some(answers[i]);
  }

  /** Answering the last question submits the percentage. */
  lemma AnswerLast(quiz: QuizView, answers: seq<string>, session: Option<UserId>)
    requires 1 <= |quiz.questions| && Playable(quiz.questions, answers)
    ensures var n := |quiz.questions|;
      var k := CountCorrect(quiz.questions, answers, n);
      NextQuestion(SelectAnswer(Before(quiz, answers, n - 1), answers[n - 1]), session)
      == Step(State(Some(quiz), n - 1, Some(answers[n - 1]), false, k),
              if Truthy(session) then Some(Submission(quiz.id, session.value, RoundPercent(k, n))) else None)
  {
    var n := |quiz.questions|;
    var picked := SelectAnswer(Before(quiz, answers, n - 1), answers[n - 1]);
    assert picked.selected == Some(answers[n - 1]);
  }

  /** One step of `Play`: the first answer, then the rest. */
  lemma PlayUnfold(s: State, answers: seq<string>, session: Option<UserId>)
    requires answers != []
    ensures var step := NextQuestion(SelectAnswer(s, answers[0]), session);
      var rest := Play(step.state, answers[1..], session);
      Play(s, answers, session) == (rest.0, (if step.sent.Some? then [step.sent.value] else []) + rest.1)
  {
  }

  lemma {:induction false} PlayFrom(quiz: QuizView, answers: seq<string>, session: Option<UserId>, i: nat)
    requires 1 <= |quiz.questions| && Playable(quiz.questions, answers)
    requires i < |answers|
    ensures var n := |quiz.questions|;
      var (last, sent) := Play(Before(quiz, answers, i), answers[i..], session);
      var k := CountCorrect(quiz.questions, answers, n);
      && last == State(Some(quiz), n - 1, Some(answers[n - 1]), false, k)
      && sent == if Truthy(session) then [Submission(quiz.id, session.value, RoundPercent(k, n))] else []
    decreases |answers| - i
  {
    assert answers[i..][0] == answers[i] && answers[i..][1..] == answers[i + 1..];
    PlayUnfold(Before(quiz, answers, i), answers[i..], session);
    if i + 1 < |answers| {
      AnswerNotLast(quiz, answers, session, i);
      PlayFrom(quiz, answers, session, i + 1);
    } else {
      AnswerLast(quiz, answers, session);
      assert answers[i + 1..] == [];
    }
  }

  /** Starting a quiz and answering every question sends exactly one attempt,
      scored as the rounded percentage of right answers, when a user is signed in. */
  lemma PlayWholeQuiz(s0: State, quiz: QuizView, answers: seq<string>, session: Option<UserId>)
    requires 1 <= |quiz.questions| && Playable(quiz.questions, answers)
    ensures var n := |quiz.questions|;
      var k := CountCorrect(quiz.questions, answers, n);
      var (last, sent) := Play(StartQuiz(s0, quiz), answers, session);
      && last.score == k
      && sent == (if Truthy(session) then [Submission(quiz.id, session.value, RoundPercent(k, n))] else [])
      && (Truthy(session) ==> 0 <= sent[0].score <= 100)
  {
    PlayFrom(quiz, answers, session, 0);
    assert answers[0..] == answers;
    PercentBounds(CountCorrect(quiz.questions, answers, |quiz.questions|), |quiz.questions|);
  }

  /** Pressing "Finish Quiz" a second time submits again, counting the last
      answer once more; the counter keeps growing. */
  lemma FinishTwice(s0: State, quiz: QuizView, answers: seq<string>, user: UserId)
    requires 1 <= |quiz.questions| && Playable(quiz.questions, answers) && user != ""
    ensures var n := |quiz.questions|;
      var k := CountCorrect(quiz.questions, answers, n);
      var last := Play(StartQuiz(s0, quiz), answers, Some(user)).0;
      var again := NextQuestion(last, Some(user));
      var extra := if answers[n - 1] == quiz.questions[n - 1].correctAnswer then 1 else 0;
      && again.state.score == k + extra
      && again.sent == Some(Submission(quiz.id, user, RoundPercent(k + extra, n)))
  {
    PlayFrom(quiz, answers, Some(user), 0);
    assert answers[0..] == answers;
  }

  /** A one-question quiz answered correctly is submitted as 100, and a second
      "Finish Quiz" submits it again as 200. */
  lemma RepeatedFinishExceedsHundred(s0: State, quiz: QuizView, user: UserId)
    requires |quiz.questions| == 1 && user != ""
    requires quiz.questions[0].correctAnswer != ""
    requires quiz.questions[0].correctAnswer in quiz.questions[0].options
    ensures var answers := [quiz.questions[0].correctAnswer];
      var (last, sent) := Play(StartQuiz(s0, quiz), answers, Some(user));
      && sent == [Submission(quiz.id, user, 100)]
      && NextQuestion(last, Some(user)).sent == Some(Submission(quiz.id, user, 200))
  {
    var answers := [quiz.questions[0].correctAnswer];
    PlayWholeQuiz(s0, quiz, answers, Some(user));
    FinishTwice(s0, quiz, answers, Some(user).value);
    assert CountCorrect(quiz.questions, answers, 1) == 1;
  }

  /** An option whose text is empty can be selected, but the button stays
      disabled: the session cannot move on. */
  lemma EmptyOptionBlocks(s: State, session: Option<UserId>)
    requires s.selected == Some("")
    ensures NextQuestion(s, session) == Step(s, None)
    ensures forall a :: SelectAnswer(s, a) == s
  {
  }

  /** What the page submits is accepted by the attempt route: a recorded attempt
      with the page's percentage and an empty answer record. */
  lemma SubmissionAccepted(st: Store, sub: Submission, now: int)
    requires Valid(st) && sub.userId != ""
    ensures var body := QuizAttempts.AttemptBody(Some(sub.quizId), Some(sub.userId), Some(sub.score), None);
      var h := QuizAttempts.Post(st, Some(sub.userId), body, now);
      && h.response.Ok?
      && h.response.body == Attempt(sub.quizId, sub.userId, sub.score, map[], now)
  {
  }
}
