/** `POST /api/quiz-attempts`: records a finished quiz attempt and updates the
    caller's progress in the quiz's subject. */
module QuizAttempts {
  import opened Wrappers
  import opened Entities
  import opened Progress

  /** The JSON body. `quizId` and `userId` are None for any falsy value; `score`
      is None only when the field is absent (`undefined`). */
  datatype AttemptBody = AttemptBody(
    quizId: Option<QuizId>,
    userId: Option<UserId>,
    score: Option<int>,
    answers: Option<Answers>)

  predicate WellFormed(body: AttemptBody) {
    body.quizId.Some? && Truthy(body.userId) && body.score.Some?
  }

  /** The handler. The session, the request time and the body are its inputs;
      the store is the database before and after. */
  function Post(s: Store, session: Option<UserId>, body: AttemptBody, now: int): (h: Handled<Attempt>)
    requires Valid(s)
    ensures Valid(h.store)
    ensures h.store.materials == s.materials && h.store.quizzes == s.quizzes
    // 401 and 400 change nothing
    ensures !Truthy(session) ==> h == Handled(Unauthorized, s)
    ensures Truthy(session) && !WellFormed(body) ==> h == Handled(BadRequest, s)
    ensures h.response.Ok? <==> Truthy(session) && WellFormed(body)
    // every accepted request appends exactly the attempt it returns, owned by the body's user
    ensures h.response.Ok? ==>
      && h.store.attempts == s.attempts + [h.response.body]
      && h.response.body == Attempt(body.quizId.value, body.userId.value, body.score.value,
                                    body.answers.GetOr(map[]), now)
    ensures !h.response.Ok? ==> h.store.attempts == s.attempts
    // an unknown quiz leaves progress alone
    ensures h.response.Ok? && FindQuiz(s.quizzes, body.quizId.value).None? ==>
      h.store.progress == s.progress
    // a known quiz writes the session user's row for the quiz's subject, and only it
    ensures h.response.Ok? && FindQuiz(s.quizzes, body.quizId.value).Some? ==>
      var subject := FindQuiz(s.quizzes, body.quizId.value).value.subject;
      var user := session.value;
      && Lookup(h.store.progress, user, subject).Some?
      && Lookup(h.store.progress, user, subject).value.lastStudied == now
      && (forall u, t :: (u, t) != (user, subject) ==>
            Lookup(h.store.progress, u, t) == Lookup(s.progress, u, t))
  {
    if !Truthy(session) then Handled(Unauthorized, s)
    else if !WellFormed(body) then Handled(BadRequest, s)
    else
      var attempt := Attempt(body.quizId.value, body.userId.value, body.score.value,
                             body.answers.GetOr(map[]), now);
      var s' := s.(attempts := s.attempts + [attempt]);
      match FindQuiz(s.quizzes, body.quizId.value)
      case None => Handled(Ok(attempt), s')
      case Some(quiz) =>
        var rows := UpsertAsWritten(s.progress, session.value, quiz.subject, body.score.value, now);
        Handled(Ok(attempt), s'.(progress := rows))
  }

  /** The score an accepted request leaves in the session user's progress row:
      the submitted score when the row is new, `max(score, 0)` when it existed. */
  lemma PostProgressScore(s: Store, session: Option<UserId>, body: AttemptBody, now: int)
    requires Valid(s) && Truthy(session) && WellFormed(body)
    requires FindQuiz(s.quizzes, body.quizId.value).Some?
    ensures var subject := FindQuiz(s.quizzes, body.quizId.value).value.subject;
      var before := Lookup(s.progress, session.value, subject);
      Lookup(Post(s, session, body, now).store.progress, session.value, subject).value.score
        == if before.Some? then Max(body.score.value, 0) else body.score.value
  {
  }

  /** The score is checked only for presence: a score of 0 is accepted. */
  lemma ZeroScoreAccepted(s: Store, user: UserId, quizId: QuizId, now: int)
    requires Valid(s) && user != ""
    ensures Post(s, Some(user), AttemptBody(Some(quizId), Some(user), Some(0), None), now).response.Ok?
  {
  }

  /** Two attempts on the same quiz scoring 90 then 40 leave 40 in the progress
      row, not the "higher score" the handler's comment promises. */
  lemma NinetyThenForty(s: Store, user: UserId, quizId: QuizId, t1: int, t2: int)
    requires Valid(s) && user != ""
    requires FindQuiz(s.quizzes, quizId).Some?
    ensures var body := (score: int) => AttemptBody(Some(quizId), Some(user), Some(score), None);
      var s1 := Post(s, Some(user), body(90), t1).store;
      var s2 := Post(s1, Some(user), body(40), t2).store;
      var subject := FindQuiz(s.quizzes, quizId).value.subject;
      Lookup(s2.progress, user, subject) == Some(ProgressRow(user, subject, 40, t2))
  {
    var body := (score: int) => AttemptBody(Some(quizId), Some(user), Some(score), None);
    var s1 := Post(s, Some(user), body(90), t1).store;
    var subject := FindQuiz(s.quizzes, quizId).value.subject;
    assert Lookup(s1.progress, user, subject).Some?;
    assert FindQuiz(s1.quizzes, quizId) == FindQuiz(s.quizzes, quizId);
  }

  /** A negative score is stored as submitted when it creates the row, and
      clamped to 0 when it updates one. */
  lemma NegativeScoreClampedOnlyOnUpdate(s: Store, user: UserId, quizId: QuizId, t1: int, t2: int)
    requires Valid(s) && user != ""
    requires FindQuiz(s.quizzes, quizId).Some?
    requires Lookup(s.progress, user, FindQuiz(s.quizzes, quizId).value.subject).None?
    ensures var body := AttemptBody(Some(quizId), Some(user), Some(-5), None);
      var s1 := Post(s, Some(user), body, t1).store;
      var s2 := Post(s1, Some(user), body, t2).store;
      var subject := FindQuiz(s.quizzes, quizId).value.subject;
      && Lookup(s1.progress, user, subject).value.score == -5
      && Lookup(s2.progress, user, subject).value.score == 0
  {
    var body := AttemptBody(Some(quizId), Some(user), Some(-5), None);
    var s1 := Post(s, Some(user), body, t1).store;
    assert FindQuiz(s1.quizzes, quizId) == FindQuiz(s.quizzes, quizId);
  }

  /** The handler with the corrected upsert: the same responses, attempts and
      quizzes as `Post`, but an existing progress row keeps the better score. */
  function PostBest(s: Store, session: Option<UserId>, body: AttemptBody, now: int): (h: Handled<Attempt>)
    requires Valid(s)
    ensures Valid(h.store)
    ensures h.response == Post(s, session, body, now).response
    ensures h.store.(progress := s.progress) == Post(s, session, body, now).store.(progress := s.progress)
    ensures !(h.response.Ok? && FindQuiz(s.quizzes, body.quizId.value).Some?) ==> h.store.progress == s.progress
    ensures h.response.Ok? && FindQuiz(s.quizzes, body.quizId.value).Some? ==>
      var subject := FindQuiz(s.quizzes, body.quizId.value).value.subject;
      var user := session.value;
      var before := Lookup(s.progress, user, subject);
      && Lookup(h.store.progress, user, subject)
         == Some(ProgressRow(user, subject,
                             if before.Some? then Max(before.value.score, body.score.value) else body.score.value,
                             now))
      && (forall u, t :: (u, t) != (user, subject) ==>
            Lookup(h.store.progress, u, t) == Lookup(s.progress, u, t))
  {
    if !Truthy(session) then Handled(Unauthorized, s)
    else if !WellFormed(body) then Handled(BadRequest, s)
    else
      var attempt := Attempt(body.quizId.value, body.userId.value, body.score.value,
                             body.answers.GetOr(map[]), now);
      var s' := s.(attempts := s.attempts + [attempt]);
      match FindQuiz(s.quizzes, body.quizId.value)
      case None => Handled(Ok(attempt), s')
      case Some(quiz) =>
        var rows := UpsertBest(s.progress, session.value, quiz.subject, body.score.value, now);
        Handled(Ok(attempt), s'.(progress := rows))
  }

  /** With the corrected handler, a first attempt of 90 followed by one of 40
      leaves 90. */
  lemma BestNinetyThenForty(s: Store, user: UserId, quizId: QuizId, t1: int, t2: int)
    requires Valid(s) && user != ""
    requires FindQuiz(s.quizzes, quizId).Some?
    requires Lookup(s.progress, user, FindQuiz(s.quizzes, quizId).value.subject).None?
    ensures var s1 := PostBest(s, Some(user), AttemptBody(Some(quizId), Some(user), Some(90), None), t1).store;
      var s2 := PostBest(s1, Some(user), AttemptBody(Some(quizId), Some(user), Some(40), None), t2).store;
      Lookup(s2.progress, user, FindQuiz(s.quizzes, quizId).value.subject)
        == Some(ProgressRow(user, FindQuiz(s.quizzes, quizId).value.subject, 90, t2))
  {
    var subject := FindQuiz(s.quizzes, quizId).value.subject;
    var s1 := PostBest(s, Some(user), AttemptBody(Some(quizId), Some(user), Some(90), None), t1).store;
    assert Lookup(s1.progress, user, subject) == Some(ProgressRow(user, subject, 90, t1));
    assert s1.quizzes == s.quizzes;
  }
}
