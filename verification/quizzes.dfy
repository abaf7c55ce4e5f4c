/** `GET /api/quizzes` and `POST /api/quizzes`, and the shape in which every
    quiz route returns a quiz: its questions with their options decoded from
    the stored JSON text. */
module Quizzes {
  import opened Wrappers
  import opened Entities
  import Listing
  import OptionsJson

  datatype QuestionView = QuestionView(
    question: string,
    options: seq<string>,
    correctAnswer: string,
    explanation: Option<string>)

  datatype QuizView = QuizView(
    id: QuizId,
    title: string,
    subject: string,
    owner: UserId,
    createdAt: int,
    questions: seq<QuestionView>)

  // ---------------------------------------------------------------- reading

  /** A stored options value can be read back: it is falsy, or it is JSON text
      holding an array of strings. */
  predicate Readable(q: StoredQuestion) {
    !Truthy(q.options) || OptionsJson.Decode(q.options.value).Some?
  }

  predicate QuizReadable(q: Quiz) {
    forall i :: 0 <= i < |q.questions| ==> Readable(q.questions[i])
  }

  /** `{ ...q, options: q.options ? JSON.parse(q.options) : [] }`, for options
      text that holds an array of strings; None for any other truthy text. */
  function ViewQuestion(q: StoredQuestion): (r: Option<QuestionView>)
    ensures r.Some? <==> Readable(q)
    ensures r.Some? ==> r.value.question == q.question && r.value.correctAnswer == q.correctAnswer
                        && r.value.explanation == q.explanation
    ensures r.Some? && !Truthy(q.options) ==> r.value.options == []
    ensures r.Some? && Truthy(q.options) ==> Some(r.value.options) == OptionsJson.Decode(q.options.value)
  {
    if !Truthy(q.options) then Some(QuestionView(q.question, [], q.correctAnswer, q.explanation))
    else match OptionsJson.Decode(q.options.value)
      case None => None
      case Some(opts) => Some(QuestionView(q.question, opts, q.correctAnswer, q.explanation))
  }

  function ViewQuestions(qs: seq<StoredQuestion>): (r: Option<seq<QuestionView>>)
    ensures r.Some? <==> forall i :: 0 <= i < |qs| ==> Readable(qs[i])
    ensures r.Some? ==> |r.value| == |qs| && forall i :: 0 <= i < |qs| ==> ViewQuestion(qs[i]) == Some(r.value[i])
  {
    if forall i :: 0 <= i < |qs| ==> Readable(qs[i]) then
      Some(seq(|qs|, i requires 0 <= i < |qs| && Readable(qs[i]) => ViewQuestion(qs[i]).value))
    else None
  }

  /** The quiz as a response returns it; None where a question's options are
      not readable. */
  function ViewQuiz(q: Quiz): (r: Option<QuizView>)
    ensures r.Some? <==> QuizReadable(q)
    ensures r.Some? ==> && r.value.id == q.id && r.value.title == q.title && r.value.subject == q.subject
                        && r.value.owner == q.owner && r.value.createdAt == q.createdAt
                        && |r.value.questions| == |q.questions|
                        && forall i :: 0 <= i < |q.questions| ==> ViewQuestion(q.questions[i]) == Some(r.value.questions[i])
  {
    match ViewQuestions(q.questions)
    case None => None
    case Some(vs) => Some(QuizView(q.id, q.title, q.subject, q.owner, q.createdAt, vs))
  }

  function ViewQuizzes(qs: seq<Quiz>): (r: Option<seq<QuizView>>)
    ensures r.Some? <==> forall i :: 0 <= i < |qs| ==> QuizReadable(qs[i])
    ensures r.Some? ==> |r.value| == |qs| && forall i :: 0 <= i < |qs| ==> ViewQuiz(qs[i]) == Some(r.value[i])
  {
    if forall i :: 0 <= i < |qs| ==> QuizReadable(qs[i]) then
      Some(seq(|qs|, i requires 0 <= i < |qs| && QuizReadable(qs[i]) => ViewQuiz(qs[i]).value))
    else None
  }

  // ---------------------------------------------------------------- writing

  /** Adds a quiz with a fresh id to the store. */
  function Create(s: Store, title: string, subject: string, owner: UserId, now: int,
                  questions: seq<StoredQuestion>): (r: (Store, Quiz))
    requires Valid(s)
    ensures Valid(r.0)
    ensures r.0 == s.(quizzes := s.quizzes + [r.1])
    ensures r.1 == Quiz(|s.quizzes|, title, subject, owner, now, questions)
    ensures FindQuiz(s.quizzes, r.1.id).None?
  {
    var quiz := Quiz(|s.quizzes|, title, subject, owner, now, questions);
    (s.(quizzes := s.quizzes + [quiz]), quiz)
  }

  function QuizCreatedAt(q: Quiz): int { q.createdAt }
  function ViewCreatedAt(v: QuizView): int { v.createdAt }

  /** The quizzes owned by `user`. */
  function OwnedBy(quizzes: seq<Quiz>, user: UserId): seq<Quiz> {
    Listing.Filter(quizzes, (q: Quiz) => q.owner == user)
  }

  lemma ViewsNewestFirst(qs: seq<Quiz>, vs: seq<QuizView>)
    requires Listing.NewestFirst(qs, QuizCreatedAt)
    requires |vs| == |qs| && forall i :: 0 <= i < |qs| ==> ViewQuiz(qs[i]) == Some(vs[i])
    ensures Listing.NewestFirst(vs, ViewCreatedAt)
  {
    forall i, j | 0 <= i < j < |vs| ensures ViewCreatedAt(vs[i]) >= ViewCreatedAt(vs[j]) {
      assert QuizCreatedAt(qs[i]) >= QuizCreatedAt(qs[j]);
    }
  }

  lemma ViewsAreOwned(sorted: seq<Quiz>, vs: seq<QuizView>, quizzes: seq<Quiz>, user: UserId)
    requires multiset(sorted) == multiset(OwnedBy(quizzes, user))
    requires |vs| == |sorted| && forall i :: 0 <= i < |sorted| ==> ViewQuiz(sorted[i]) == Some(vs[i])
    ensures forall q :: q in quizzes && q.owner == user ==> ViewQuiz(q).Some? && ViewQuiz(q).value in vs
    ensures forall v :: v in vs ==> exists q :: q in quizzes && q.owner == user && ViewQuiz(q) == Some(v)
  {
    forall q | q in quizzes && q.owner == user
      ensures ViewQuiz(q).Some? && ViewQuiz(q).value in vs
    {
      assert q in multiset(sorted);
      var i :| 0 <= i < |sorted| && sorted[i] == q;
    }
    forall v | v in vs
      ensures exists q :: q in quizzes && q.owner == user && ViewQuiz(q) == Some(v)
    {
      var i :| 0 <= i < |vs| && vs[i] == v;
      assert sorted[i] in multiset(sorted);
      assert sorted[i] in OwnedBy(quizzes, user);
    }
  }

  lemma SortedOwnedReadable(sorted: seq<Quiz>, quizzes: seq<Quiz>, user: UserId)
    requires multiset(sorted) == multiset(OwnedBy(quizzes, user))
    ensures (forall i :: 0 <= i < |sorted| ==> QuizReadable(sorted[i]))
        <==> (forall q :: q in quizzes && q.owner == user ==> QuizReadable(q))
  {
    if forall i :: 0 <= i < |sorted| ==> QuizReadable(sorted[i]) {
      forall q | q in quizzes && q.owner == user ensures QuizReadable(q) {
        assert q in multiset(sorted);
        var i :| 0 <= i < |sorted| && sorted[i] == q;
      }
    } else {
      var i :| 0 <= i < |sorted| && !QuizReadable(sorted[i]);
      assert sorted[i] in multiset(OwnedBy(quizzes, user));
    }
  }

  /** `GET /api/quizzes`: the session user's quizzes, newest first. The model
      reads back only options text holding an array of strings, and answers
      500 when one of the user's quizzes holds any other truthy text. */
  function Get(s: Store, session: Option<UserId>): (h: Handled<seq<QuizView>>)
    ensures h.store == s
    ensures !Truthy(session) ==> h.response == Unauthorized
    ensures Truthy(session) ==> (h.response.Ok? <==>
      forall q :: q in s.quizzes && q.owner == session.value ==> QuizReadable(q))
    ensures Truthy(session) && !h.response.Ok? ==> h.response == ServerError
    ensures h.response.Ok? ==>
      var user := session.value;
      && Listing.NewestFirst(h.response.body, ViewCreatedAt)
      && |h.response.body| == |OwnedBy(s.quizzes, user)|
      && (forall q :: q in s.quizzes && q.owner == user ==> ViewQuiz(q).Some? && ViewQuiz(q).value in h.response.body)
      && (forall v :: v in h.response.body ==> exists q :: q in s.quizzes && q.owner == user && ViewQuiz(q) == Some(v))
  {
    if !Truthy(session) then Handled(Unauthorized, s)
    else
      var user := session.value;
      var sorted := Listing.SortNewestFirst(OwnedBy(s.quizzes, user), QuizCreatedAt);
      SortedOwnedReadable(sorted, s.quizzes, user);
      match ViewQuizzes(sorted)
      case None => Handled(ServerError, s)
      case Some(vs) =>
        ViewsNewestFirst(sorted, vs);
        ViewsAreOwned(sorted, vs, s.quizzes, user);
        Handled(Ok(vs), s)
  }

  datatype QuestionInput = QuestionInput(
    question: string,
    options: Option<seq<string>>,
    correctAnswer: string,
    explanation: Option<string>)

  /** The JSON body of `POST /api/quizzes`; None stands for any falsy value. */
  datatype QuizBody = QuizBody(
    title: Option<string>,
    subject: Option<string>,
    questions: Option<seq<QuestionInput>>)

  predicate WellFormed(body: QuizBody) {
    Truthy(body.title) && Truthy(body.subject) && body.questions.Some?
  }

  /** A question row as written: options as `JSON.stringify(q.options)`, which
      leaves an absent list absent. */
  function StoreQuestion(q: QuestionInput): StoredQuestion {
    StoredQuestion(q.question,
                   match q.options case Some(o) => Some(OptionsJson.Encode(o)) case None => None,
                   q.correctAnswer, q.explanation)
  }

  /** The rows written for a question list: one per question, each reading
      back as the submitted question, with absent options read as `[]`. */
  function StoreQuestions(qs: seq<QuestionInput>): (r: seq<StoredQuestion>)
    ensures |r| == |qs|
    ensures forall i :: 0 <= i < |qs| ==>
      ViewQuestion(r[i]) == Some(QuestionView(qs[i].question, qs[i].options.GetOr([]),
                                              qs[i].correctAnswer, qs[i].explanation))
  {
    var r := seq(|qs|, i requires 0 <= i < |qs| => StoreQuestion(qs[i]));
    assert forall i :: 0 <= i < |qs| ==>
      ViewQuestion(r[i]) == Some(QuestionView(qs[i].question, qs[i].options.GetOr([]),
                                              qs[i].correctAnswer, qs[i].explanation)) by {
      forall i | 0 <= i < |qs|
        ensures ViewQuestion(r[i]) == Some(QuestionView(qs[i].question, qs[i].options.GetOr([]),
                                                        qs[i].correctAnswer, qs[i].explanation))
      {
        ViewStoredQuestion(qs[i]);
      }
    }
    r
  }

  /** Reading back a written question gives the submitted question, with an
      absent option list read as the empty one. */
  lemma ViewStoredQuestion(q: QuestionInput)
    ensures ViewQuestion(StoreQuestion(q))
      == Some(QuestionView(q.question, q.options.GetOr([]), q.correctAnswer, q.explanation))
  {
    if q.options.Some? {
      OptionsJson.DecodeEncode(q.options.value);
    }
  }

  /** `POST /api/quizzes`: creates one quiz owned by the session user with one
      question per submitted question. */
  function Post(s: Store, session: Option<UserId>, body: QuizBody, now: int): (h: Handled<QuizView>)
    requires Valid(s)
    ensures Valid(h.store)
    ensures !Truthy(session) ==> h == Handled(Unauthorized, s)
    ensures Truthy(session) && !WellFormed(body) ==> h == Handled(BadRequest, s)
    ensures h.response.Ok? <==> Truthy(session) && WellFormed(body)
    ensures h.response.Ok? ==>
      var v := h.response.body;
      var input := body.questions.value;
      && |h.store.quizzes| == |s.quizzes| + 1
      && h.store == s.(quizzes := s.quizzes + [h.store.quizzes[|s.quizzes|]])
      && ViewQuiz(h.store.quizzes[|s.quizzes|]) == Some(v)
      && v.id == |s.quizzes| && FindQuiz(s.quizzes, v.id).None?
      && v.owner == session.value && v.title == body.title.value && v.subject == body.subject.value
      && v.createdAt == now
      && |v.questions| == |input|
      && forall i :: 0 <= i < |input| ==>
           v.questions[i] == QuestionView(input[i].question, input[i].options.GetOr([]),
                                          input[i].correctAnswer, input[i].explanation)
  {
    if !Truthy(session) then Handled(Unauthorized, s)
    else if !WellFormed(body) then Handled(BadRequest, s)
    else
      var input := body.questions.value;
      var stored := StoreQuestions(input);
      var (s', quiz) := Create(s, body.title.value, body.subject.value, session.value, now, stored);
      var v := ViewQuiz(quiz).value;
      Handled(Ok(v), s')
  }
}
