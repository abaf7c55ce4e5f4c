/** Records of the application's data store and the shape of an HTTP response.
    The persistent store is modelled as an in-memory value: append-only sequences
    of materials, quizzes and attempts, and a sequence of progress rows. */
module Entities {
  import opened Wrappers

  type UserId = string
  type QuizId = nat

  /** JavaScript truthiness of an optional string field: `undefined`, `null`
      and the empty string are falsy, every other string is truthy. */
  predicate Truthy(s: Option<string>) {
    s.Some? && s.value != ""
  }

  datatype Material = Material(
    title: string,
    content: string,
    subject: string,
    kind: string,
    owner: Option<UserId>,
    summary: Option<string>,
    keyTopics: Option<string>,
    difficulty: Option<string>,
    uploadedAt: int)

  /** The key both material queries order by. */
  function UploadedAt(m: Material): int { m.uploadedAt }

  /** A question row as stored: the options are kept as their JSON text. */
  datatype StoredQuestion = StoredQuestion(
    question: string,
    options: Option<string>,
    correctAnswer: string,
    explanation: Option<string>)

  datatype Quiz = Quiz(
    id: QuizId,
    title: string,
    subject: string,
    owner: UserId,
    createdAt: int,
    questions: seq<StoredQuestion>)

  /** A submitted answer record, kept as key/value pairs. */
  type Answers = map<string, string>

  datatype Attempt = Attempt(
    quizId: QuizId,
    userId: UserId,
    score: int,
    answers: Answers,
    createdAt: int)

  datatype ProgressRow = ProgressRow(
    userId: UserId,
    subject: string,
    score: int,
    lastStudied: int)

  datatype Store = Store(
    materials: seq<Material>,
    quizzes: seq<Quiz>,
    attempts: seq<Attempt>,
    progress: seq<ProgressRow>)

  /** Every quiz's id is its position, so ids are unique and the next fresh id
      is the number of quizzes. */
  predicate QuizIdsAreIndices(quizzes: seq<Quiz>) {
    forall i :: 0 <= i < |quizzes| ==> quizzes[i].id == i
  }

  /** At most one progress row per (user, subject) pair. */
  predicate UniqueProgressKeys(rows: seq<ProgressRow>) {
    forall i, j :: 0 <= i < j < |rows| ==>
      (rows[i].userId, rows[i].subject) != (rows[j].userId, rows[j].subject)
  }

  predicate Valid(s: Store) {
    QuizIdsAreIndices(s.quizzes) && UniqueProgressKeys(s.progress)
  }

  /** `findUnique({ where: { id } })` over the quizzes. */
  function FindQuiz(quizzes: seq<Quiz>, id: QuizId): (r: Option<Quiz>)
    ensures r.Some? <==> exists i :: 0 <= i < |quizzes| && quizzes[i].id == id
    ensures r.Some? ==> r.value in quizzes && r.value.id == id
  {
    if quizzes == [] then None
    else if quizzes[0].id == id then Some(quizzes[0])
    else
      var r := FindQuiz(quizzes[1..], id);
      assert forall i :: 1 <= i < |quizzes| ==> quizzes[i] == quizzes[1..][i - 1];
      r
  }

  /** An HTTP response of a route handler: a JSON body with status 200, or one of
      the error responses the handlers produce, 401, 400 and 500. */
  datatype Response<+T> = Ok(body: T) | Unauthorized | BadRequest | ServerError

  /** The result of a route handler: its response and the store afterwards. */
  datatype Handled<+T> = Handled(response: Response<T>, store: Store)
}
