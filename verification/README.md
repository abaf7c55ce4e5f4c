# study-coach, modelled in Dafny

study-coach is a Next.js study assistant. Users upload study material. An AI
service analyses each upload and builds multiple-choice quizzes from a user's
most recent material in a subject. Users take the quizzes in the browser.

Each finished quiz is recorded as an attempt, and the user's progress row for
the quiz's subject is updated. This project models the server routes and the
two browser pages that make up that loop, and proves what they do.

The server routes modelled are:

- `POST /api/quiz-attempts`, which records an attempt and updates progress.
- `GET` and `POST /api/quizzes`.
- `POST /api/quizzes/generate`.
- `GET` and `POST /api/materials`.

The two browser pages are the quiz-taking page and the upload page.

The database is a value, `Entities.Store`, holding materials, quizzes, attempts
and progress rows. Every route handler is a pure function from the store, the
session user, the request body and the request time. It returns the response
and the new store, as `Entities.Handled`. The two collaborators the source
calls out to are parameters of the handlers that use them:

- `analyze` is the material analyser;
- `generate` is the quiz generator.

The generate handler also returns the generator call it made, so its arguments
can be stated.

The pages are state machines over their React state. Each click and input
handler becomes a transition; the list loading is left out, as noted below.
The quiz page's transition can also emit the attempt it submits.

Modules, one per file:

- `Wrappers`: `Option`.
- `Entities`: the records, the store and its invariants (quiz ids are their
  positions; at most one progress row per user and subject), and the responses.
- `Listing`: the filter and newest-first ordering the queries use, and
  "take the newest n".
- `OptionsJson`: the JSON text in which a question's options are stored, as an
  encoder and decoder for arrays of strings, with a proved round trip.
- `Progress`: the progress upsert as written, and the corrected "keep the best
  score" version.
- `QuizAttempts`, `Quizzes`, `QuizGeneration`, `Materials`: the routes.
- `QuizSession`: the quiz page.
- `UploadForm`: the upload page.

A JavaScript value that the source tests for truthiness is modelled as an
`Option`: `None` stands for every falsy value other than the empty string,
and `Entities.Truthy` also rejects the empty string.

The progress update follows the code, not its comment. The comment on line 48
of the attempts route promises that progress keeps the higher of the old and
new scores. The code writes
`Math.max(score, 0)`, the new score clamped at zero, so the last attempt wins.
The handler is modelled as written (`QuizAttempts.Post`). A corrected
handler, `QuizAttempts.PostBest`, uses the corrected upsert
`Progress.UpsertBest`. `Progress.BestKeepsMaximum` proves that the corrected
upsert leaves the maximum of all scores; see "## Findings".

## Model

| member | source | states |
|---|---|---|
| Entities.FindQuiz | src/app/api/quiz-attempts/route.ts:34-37 | the lookup by id finds a quiz exactly when some stored quiz has that id, and returns a quiz with that id |
| Listing.Filter | src/app/api/materials/route.ts:65-71 | the `where` keeps exactly the matching rows, each as often as it occurs in the table, and drops every other row |
| Listing.SortNewestFirst | src/app/api/materials/route.ts:72 | `orderBy ... desc` returns a permutation of its input (same multiset) ordered by non-increasing timestamp |
| Listing.Take | src/app/api/quizzes/generate/route.ts:24 | `take: n` returns a prefix of length min(n, length) |
| Listing.NewestMatching | src/app/api/quizzes/generate/route.ts:18-25 | filter, order and take: at most n matching rows, newest first, drawn from the matches; all of them when fewer than n match |
| Listing.NewestMatchingDominates | src/app/api/quizzes/generate/route.ts:23-24 | no matching row left out by the take is newer than a row kept |
| OptionsJson.Encode | src/app/api/quizzes/route.ts:65 | `JSON.stringify` of a string array is bracketed text |
| OptionsJson.DecodeEncode | src/app/api/quizzes/route.ts:63-82 | `JSON.parse(JSON.stringify(options))` gives back the same options for every array of strings, including quotes, backslashes and control characters |
| Progress.Lookup | src/app/api/quiz-attempts/route.ts:41-46 | the `userId_subject` key finds a row exactly when one has that user and subject |
| Progress.LookupUnique | src/app/api/quiz-attempts/route.ts:41-46 | under the unique-key invariant, every row is what its own key finds |
| Progress.Put | src/app/api/quiz-attempts/route.ts:40-57 | an upsert sets the row for one key, leaves every other key's row as it was, adds a row only when the key was absent, and keeps keys unique |
| Progress.UpsertAsWritten | src/app/api/quiz-attempts/route.ts:40-57 | as written: a new row stores the submitted score, an existing row gets `max(score, 0)`, `lastStudied` is always now, other keys untouched |
| Progress.AsWrittenLastScoreWins | src/app/api/quiz-attempts/route.ts:47-50 | after a series of attempts (two or more, or one on an existing row) the row holds `max(last score, 0)`, whatever came before |
| Progress.UpsertBest | src/app/api/quiz-attempts/route.ts:47-50 | corrected update: the row's score is at least the new score, never below the old one, and `lastStudied` is now |
| Progress.BestKeepsMaximum | src/app/api/quiz-attempts/route.ts:48 | with the corrected update, a series of attempts leaves the maximum of their scores, in any order |
| QuizAttempts.Post | src/app/api/quiz-attempts/route.ts:6-60 | 401 without a session user and 400 without quiz id, user id or score; neither changes the store. Otherwise it appends exactly the returned attempt, owned by the body's user, with missing answers stored as `{}`. An unknown quiz leaves progress alone; a known one writes the session user's row for its subject (stamped now) and no other row |
| QuizAttempts.PostProgressScore | src/app/api/quiz-attempts/route.ts:47-56 | the score left in the row is the submitted one on create and `max(score, 0)` on update |
| QuizAttempts.ZeroScoreAccepted | src/app/api/quiz-attempts/route.ts:16 | the score is only checked for presence: a score of 0 is accepted |
| QuizAttempts.NinetyThenForty | src/app/api/quiz-attempts/route.ts:47-50 | attempts scoring 90 then 40 leave 40, not the higher score |
| QuizAttempts.PostBest | src/app/api/quiz-attempts/route.ts:6-60 | the handler with the corrected update: the same responses, attempts and quizzes as the handler as written, but an existing progress row keeps the greater of its score and the new one. The row is stamped now and no other row changes |
| QuizAttempts.BestNinetyThenForty | src/app/api/quiz-attempts/route.ts:47-50 | with the corrected handler, attempts scoring 90 then 40 on a new subject leave 90 |
| QuizAttempts.NegativeScoreClampedOnlyOnUpdate | src/app/api/quiz-attempts/route.ts:47-56 | a score of -5 is stored as -5 when it creates the row and as 0 when it updates it |
| Quizzes.ViewQuestion | src/app/api/quizzes/route.ts:24-27 | a question reads back, fields copied, exactly when its options text is falsy (read as `[]`) or holds a JSON array of strings (read as that array) |
| Quizzes.ViewQuestions | src/app/api/quizzes/route.ts:24-27 | a question list reads back exactly when every question does, element by element |
| Quizzes.ViewQuiz | src/app/api/quizzes/route.ts:22-28 | a quiz reads back exactly when all its questions do, with its own id, title, subject, owner and time |
| Quizzes.ViewQuizzes | src/app/api/quizzes/route.ts:22-28 | a list of quizzes reads back exactly when each quiz does, element by element |
| Quizzes.Create | src/app/api/quizzes/route.ts:57-74 | creating a quiz appends one with a fresh id and the given fields, and keeps the store valid |
| Quizzes.StoreQuestions | src/app/api/quizzes/route.ts:63-68 | one row is written per submitted question, and each reads back as that question with its options, absent options read as `[]` |
| Quizzes.ViewStoredQuestion | src/app/api/quizzes/route.ts:63-82 | a question written and read back is the submitted question, with absent options read as `[]` |
| Quizzes.Get | src/app/api/quizzes/route.ts:6-38 | 401 without a session user. Otherwise it succeeds exactly when all the user's quizzes read back, and answers 500 otherwise. On success it lists exactly the user's quizzes, each once, newest first. The store is unchanged |
| Quizzes.Post | src/app/api/quizzes/route.ts:40-93 | 401 and 400 (missing title, subject or question list) leave the store unchanged. Otherwise one quiz, owned by the session user, is stored and returned. It holds the submitted title, subject and questions, and each question's options come back as submitted |
| QuizGeneration.EffectiveSubject | src/app/api/quizzes/generate/route.ts:21 | a truthy subject is used as given, anything else becomes "Biology" |
| QuizGeneration.SelectSources | src/app/api/quizzes/generate/route.ts:18-25 | at most three of the user's materials in the subject, newest first, all of them when there are fewer; empty exactly when the user has none in the subject |
| QuizGeneration.NewestSelectionDominates | src/app/api/quizzes/generate/route.ts:23-24 | no material of the user in the subject that was left out is newer than one selected |
| QuizGeneration.CombinedPart | src/app/api/quizzes/generate/route.ts:79-81 | the text handed to the generator holds each selected material's title, `: ` and content, in selection order, at that paragraph's offset |
| QuizGeneration.JoinedPart | src/app/api/quizzes/generate/route.ts:79-81 | each paragraph appears whole in the joined text at its offset |
| QuizGeneration.JoinedSeparator | src/app/api/quizzes/generate/route.ts:79-81 | consecutive paragraphs are separated by exactly a blank line |
| QuizGeneration.JoinedLength | src/app/api/quizzes/generate/route.ts:79-81 | the joined text ends where its last paragraph ends |
| QuizGeneration.DemoQuestionsReadable | src/app/api/quizzes/generate/route.ts:35-58 | the two demo questions read back with four options each, and each correct answer is one of its options |
| QuizGeneration.Post | src/app/api/quizzes/generate/route.ts:7-122 | 401 without a session user. With no source material: the demo quiz is stored and returned and the generator is not called. Otherwise the generator gets the joined content, the effective subject and 5. With no result or no questions the answer is 500 and nothing changes. Otherwise the quiz is stored, and returned when it reads back (500 with the quiz still stored when not) |
| QuizGeneration.DefaultDemoQuiz | src/app/api/quizzes/generate/route.ts:27-75 | with no subject and no Biology material, the response is a "Biology Quiz" of two answerable questions, without a generator call |
| Materials.FieldOrNull | src/app/api/materials/route.ts:38-40 | an analysis field is stored exactly when an analysis exists and the field is truthy, and then as given |
| Materials.Post | src/app/api/materials/route.ts:7-45 | 401 and 400 (missing title, content, subject or type) leave the store unchanged. Otherwise exactly one material is appended with the body's fields, the body's `userId` as owner, the request time, and the analysis fields |
| Materials.Get | src/app/api/materials/route.ts:55-75 | 401 without a session user. Otherwise it returns exactly the user's materials, narrowed to the subject when one is given, each as often as stored, newest first. The store is unchanged |
| Materials.OwnerIsBodyUser | src/app/api/materials/route.ts:37 | a material posted with another user's id in the body is not listed to the poster, and is listed to that other user |
| QuizSession.RoundPercent | src/app/quiz/page.tsx:79 | `Math.round(k / n * 100)` is the integer nearest to 100k/n, with halves rounded up |
| QuizSession.PercentBounds | src/app/quiz/page.tsx:78-79 | for k of n correct, the percentage is between 0 and 100: 100 when all are correct, 0 when none are |
| QuizSession.StartQuiz | src/app/quiz/page.tsx:53-59 | starting a quiz shows its first question with no answer selected and a zero count |
| QuizSession.BackToQuizzes | src/app/quiz/page.tsx:139-141 | the back button drops only the current quiz; the index, selection, explanation flag and correct-answer count are kept |
| QuizSession.BackThenStartResets | src/app/quiz/page.tsx:139-141 | leaving a quiz and starting one again gives the same state as starting it from the page's first state, so nothing the back button kept survives |
| QuizSession.SelectAnswer | src/app/quiz/page.tsx:61-63 | an answer is taken only while none is selected (option buttons are disabled after one), and only from the options of the question on screen; any other click leaves the whole state unchanged |
| QuizSession.NextQuestion | src/app/quiz/page.tsx:65-84 | nothing happens without a truthy selection. The count grows by one exactly when the selection is the correct answer. Before the last question it advances and clears the selection. On the last it keeps the state and submits quiz id, session user and the rounded percentage, when a quiz and a session user are present |
| QuizSession.PlayWholeQuiz | src/app/quiz/page.tsx:53-97 | starting a quiz and answering every question submits exactly one attempt, scored as the rounded percentage of correct answers, between 0 and 100 |
| QuizSession.FinishTwice | src/app/quiz/page.tsx:76-82 | pressing Finish again submits another attempt that counts the last answer again |
| QuizSession.RepeatedFinishExceedsHundred | src/app/quiz/page.tsx:78-81 | a one-question quiz answered correctly submits 100, then 200 on a second Finish |
| QuizSession.EmptyOptionBlocks | src/app/quiz/page.tsx:66 | once an empty-text option is selected, the quiz can neither move on nor change the answer |
| QuizSession.SubmissionAccepted | src/app/quiz/page.tsx:86-97 | what the page submits is accepted by the attempts route and stored with the page's percentage and empty answers |
| UploadForm.StripExtension | src/app/upload/page.tsx:34 | the name is cut at the position where `\.[^/.]+$` matches, and left whole where it matches nowhere |
| UploadForm.StripIsPrefix | src/app/upload/page.tsx:34 | stripping only removes a tail of the name |
| UploadForm.StripExamples | src/app/upload/page.tsx:34 | "a.tar.gz" becomes "a.tar", ".txt" becomes "", and "notes.", "v1.2/notes" and "README" are unchanged |
| UploadForm.InitialConsistent | src/app/upload/page.tsx:14-19 | the initial form is a consistent state: its type is one of the offered values, and with no file picked its content is empty |
| UploadForm.PickFile | src/app/upload/page.tsx:21-38 | a cancelled pick changes nothing. A picked file sets the title to its stripped name and the content to the placeholder, and keeps subject and type |
| UploadForm.SetTitle | src/app/upload/page.tsx:142 | editing the title changes only the title |
| UploadForm.SetSubject | src/app/upload/page.tsx:157 | editing the subject changes only the subject |
| UploadForm.SetKind | src/app/upload/page.tsx:172-179 | the type changes only to one of the five offered values |
| UploadForm.Submit | src/app/upload/page.tsx:40-56 | a body is sent exactly when a file is picked, title and subject are non-empty and a session user exists. It carries the form's fields and the session user id |
| UploadForm.SentBodyWellFormed | src/app/upload/page.tsx:50-56 | every body the page sends passes the materials route's required-field check |
| UploadForm.PickOverridesTitle | src/app/upload/page.tsx:32-36 | picking a file replaces a title typed before it |
| UploadForm.ExtensionOnlyNameBlocks | src/app/upload/page.tsx:34 | after picking a file named ".txt" nothing can be sent until a title is typed |
| UploadForm.UploadIsStored | src/app/upload/page.tsx:40-56 | what the page sends is stored with the session user as owner, with the page's title, subject and placeholder content |

## Left out

- The AI service itself: the analyser and generator internals, the embedding computed for each material, and their timeouts. They are parameters; only their results are modelled. The embedding column is not modelled.
- Authentication and sessions: the session is an input, either a user id or nothing.
- Database identifiers: quiz ids are natural numbers equal to their position. The source uses generated strings, which are never falsy, so the model treats every present id as given.
- Foreign keys: the attempts route stores an attempt for any quiz id, and the materials route stores a material with whatever `userId` the body carries, including none (owner `None`) or one naming no user. With such an id the database may reject the insert, and the route would then answer 500; that depends on the schema, which is not part of this model.
- Database and network failures, and the `catch` branches that turn them into 500. The only 500s modelled are the generator failure and a stored options value that is not a JSON array of strings.
- Attempt scores are integers. A score of `null` or a non-number passes the route's `=== undefined` check and is left to the database.
- Stored answers are kept as the submitted map. The JSON text written for them is not modelled.
- OptionsJson.Decode: strings are sequences of characters, so a `\uXXXX` escape naming a surrogate code unit (D800 to DFFF) decodes to None, even as half of a valid pair such as `\ud83d\ude00`, which `JSON.parse` reads as one emoji. `JSON.stringify` writes a character outside the basic plane as itself, not as escapes, and escapes only lone surrogates, which a Dafny string cannot hold; so text the routes write from strings of characters is unaffected; only options text from elsewhere, such as the generator's, can differ.
- Quizzes.ViewQuestion: options text is read back only when it holds a JSON array of strings. `JSON.parse` also accepts other JSON, such as `null`, `"A"`, `5`, `{}` or arrays of other values, and the routes then answer 200 with that value as `options`. The model treats such text as unreadable, so the routes answer 500. This affects `Quizzes.Get` and `QuizGeneration.Post` when the generator returns such text. Only string arrays are modelled because the page reads `options` as one.
- Quizzes.StoreQuestions: a submitted question with `options: null` is stored by the route as the text `"null"` and read back as `null`. The model has no JSON `null` for options: it treats `null` like a missing list, stores nothing and reads back `[]`.
- Quizzes.Post: questions come back in submission order. The routes read questions through `include` with no `orderBy` (src/app/api/quizzes/route.ts:71-73, src/app/api/quizzes/generate/route.ts:61-63 and 108-110), so the real order is the database's. The same holds for `QuizGeneration.Post`.
- Ordering ties: rows with equal timestamps may come back in any order. The source leaves this to the database.
- Concurrency: two requests updating the same progress row are not modelled; every request is one atomic step.
- QuizSession.RoundPercent: exact arithmetic, rounding halves up. This can differ from `Math.round` on floating-point values by one where `k / n * 100` is not exact.
- Rendering, routing, `fetch` and the quiz list loading on the quiz page (`fetchQuizzes`, `generateQuiz`) are not modelled. The explanation panel is kept as a flag that nothing sets to true; `StartQuiz` and `NextQuestion` set it to false.
- UploadForm.PickFile: the two-second processing delay is collapsed into the pick. The model therefore does not cover an edit made during the delay being overwritten, nor the disabled file input and submit button while it runs.
- Requests that React sends twice because of stale closures, such as two fast clicks before a re-render, are not modelled.

## Findings

| source | as written | input that shows it | evidently intended | confidence | as-written member | corrected member |
|---|---|---|---|---|---|---|
| src/app/api/quiz-attempts/route.ts:47-50 | an existing progress row gets `Math.max(score, 0)`, the new score clamped at 0 | attempts scoring 90 then 40 on the same subject leave 40 | keep the higher of the stored and the new score, as the comment on line 48 says | high, from reading; not executed | QuizAttempts.NinetyThenForty | QuizAttempts.PostBest |
