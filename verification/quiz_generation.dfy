/** `POST /api/quizzes/generate`: builds a quiz for a subject from the caller's
    three most recent materials in it, through an external question generator,
    or a fixed two-question demo quiz when the caller has no such material. */
module QuizGeneration {
  import opened Wrappers
  import opened Entities
  import Listing
  import OptionsJson
  import opened Quizzes

  const DefaultSubject: string := "Biology"
  const MaterialLimit: nat := 3
  const RequestedQuestions: nat := 5

  /** `subject || "Biology"`. */
  function EffectiveSubject(subject: Option<string>): (r: string)
    ensures Truthy(subject) ==> r == subject.value
    ensures !Truthy(subject) ==> r == DefaultSubject
    ensures r != ""
  {
    if Truthy(subject) then subject.value else DefaultSubject
  }


  /** The `where` of the material query: owned by `user`, in `subject`. */
  function IsSource(user: UserId, subject: string): Material -> bool {
    (m: Material) => m.owner == Some(user) && m.subject == subject
  }

  /** The materials the quiz is generated from: at most three, all the user's
      and in the subject, newest first, and no other matching material is newer
      than any of them (`NewestSelectionDominates`). */
  function SelectSources(materials: seq<Material>, user: UserId, subject: string): (r: seq<Material>)
    ensures |r| <= MaterialLimit
    ensures Listing.NewestFirst(r, UploadedAt)
    ensures forall m :: m in r ==> m in materials && m.owner == Some(user) && m.subject == subject
    ensures |r| == MaterialLimit || multiset(r) == multiset(Listing.Filter(materials, IsSource(user, subject)))
    ensures r == [] <==> forall m :: m in materials ==> !(m.owner == Some(user) && m.subject == subject)
  {
    var r := Listing.NewestMatching(materials, IsSource(user, subject), UploadedAt, MaterialLimit);
    assert r == [] <==> forall m :: m in materials ==> !(m.owner == Some(user) && m.subject == subject) by {
      if r == [] {
        assert multiset(Listing.Filter(materials, IsSource(user, subject))) == multiset{};
      } else {
        assert r[0] in r;
      }
    }
    r
  }

  lemma NewestSelectionDominates(materials: seq<Material>, user: UserId, subject: string, chosen: Material, other: Material)
    requires chosen in SelectSources(materials, user, subject)
    requires other in multiset(Listing.Filter(materials, IsSource(user, subject)))
                      - multiset(SelectSources(materials, user, subject))
    ensures chosen.uploadedAt >= other.uploadedAt
  {
    Listing.NewestMatchingDominates(materials, IsSource(user, subject), UploadedAt, MaterialLimit, chosen, other);
  }

  // ---------------------------------------------------------------- generator input

  /** `${m.title}: ${m.content}` */
  function Describe(m: Material): string {
    m.title + ": " + m.content
  }

  /** `parts.join("\n\n")` */
  function JoinParagraphs(parts: seq<string>): string {
    if |parts| == 0 then ""
    else if |parts| == 1 then parts[0]
    else parts[0] + "\n\n" + JoinParagraphs(parts[1..])
  }

  /** Where the `i`-th part starts in the joined text. */
  function Offset(parts: seq<string>, i: nat): nat
    requires i <= |parts|
  {
    if i == 0 then 0 else Offset(parts, i - 1) + |parts[i - 1]| + 2
  }

  lemma OffsetShift(parts: seq<string>, i: nat)
    requires 0 < |parts| && i < |parts|
    ensures Offset(parts, i + 1) == |parts[0]| + 2 + Offset(parts[1..], i)
  {
    if i > 0 {
      OffsetShift(parts, i - 1);
    }
  }

  lemma {:induction false} JoinedLength(parts: seq<string>)
    requires |parts| > 0
    ensures |JoinParagraphs(parts)| == Offset(parts, |parts| - 1) + |parts[|parts| - 1]|
    decreases |parts|
  {
    if |parts| > 1 {
      JoinedLength(parts[1..]);
      OffsetShift(parts, |parts| - 2);
    }
  }

  lemma {:induction false} OffsetGrows(parts: seq<string>, i: nat, j: nat)
    requires i < j <= |parts|
    ensures Offset(parts, i) + |parts[i]| + 2 <= Offset(parts, j)
    decreases j
  {
    if j > i + 1 {
      OffsetGrows(parts, i, j - 1);
    }
  }

  /** Each part ends within the joined text. */
  lemma JoinedPartFits(parts: seq<string>, i: nat)
    requires i < |parts|
    ensures Offset(parts, i) + |parts[i]| <= |JoinParagraphs(parts)|
  {
    JoinedLength(parts);
    if i < |parts| - 1 {
      OffsetGrows(parts, i, |parts| - 1);
    }
  }

  lemma JoinUnfold(parts: seq<string>)
    requires |parts| > 1
    ensures JoinParagraphs(parts) == parts[0] + "\n\n" + JoinParagraphs(parts[1..])
    ensures JoinParagraphs(parts) == parts[0] + ("\n\n" + JoinParagraphs(parts[1..]))
  {
  }

  /** A slice lying past `k` is the matching slice of `r[k..]`. */
  lemma SliceOfSuffix(r: string, k: nat, a: nat, b: nat)
    requires k <= a <= b <= |r|
    ensures r[a..b] == r[k..][a - k..b - k]
  {
  }

  lemma ConcatSlices(a: string, b: string)
    ensures (a + b)[..|a|] == a && (a + b)[|a|..] == b
  {
  }

  /** The joined text holds each part, in order, at its offset. */
  lemma {:induction false} JoinedPart(parts: seq<string>, i: nat)
    requires i < |parts|
    ensures Offset(parts, i) + |parts[i]| <= |JoinParagraphs(parts)|
    ensures JoinParagraphs(parts)[Offset(parts, i)..Offset(parts, i) + |parts[i]|] == parts[i]
    decreases |parts|
  {
    JoinedPartFits(parts, i);
    if |parts| > 1 {
      var rest := parts[1..];
      var r := JoinParagraphs(parts);
      JoinUnfold(parts);
      if i == 0 {
        ConcatSlices(parts[0], "\n\n" + JoinParagraphs(rest));
      } else {
        var k := |parts[0]| + 2;
        ConcatSlices(parts[0] + "\n\n", JoinParagraphs(rest));
        OffsetShift(parts, i - 1);
        JoinedPart(rest, i - 1);
        assert rest[i - 1] == parts[i];
        SliceOfSuffix(r, k, Offset(parts, i), Offset(parts, i) + |parts[i]|);
      }
    }
  }

  /** Between neighbouring parts the joined text holds a blank line and nothing else. */
  lemma {:induction false} JoinedSeparator(parts: seq<string>, i: nat)
    requires i + 1 < |parts|
    ensures Offset(parts, i + 1) <= |JoinParagraphs(parts)|
    ensures JoinParagraphs(parts)[Offset(parts, i) + |parts[i]|..Offset(parts, i + 1)] == "\n\n"
    decreases |parts|
  {
    var r := JoinParagraphs(parts);
    JoinedPart(parts, i + 1);
    var rest := parts[1..];
    var k := |parts[0]| + 2;
    assert r == parts[0] + "\n\n" + JoinParagraphs(rest);
    if i == 0 {
      assert r[|parts[0]|..k] == "\n\n";
    } else {
      OffsetShift(parts, i - 1);
      OffsetShift(parts, i);
      JoinedSeparator(rest, i - 1);
      assert r[k..] == JoinParagraphs(rest);
    }
  }

  function Descriptions(ms: seq<Material>): (r: seq<string>)
    ensures |r| == |ms| && forall i :: 0 <= i < |ms| ==> r[i] == Describe(ms[i])
  {
    seq(|ms|, i requires 0 <= i < |ms| => Describe(ms[i]))
  }

  /** The text handed to the generator. */
  function CombinedContent(ms: seq<Material>): string {
    JoinParagraphs(Descriptions(ms))
  }

  /** The text handed to the generator holds, for each selected material in
      turn, its title, a colon and a space, and its content. */
  lemma CombinedPart(ms: seq<Material>, i: nat)
    requires i < |ms|
    ensures var at := Offset(Descriptions(ms), i);
      && at + |ms[i].title + ": " + ms[i].content| <= |CombinedContent(ms)|
      && CombinedContent(ms)[at..at + |ms[i].title + ": " + ms[i].content|] == ms[i].title + ": " + ms[i].content
  {
    JoinedPart(Descriptions(ms), i);
  }

  // ---------------------------------------------------------------- generator

  /** One generated question, its options already JSON text. */
  datatype GeneratedQuestion = GeneratedQuestion(
    question: string,
    options: Option<string>,
    correctAnswer: string,
    explanation: Option<string>)

  /** The generator's result object; its `questions` may be missing. */
  datatype Generated = Generated(questions: Option<seq<GeneratedQuestion>>)

  /** The arguments of one `generateQuiz(content, subject, count)` call. */
  datatype GeneratorCall = GeneratorCall(content: string, subject: string, count: nat)

  /** What the handler did: its response and store, and the generator call it
      made, if any. */
  datatype Outcome = Outcome(handled: Handled<QuizView>, call: Option<GeneratorCall>)

  function StoreGenerated(q: GeneratedQuestion): StoredQuestion {
    StoredQuestion(q.question, q.options, q.correctAnswer, q.explanation)
  }

  function StoreAllGenerated(qs: seq<GeneratedQuestion>): (r: seq<StoredQuestion>)
    ensures |r| == |qs| && forall i :: 0 <= i < |qs| ==> r[i] == StoreGenerated(qs[i])
  {
    seq(|qs|, i requires 0 <= i < |qs| => StoreGenerated(qs[i]))
  }

  // ---------------------------------------------------------------- demo quiz

  const DemoOptions1: seq<string> :=
    ["Advanced mathematics", "Basic concepts", "Historical events", "Scientific principles"]
  const DemoOptions2: seq<string> :=
    ["Memorization", "Critical thinking", "Speed reading", "Note taking"]

  function DemoQuestion1(): StoredQuestion {
    StoredQuestion("What is the main topic covered in this subject?",
                   Some(OptionsJson.Encode(DemoOptions1)), "Basic concepts",
                   Some("The material focuses on fundamental concepts and principles."))
  }

  function DemoQuestion2(): StoredQuestion {
    StoredQuestion("Which of the following is most important for understanding this subject?",
                   Some(OptionsJson.Encode(DemoOptions2)), "Critical thinking",
                   Some("Critical thinking is essential for understanding complex concepts."))
  }

  function DemoQuestions(): seq<StoredQuestion> {
    [DemoQuestion1(), DemoQuestion2()]
  }

  /** A question whose options were written by `Encode` reads back with them. */
  lemma ViewEncoded(q: StoredQuestion, opts: seq<string>)
    requires q.options == Some(OptionsJson.Encode(opts))
    ensures ViewQuestion(q) == Some(QuestionView(q.question, opts, q.correctAnswer, q.explanation))
  {
    OptionsJson.DecodeEncode(opts);
  }

  lemma DemoQuestion1Readable()
    ensures ViewQuestion(DemoQuestion1()).Some?
    ensures ViewQuestion(DemoQuestion1()).value.options == DemoOptions1
    ensures ViewQuestion(DemoQuestion1()).value.correctAnswer == DemoOptions1[1]
  {
    ViewEncoded(DemoQuestion1(), DemoOptions1);
  }

  lemma DemoQuestion2Readable()
    ensures ViewQuestion(DemoQuestion2()).Some?
    ensures ViewQuestion(DemoQuestion2()).value.options == DemoOptions2
    ensures ViewQuestion(DemoQuestion2()).value.correctAnswer == DemoOptions2[1]
  {
    ViewEncoded(DemoQuestion2(), DemoOptions2);
  }

  lemma ViewTwo(q1: StoredQuestion, q2: StoredQuestion)
    requires Readable(q1) && Readable(q2)
    ensures ViewQuestions([q1, q2]) == Some([ViewQuestion(q1).value, ViewQuestion(q2).value])
  {
    var qs := [q1, q2];
    assert forall i :: 0 <= i < |qs| ==> Readable(qs[i]) by {
      forall i | 0 <= i < |qs| ensures Readable(qs[i]) {
        if i == 0 { } else { assert i == 1; }
      }
    }
    var vs := ViewQuestions(qs).value;
    assert ViewQuestion(qs[0]) == Some(vs[0]) && ViewQuestion(qs[1]) == Some(vs[1]);
    assert vs == [vs[0], vs[1]];
  }

  /** The demo questions read back with four options each, and each correct
      answer is one of its question's options. */
  lemma DemoQuestionsReadable()
    ensures ViewQuestions(DemoQuestions()).Some?
    ensures var vs := ViewQuestions(DemoQuestions()).value;
      && |vs| == 2
      && vs[0].options == DemoOptions1 && vs[1].options == DemoOptions2
      && forall i :: 0 <= i < 2 ==> |vs[i].options| == 4 && vs[i].correctAnswer in vs[i].options
  {
    DemoQuestion1Readable();
    DemoQuestion2Readable();
    ViewTwo(DemoQuestion1(), DemoQuestion2());
    var vs := ViewQuestions(DemoQuestions()).value;
    forall i | 0 <= i < 2 ensures |vs[i].options| == 4 && vs[i].correctAnswer in vs[i].options {
      if i == 0 { } else { assert i == 1; }
    }
  }

  // ---------------------------------------------------------------- handler

  /** The handler. `generate` stands for the external generator: its result
      for the call the handler makes. */
  function Post(s: Store, session: Option<UserId>, subject: Option<string>,
                generate: GeneratorCall -> Option<Generated>, now: int): (o: Outcome)
    requires Valid(s)
    ensures Valid(o.handled.store)
    ensures !Truthy(session) ==> o == Outcome(Handled(Unauthorized, s), None)
    ensures Truthy(session) ==>
      var eff := EffectiveSubject(subject);
      var sources := SelectSources(s.materials, session.value, eff);
      var h := o.handled;
      && (sources == [] ==>
            && o.call == None
            && h.response.Ok?
            && var quiz := Quiz(|s.quizzes|, eff + " Quiz", eff, session.value, now, DemoQuestions());
            && h.store == s.(quizzes := s.quizzes + [quiz])
            && ViewQuiz(quiz) == Some(h.response.body)
            && h.response.body.questions == ViewQuestions(DemoQuestions()).value)
      && (sources != [] ==>
            o.call == Some(GeneratorCall(CombinedContent(sources), eff, RequestedQuestions)))
      && (sources != [] && (generate(o.call.value).None? || generate(o.call.value).value.questions.None?) ==>
            h == Handled(ServerError, s))
      && (sources != [] && generate(o.call.value).Some? && generate(o.call.value).value.questions.Some? ==>
            var gen := generate(o.call.value).value.questions.value;
            var quiz := Quiz(|s.quizzes|, eff + " Quiz", eff, session.value, now, StoreAllGenerated(gen));
            && h.store == s.(quizzes := s.quizzes + [quiz])
            && (h.response.Ok? <==> QuizReadable(quiz))
            && (h.response.Ok? ==> ViewQuiz(quiz) == Some(h.response.body))
            && (!h.response.Ok? ==> h.response == ServerError))
  {
    if !Truthy(session) then Outcome(Handled(Unauthorized, s), None)
    else
      var user := session.value;
      var eff := EffectiveSubject(subject);
      var sources := SelectSources(s.materials, user, eff);
      if sources == [] then
        var (s', quiz) := Create(s, eff + " Quiz", eff, user, now, DemoQuestions());
        DemoQuestionsReadable();
        Outcome(Handled(Ok(ViewQuiz(quiz).value), s'), None)
      else
        var call := GeneratorCall(CombinedContent(sources), eff, RequestedQuestions);
        match generate(call)
        case None => Outcome(Handled(ServerError, s), Some(call))
        case Some(Generated(None)) => Outcome(Handled(ServerError, s), Some(call))
        case Some(Generated(Some(gen))) =>
          var (s', quiz) := Create(s, eff + " Quiz", eff, user, now, StoreAllGenerated(gen));
          match ViewQuiz(quiz)
          case None => Outcome(Handled(ServerError, s'), Some(call))
          case Some(v) => Outcome(Handled(Ok(v), s'), Some(call))
  }

  lemma DefaultTitle()
    ensures DefaultSubject + " Quiz" == "Biology Quiz"
  {
  }

  /** With no material in the subject, a call without a subject yields the
      "Biology Quiz" demo quiz: two questions, each answerable from its options. */
  lemma DefaultDemoQuiz(s: Store, user: UserId, generate: GeneratorCall -> Option<Generated>, now: int)
    requires Valid(s) && user != ""
    requires forall m :: m in s.materials ==> !(m.owner == Some(user) && m.subject == "Biology")
    ensures var o := Post(s, Some(user), None, generate, now);
      && o.call == None
      && o.handled.response.Ok?
      && o.handled.response.body.title == "Biology Quiz"
      && o.handled.response.body.subject == "Biology"
      && |o.handled.response.body.questions| == 2
      && forall i :: 0 <= i < 2 ==>
           var q := o.handled.response.body.questions[i];
           |q.options| == 4 && q.correctAnswer in q.options
  {
    DemoQuestionsReadable();
    assert EffectiveSubject(None) == "Biology";
    assert SelectSources(s.materials, user, "Biology") == [];
    var o := Post(s, Some(user), None, generate, now);
    var body := o.handled.response.body;
    DefaultTitle();
    assert body.title == DefaultSubject + " Quiz";
    assert body.questions == ViewQuestions(DemoQuestions()).value;
  }
}
