/** `POST /api/materials` (store a study material with its analysis) and
    `GET /api/materials` (list the caller's materials). */
module Materials {
  import opened Wrappers
  import opened Entities
  import Listing

  /** The JSON body of the POST; None stands for any falsy value. */
  datatype MaterialBody = MaterialBody(
    title: Option<string>,
    content: Option<string>,
    subject: Option<string>,
    kind: Option<string>,
    userId: Option<UserId>)

  /** The analyser's result object; any field may be missing. */
  datatype Analysis = Analysis(
    summary: Option<string>,
    keyTopics: Option<string>,
    difficulty: Option<string>)

  predicate WellFormed(body: MaterialBody) {
    Truthy(body.title) && Truthy(body.content) && Truthy(body.subject) && Truthy(body.kind)
  }

  /** `analysis?.<field> || null` */
  function FieldOrNull(analysis: Option<Analysis>, field: Analysis -> Option<string>): (r: Option<string>)
    ensures r.Some? <==> analysis.Some? && Truthy(field(analysis.value))
    ensures r.Some? ==> r == field(analysis.value)
  {
    if analysis.Some? && Truthy(field(analysis.value)) then field(analysis.value) else None
  }

  /** The handler. `analyze` stands for the external analyser: its result for
      the material's content (None when it returns null). */
  function Post(s: Store, session: Option<UserId>, body: MaterialBody,
                analyze: string -> Option<Analysis>, now: int): (h: Handled<Material>)
    requires Valid(s)
    ensures Valid(h.store)
    ensures !Truthy(session) ==> h == Handled(Unauthorized, s)
    ensures Truthy(session) && !WellFormed(body) ==> h == Handled(BadRequest, s)
    ensures h.response.Ok? <==> Truthy(session) && WellFormed(body)
    ensures h.response.Ok? ==>
      var m := h.response.body;
      var a := analyze(body.content.value);
      && h.store == s.(materials := s.materials + [m])
      && m.title == body.title.value && m.content == body.content.value
      && m.subject == body.subject.value && m.kind == body.kind.value
      && m.owner == body.userId
      && m.uploadedAt == now
      && (m.summary.Some? <==> a.Some? && Truthy(a.value.summary))
      && (m.summary.Some? ==> m.summary == a.value.summary)
      && (m.keyTopics.Some? <==> a.Some? && Truthy(a.value.keyTopics))
      && (m.keyTopics.Some? ==> m.keyTopics == a.value.keyTopics)
      && (m.difficulty.Some? <==> a.Some? && Truthy(a.value.difficulty))
      && (m.difficulty.Some? ==> m.difficulty == a.value.difficulty)
  {
    if !Truthy(session) then Handled(Unauthorized, s)
    else if !WellFormed(body) then Handled(BadRequest, s)
    else
      var content := body.content.value;
      var a := analyze(content);
      var m := Material(body.title.value, content, body.subject.value, body.kind.value, body.userId,
                        FieldOrNull(a, (x: Analysis) => x.summary),
                        FieldOrNull(a, (x: Analysis) => x.keyTopics),
                        FieldOrNull(a, (x: Analysis) => x.difficulty),
                        now);
      Handled(Ok(m), s.(materials := s.materials + [m]))
  }


  /** The `where` of the GET: the session user's materials, and only those in
      `subject` when a non-empty subject parameter is given. */
  function Listed(user: UserId, subject: Option<string>): Material -> bool {
    (m: Material) => m.owner == Some(user) && (Truthy(subject) ==> m.subject == subject.value)
  }

  /** The handler; `subject` is the `subject` search parameter. */
  function Get(s: Store, session: Option<UserId>, subject: Option<string>): (h: Handled<seq<Material>>)
    ensures h.store == s
    ensures !Truthy(session) ==> h.response == Unauthorized
    ensures Truthy(session) ==> h.response.Ok?
    ensures h.response.Ok? ==>
      var user := session.value;
      && Listing.NewestFirst(h.response.body, UploadedAt)
      && multiset(h.response.body) == multiset(Listing.Filter(s.materials, Listed(user, subject)))
      && (forall m :: m in h.response.body <==>
            m in s.materials && m.owner == Some(user) && (Truthy(subject) ==> m.subject == subject.value))
  {
    if !Truthy(session) then Handled(Unauthorized, s)
    else
      var r := Listing.SortNewestFirst(Listing.Filter(s.materials, Listed(session.value, subject)), UploadedAt);
      assert forall m :: m in r <==> m in multiset(r);
      Handled(Ok(r), s)
  }

  /** The stored owner is the body's `userId`: a material posted under another
      user's id is not listed to the user who posted it, and is listed to the
      user whose id it carries. */
  lemma OwnerIsBodyUser(s: Store, poster: UserId, other: UserId, body: MaterialBody,
                        analyze: string -> Option<Analysis>, now: int)
    requires Valid(s) && poster != "" && other != "" && poster != other
    requires WellFormed(body) && body.userId == Some(other)
    ensures var h := Post(s, Some(poster), body, analyze, now);
      && h.response.Ok?
      && h.response.body !in Get(h.store, Some(poster), None).response.body
      && h.response.body in Get(h.store, Some(other), None).response.body
  {
    var h := Post(s, Some(poster), body, analyze, now);
    assert h.response.body in h.store.materials;
  }
}
