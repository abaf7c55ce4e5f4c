/** The material upload page: the form state, picking a file (which fills in
    the title from the file name), editing the fields, and the body the form
    posts to the materials route. */
module UploadForm {
  import opened Wrappers
  import opened Entities
  import Materials

  datatype Form = Form(title: string, subject: string, kind: string, content: string)

  /** The form and the name of the picked file, if any. */
  datatype State = State(form: Form, file: Option<string>)

  const Initial: State := State(Form("", "", "notes", ""), None)

  /** What the form uses as content once a file is picked; the file itself is
      never read. */
  const PlaceholderContent: string := "Sample content from uploaded file..."

  /** The values offered by the "Material Type" select. */
  const MaterialKinds: seq<string> := ["notes", "textbook", "article", "handout", "other"]

  // ------------------------------------------------------- file name handling

  function LastIndexOf(s: string, c: char): (r: Option<nat>)
    ensures r.None? <==> c !in s
    ensures r.Some? ==> r.value < |s| && s[r.value] == c && forall j :: r.value < j < |s| ==> s[j] != c
  {
    if s == [] then None
    else if s[|s| - 1] == c then Some(|s| - 1)
    else
      assert s == s[..|s| - 1] + [s[|s| - 1]];
      LastIndexOf(s[..|s| - 1], c)
  }

  /** The pattern `\.[^/.]+$` matches `name` from position `i`: a dot followed
      by at least one character up to the end, none of them a dot or a slash. */
  predicate ExtensionAt(name: string, i: int) {
    && 0 <= i && i + 1 < |name| && name[i] == '.'
    && forall j :: i < j < |name| ==> name[j] != '.' && name[j] != '/'
  }

  /** The pattern can only match from the last dot. */
  lemma ExtensionAtLastDot(name: string, k: int)
    requires ExtensionAt(name, k)
    ensures LastIndexOf(name, '.') == Some(k)
  {
    assert name[k] in name;
  }

  /** `file.name.replace(/\.[^/.]+$/, "")`: the name without its extension. */
  function StripExtension(name: string): (r: string)
    ensures forall i :: ExtensionAt(name, i) ==> r == name[..i]
    ensures (forall i :: !ExtensionAt(name, i)) ==> r == name
  {
    match LastIndexOf(name, '.')
    case None =>
      assert forall k :: ExtensionAt(name, k) ==> LastIndexOf(name, '.') == Some(k) by {
        forall k | ExtensionAt(name, k) ensures LastIndexOf(name, '.') == Some(k) {
          ExtensionAtLastDot(name, k);
        }
      }
      name
    case Some(i) =>
      assert forall k :: ExtensionAt(name, k) ==> k == i by {
        forall k | ExtensionAt(name, k) ensures k == i {
          ExtensionAtLastDot(name, k);
        }
      }
      if i + 1 < |name| && forall j :: i < j < |name| ==> name[j] != '/' then
        assert ExtensionAt(name, i);
        name[..i]
      else
        name
  }

  /** Stripping only ever removes a tail. */
  lemma StripIsPrefix(name: string)
    ensures StripExtension(name) <= name
  {
    if exists i :: ExtensionAt(name, i) {
      var i :| ExtensionAt(name, i);
    }
  }

  /** Only the last extension goes; a trailing dot, or a dot before a slash,
      is not an extension; a name that is all extension becomes empty. */
  lemma StripExamples()
    ensures StripExtension("notes.pdf") == "notes"
    ensures StripExtension("a.tar.gz") == "a.tar"
    ensures StripExtension("notes.") == "notes."
    ensures StripExtension(".txt") == ""
    ensures StripExtension("v1.2/notes") == "v1.2/notes"
    ensures StripExtension("README") == "README"
  {
    assert ExtensionAt("notes.pdf", 5);
    assert ExtensionAt("a.tar.gz", 5);
    assert ExtensionAt(".txt", 0);
    assert forall i :: !ExtensionAt("notes.", i);
    assert "v1.2/notes"[4] == '/';
    assert forall i :: !ExtensionAt("v1.2/notes", i);
    assert forall i :: !ExtensionAt("README", i);
  }

  // ------------------------------------------------------------------- events

  /** The states the page can be in: the select holds one of its values, and
      the content is the placeholder exactly when a file has been picked. */
  predicate Consistent(st: State) {
    && st.form.kind in MaterialKinds
    && st.form.content == (if st.file.Some? then PlaceholderContent else "")
  }

  lemma InitialConsistent()
    ensures Consistent(Initial)
  {
  }

  /** `handleFileUpload`, with its simulated processing delay collapsed: a
      cancelled pick changes nothing, otherwise the title is replaced by the
      file name without extension and the content by the placeholder. */
  function PickFile(st: State, file: Option<string>): (r: State)
    ensures Consistent(st) ==> Consistent(r)
    ensures file.None? ==> r == st
    ensures file.Some? ==>
      && r.file == file && r.form.title == StripExtension(file.value)
      && r.form.content == PlaceholderContent
      && r.form.subject == st.form.subject && r.form.kind == st.form.kind
  {
    if file.None? then st
    else State(st.form.(title := StripExtension(file.value), content := PlaceholderContent), file)
  }

  function SetTitle(st: State, title: string): (r: State)
    ensures Consistent(st) ==> Consistent(r)
    ensures r.form.title == title && r.form.subject == st.form.subject && r.file == st.file
    ensures r.form.kind == st.form.kind && r.form.content == st.form.content
  {
    st.(form := st.form.(title := title))
  }

  function SetSubject(st: State, subject: string): (r: State)
    ensures Consistent(st) ==> Consistent(r)
    ensures r.form.subject == subject && r.form.title == st.form.title && r.file == st.file
    ensures r.form.kind == st.form.kind && r.form.content == st.form.content
  {
    st.(form := st.form.(subject := subject))
  }

  /** Choosing in the select; only its own values can be chosen. */
  function SetKind(st: State, kind: string): (r: State)
    ensures Consistent(st) ==> Consistent(r)
    ensures r.form.kind == (if kind in MaterialKinds then kind else st.form.kind)
    ensures r.form.title == st.form.title && r.form.subject == st.form.subject && r.file == st.file
    ensures r.form.content == st.form.content
  {
    if kind in MaterialKinds then st.(form := st.form.(kind := kind)) else st
  }

  /** Pressing "Upload & Analyze": the body posted, or None when nothing is
      sent. The button is disabled until a file is picked, the browser refuses
      an empty title or subject, and the handler returns without a session user. */
  function Submit(st: State, session: Option<UserId>): (r: Option<Materials.MaterialBody>)
    ensures r.Some? <==> st.file.Some? && st.form.title != "" && st.form.subject != "" && Truthy(session)
    ensures r.Some? ==>
      r.value == Materials.MaterialBody(Some(st.form.title), Some(st.form.content), Some(st.form.subject),
                                        Some(st.form.kind), session)
  {
    if st.file.None? || st.form.title == "" || st.form.subject == "" || !Truthy(session) then None
    else Some(Materials.MaterialBody(Some(st.form.title), Some(st.form.content), Some(st.form.subject),
                                     Some(st.form.kind), session))
  }

  /** Every body the page sends passes the route's required-field check. */
  lemma SentBodyWellFormed(st: State, session: Option<UserId>)
    requires Consistent(st) && Submit(st, session).Some?
    ensures Materials.WellFormed(Submit(st, session).value)
  {
  }

  /** A picked file's name overrides a title typed before it. */
  lemma PickOverridesTitle(st: State, typed: string, name: string)
    ensures PickFile(SetTitle(st, typed), Some(name)).form.title == StripExtension(name)
  {
  }

  /** A file named only by its extension leaves an empty title, which blocks
      the upload until a title is typed. */
  lemma ExtensionOnlyNameBlocks(st: State, session: Option<UserId>)
    ensures Submit(PickFile(st, Some(".txt")), session).None?
  {
    StripExamples();
  }

  /** The whole flow from a consistent page: what it sends is stored by the
      route under the session user, with the page's fields. */
  lemma UploadIsStored(st: State, user: UserId, s: Store,
                       analyze: string -> Option<Materials.Analysis>, now: int)
    requires Consistent(st) && Submit(st, Some(user)).Some? && Valid(s)
    ensures var h := Materials.Post(s, Some(user), Submit(st, Some(user)).value, analyze, now);
      && h.response.Ok?
      && h.response.body.owner == Some(user)
      && h.response.body.title == st.form.title && h.response.body.subject == st.form.subject
      && h.response.body.content == PlaceholderContent
  {
    SentBodyWellFormed(st, Some(user));
  }
}
