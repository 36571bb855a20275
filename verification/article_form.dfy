/** The article editor: the form prefilled from a stored article, the row
    built from the form on submit, and the storage and table calls a submit
    makes, with the upload and the write reduced to their results. */
module ArticleForm {
  import opened Js
  import opened Articles
  import opened CommaList
  import opened Forms

  /** The form's text fields; authors and tags are comma-separated text. */
  datatype FormData = FormData(
    title: string,
    authors: string,
    abstractText: string,
    category: string,
    publishDate: string,
    pdfUrl: string,
    tags: string)

  /** The form state set when an article is opened for editing: the fields
      and the "created by the group" switch. */
  datatype Prefilled = Prefilled(form: FormData, isGepefe: bool)

  /** Opening an article for editing: the switch is on exactly for a
      collective work, whose author box is then left empty; otherwise the
      authors are shown as text that reads back as the same list. */
  function Prefill(a: Article): (p: Prefilled)
    ensures p.isGepefe <==> IsCollective(a.authors)
    ensures p.isGepefe ==> p.form.authors == ""
    ensures !p.isGepefe && AllEntries(a.authors) ==> Parse(p.form.authors) == a.authors
    ensures AllEntries(a.tags) ==> Parse(p.form.tags) == a.tags
    ensures p.form.pdfUrl == "" <==> !Truthy(a.pdfUrl)
  {
    assert AllEntries(a.authors) ==> Parse(Format(a.authors)) == a.authors by {
      if AllEntries(a.authors) { ParseFormat(a.authors); }
    }
    assert AllEntries(a.tags) ==> Parse(Format(a.tags)) == a.tags by {
      if AllEntries(a.tags) { ParseFormat(a.tags); }
    }
    var collective := IsCollective(a.authors);
    Prefilled(
      FormData(a.title, if collective then "" else Format(a.authors), a.abstractText,
               a.category, a.publishDate, OrElse(a.pdfUrl, ""), Format(a.tags)),
      collective)
  }

  /** The author list a submit saves: the collective name alone when the
      switch is on, otherwise the entries typed in the author box. */
  function SavedAuthors(isGepefe: bool, text: string): (authors: seq<string>)
    ensures isGepefe ==> IsCollective(authors)
    ensures !isGepefe ==> authors == Parse(text)
    ensures !isGepefe ==> AllEntries(authors)
    ensures !isGepefe && ',' !in text && !AllSpace(text) ==> authors == [Trim(text)]
  {
    if isGepefe then [Gepefe] else Parse(text)
  }

  /** What a successful upload reports: the storage path, size and MIME type. */
  datatype Uploaded = Uploaded(path: string, size: int, mimeType: string)

  /** The row written to the `articles` table. */
  datatype ArticleRecord = ArticleRecord(
    title: string,
    authors: seq<string>,
    abstractText: string,
    category: string,
    publishDate: string,
    pdfUrl: Option<string>,
    tags: seq<string>,
    filePath: Option<string>,
    fileSize: Option<int>,
    fileType: Option<string>)

  /** `s || null` for a nullable string. */
  function KeepTruthy(o: Option<string>): (r: Option<string>)
    ensures r.Some? <==> Truthy(o)
    ensures r.Some? ==> r == o
  {
    if Truthy(o) then o else None
  }

  /** `n || null` for a nullable number: zero is falsy too. */
  function KeepNonZero(o: Option<int>): (r: Option<int>)
    ensures r.Some? <==> o.Some? && o.value != 0
    ensures r.Some? ==> r == o
  {
    if o.Some? && o.value != 0 then o else None
  }

  /** No stored optional field is an empty string or a zero size. */
  predicate NoFalsyFields(r: ArticleRecord) {
    r.pdfUrl != Some("") && r.filePath != Some("") && r.fileType != Some("") && r.fileSize != Some(0)
  }

  /** The file fields of an article, as they are kept when no new file is uploaded. */
  function StoredPath(existing: Option<Article>): Option<string> {
    if existing.Some? then KeepTruthy(existing.value.filePath) else None
  }

  function StoredSize(existing: Option<Article>): Option<int> {
    if existing.Some? then KeepNonZero(existing.value.fileSize) else None
  }

  function StoredType(existing: Option<Article>): Option<string> {
    if existing.Some? then KeepTruthy(existing.value.fileType) else None
  }

  /** The row built on submit. Each file field comes from the new upload
      when that field of the upload is truthy and is otherwise kept from the
      article being edited; empty text and zero sizes are stored as null. */
  function ArticleData(form: FormData, isGepefe: bool, upload: Option<Uploaded>,
                       existing: Option<Article>): (r: ArticleRecord)
    ensures NoFalsyFields(r)
    ensures r.title == form.title && r.abstractText == form.abstractText
    ensures r.category == form.category && r.publishDate == form.publishDate
    ensures r.authors == SavedAuthors(isGepefe, form.authors)
    ensures r.tags == Parse(form.tags)
    ensures r.pdfUrl == (if form.pdfUrl == "" then None else Some(form.pdfUrl))
    ensures upload.Some? && upload.value.path != "" ==> r.filePath == Some(upload.value.path)
    ensures upload.Some? && upload.value.size != 0 ==> r.fileSize == Some(upload.value.size)
    ensures upload.Some? && upload.value.mimeType != "" ==> r.fileType == Some(upload.value.mimeType)
    ensures upload.None? || upload.value.path == "" ==> r.filePath == StoredPath(existing)
    ensures upload.None? || upload.value.size == 0 ==> r.fileSize == StoredSize(existing)
    ensures upload.None? || upload.value.mimeType == "" ==> r.fileType == StoredType(existing)
    ensures existing.None? && upload.None? ==> r.filePath.None? && r.fileSize.None? && r.fileType.None?
  {
    var path := if upload.Some? && upload.value.path != "" then Some(upload.value.path) else StoredPath(existing);
    var size := if upload.Some? && upload.value.size != 0 then Some(upload.value.size) else StoredSize(existing);
    var mime := if upload.Some? && upload.value.mimeType != "" then Some(upload.value.mimeType) else StoredType(existing);
    ArticleRecord(form.title, SavedAuthors(isGepefe, form.authors), form.abstractText,
                  form.category, form.publishDate, NonEmpty(form.pdfUrl), Parse(form.tags),
                  path, size, mime)
  }

  /** The row an article would be written back as. */
  function RecordOf(a: Article): ArticleRecord {
    ArticleRecord(a.title, a.authors, a.abstractText, a.category, a.publishDate, a.pdfUrl,
                  a.tags, a.filePath, a.fileSize, a.fileType)
  }

  /** The lists of an article the form can represent: collective or typed
      entries for authors, typed entries for tags. */
  predicate Editable(a: Article) {
    (IsCollective(a.authors) || AllEntries(a.authors)) && AllEntries(a.tags) && NoFalsyFields(RecordOf(a))
  }

  /** Opening an article and saving it without touching the form or the
      file writes the article back unchanged. */
  lemma SaveUnchangedKeepsArticle(a: Article)
    requires Editable(a)
    ensures var p := Prefill(a); ArticleData(p.form, p.isGepefe, None, Some(a)) == RecordOf(a)
  {
    var p := Prefill(a);
    ParseFormat(a.tags);
    if !IsCollective(a.authors) {
      ParseFormat(a.authors);
    }
  }

  /** The result of the upload step: no file selected, uploaded, or failed
      (the upload reports its own error). */
  datatype UploadResult = NoFile | UploadOk(file: Uploaded) | UploadFailed

  /** The storage object removed, the row written, and how the submit ends. */
  datatype Submission = Submission(removed: Option<string>, write: Option<Write<ArticleRecord>>, outcome: Outcome)

  /** `handleSubmit` as written. A failed upload ends the submit before any
      write. Editing updates the article by id, and when a new file was
      uploaded the article's old file is removed first, before the update's
      result is known; creating inserts the row with the signed-in user as
      creator. A write error ends the submit with its message. */
  function Submit(form: FormData, isGepefe: bool, upload: UploadResult, existing: Option<Article>,
                  userId: Option<string>, writeError: Option<string>): (s: Submission)
    ensures s.outcome == Aborted <==> upload.UploadFailed?
    ensures s.outcome == Aborted ==> s.write.None? && s.removed.None?
    ensures s.outcome != Aborted ==> s.write.Some?
    ensures s.write.Some? ==> (s.write.value.Update? <==> existing.Some?)
    ensures s.write.Some? && s.write.value.Update? ==> s.write.value.id == existing.value.id
    ensures s.write.Some? && s.write.value.Insert? ==> s.write.value.createdBy == userId
    ensures s.write.Some? ==>
              s.write.value.record == ArticleData(form, isGepefe, if upload.UploadOk? then Some(upload.file) else None, existing)
    ensures s.write.Some? && upload.UploadOk? && upload.file.path != "" ==>
              s.write.value.record.filePath == Some(upload.file.path)
    ensures s.removed.Some? <==> upload.UploadOk? && existing.Some? && Truthy(existing.value.filePath)
    ensures s.removed.Some? ==> s.removed == existing.value.filePath
    ensures s.outcome == Saved <==> !upload.UploadFailed? && writeError.None?
    ensures !upload.UploadFailed? && writeError.Some? ==> s.outcome == Failed(writeError.value)
  {
    if upload.UploadFailed? then Submission(None, None, Aborted)
    else
      var fileData := if upload.UploadOk? then Some(upload.file) else None;
      var record := ArticleData(form, isGepefe, fileData, existing);
      var write := if existing.Some? then Update(existing.value.id, record) else Insert(record, userId);
      var removed := if fileData.Some? && existing.Some? && Truthy(existing.value.filePath)
                     then existing.value.filePath else None;
      Submission(removed, Some(write), if writeError.None? then Saved else Failed(writeError.value))
  }

  /** As written, a failed update still removes the old file, while the
      stored article keeps pointing at it. */
  lemma FailedUpdateRemovesReferencedFile()
    ensures var stored := Article("1", "T", [], "", "Teses", "", 0, None, Some("old.pdf"), None, None, []);
            var s := Submit(Prefill(stored).form, false, UploadOk(Uploaded("new.pdf", 1, "application/pdf")),
                            Some(stored), None, Some("update failed"));
            s.removed == stored.filePath && s.outcome.Failed?
  {
  }

  /** The submit with the old file removed only once the update succeeded;
      otherwise it is the submit as written. */
  function SubmitCorrected(form: FormData, isGepefe: bool, upload: UploadResult, existing: Option<Article>,
                           userId: Option<string>, writeError: Option<string>): (s: Submission)
    ensures s.removed.Some? ==> s.outcome == Saved
    ensures s.removed.Some? ==> s.write.Some? && s.write.value.Update?
    ensures var w := Submit(form, isGepefe, upload, existing, userId, writeError);
            s.write == w.write && s.outcome == w.outcome &&
            (writeError.None? ==> s.removed == w.removed)
  {
    var w := Submit(form, isGepefe, upload, existing, userId, writeError);
    var removed := if w.outcome == Saved then w.removed else None;
    Submission(removed, w.write, w.outcome)
  }
}
