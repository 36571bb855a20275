/** The news editor: the form prefilled from a stored news item and the
    row a submit writes, with the image upload and the write reduced to
    their results. */
module NewsForm {
  import opened Js
  import opened CommaList
  import opened Forms

  /** A stored news item as the editor receives it; any field may be missing. */
  datatype StoredNews = StoredNews(
    id: Option<string>,
    title: Option<string>,
    summary: Option<string>,
    content: Option<string>,
    authors: Option<seq<string>>,
    publishDate: Option<string>,
    imageUrl: Option<string>,
    tags: Option<seq<string>>)

  /** The form's text fields; authors and tags are comma-separated text. */
  datatype NewsFields = NewsFields(
    title: string,
    summary: string,
    content: string,
    authors: string,
    publishDate: string,
    imageUrl: string,
    tags: string)

  /** A list field shown as text: `list?.join(", ") || ""`. */
  function ListText(xs: Option<seq<string>>): (text: string)
    ensures xs.Some? && AllEntries(xs.value) ==> Parse(text) == xs.value
    ensures xs.None? ==> text == "" && Parse(text) == []
  {
    if xs.Some? then
      assert AllEntries(xs.value) ==> Parse(Format(xs.value)) == xs.value by {
        if AllEntries(xs.value) { ParseFormat(xs.value); }
      }
      Format(xs.value)
    else
      ParseFormat([]);
      ""
  }

  /** Opening a news item for editing: a missing text field shows as empty,
      a missing date as today's, and the lists read back as themselves. */
  function Prefill(n: StoredNews, today: string): (f: NewsFields)
    ensures f.title == OrElse(n.title, "") && f.summary == OrElse(n.summary, "")
    ensures f.content == OrElse(n.content, "") && f.imageUrl == OrElse(n.imageUrl, "")
    ensures f.publishDate == OrElse(n.publishDate, today)
    ensures n.authors.Some? && AllEntries(n.authors.value) ==> Parse(f.authors) == n.authors.value
    ensures n.tags.Some? && AllEntries(n.tags.value) ==> Parse(f.tags) == n.tags.value
    ensures n.authors.None? ==> Parse(f.authors) == []
    ensures n.tags.None? ==> Parse(f.tags) == []
  {
    var authors := ListText(n.authors);
    var tags := ListText(n.tags);
    NewsFields(OrElse(n.title, ""), OrElse(n.summary, ""), OrElse(n.content, ""),
               authors, OrElse(n.publishDate, today), OrElse(n.imageUrl, ""), tags)
  }

  /** The row written to the `articles` table for a news item. */
  datatype NewsRecord = NewsRecord(
    title: string,
    summary: string,
    content: string,
    authors: seq<string>,
    publishDate: string,
    imageUrl: string,
    tags: seq<string>,
    contentType: string,
    abstractText: string,
    category: string)

  const UploadFailedMessage: string := "Falha no upload da imagem"
  const NotSignedInMessage: string := "Usuário não autenticado"
  const UnexpectedMessage: string := "Ocorreu um erro inesperado."

  /** The row built from the form: a news item filed under "Notícias", with
      its summary doubling as the abstract. */
  function NewsData(f: NewsFields, imageUrl: string): (r: NewsRecord)
    ensures r.contentType == "news" && r.category == "Notícias"
    ensures r.title == f.title && r.content == f.content && r.publishDate == f.publishDate
    ensures r.abstractText == r.summary == f.summary
    ensures r.imageUrl == imageUrl
    ensures r.authors == Parse(f.authors) && r.tags == Parse(f.tags)
    ensures AllEntries(r.authors) && AllEntries(r.tags)
  {
    NewsRecord(f.title, f.summary, f.content, Parse(f.authors), f.publishDate, imageUrl,
               Parse(f.tags), "news", f.summary, "Notícias")
  }

  datatype NewsSubmission = NewsSubmission(write: Option<Write<NewsRecord>>, outcome: Outcome)

  /** The message the error toast shows: the error's own, or a fixed one
      when it has none. */
  function ErrorMessage(message: string): (shown: string)
    ensures shown != ""
    ensures message != "" ==> shown == message
  {
    if message == "" then UnexpectedMessage else message
  }

  /** `handleSubmit`. A selected image must upload to a usable address or
      the submit fails before any write; with no image selected the form's
      address is kept. A news item with an id is updated; a new one needs a
      signed-in user, who becomes its creator. Every failure ends with a
      non-empty message. */
  function Submit(f: NewsFields, imageSelected: bool, uploadedUrl: Option<string>,
                  newsId: Option<string>, user: Option<string>, writeError: Option<string>): (s: NewsSubmission)
    ensures s.outcome != Aborted
    ensures s.outcome.Failed? ==> s.outcome.message != ""
    ensures imageSelected && !Truthy(uploadedUrl) ==> s == NewsSubmission(None, Failed(UploadFailedMessage))
    ensures s.write.Some? ==> s.write.value.record == NewsData(f, if imageSelected then uploadedUrl.value else f.imageUrl)
    ensures s.write.Some? ==> s.write.value.record.imageUrl == (if imageSelected then uploadedUrl.value else f.imageUrl)
    ensures s.write.Some? ==> (s.write.value.Update? <==> Truthy(newsId))
    ensures s.write.Some? && s.write.value.Update? ==> s.write.value.id == newsId.value
    ensures s.write.Some? && s.write.value.Insert? ==> s.write.value.createdBy == user && user.Some?
    ensures !(imageSelected && !Truthy(uploadedUrl)) && !Truthy(newsId) && user.None? ==>
              s == NewsSubmission(None, Failed(NotSignedInMessage))
    ensures s.outcome == Saved <==> s.write.Some? && writeError.None?
    ensures s.write.Some? && writeError.Some? ==> s.outcome == Failed(ErrorMessage(writeError.value))
  {
    if imageSelected && !Truthy(uploadedUrl) then NewsSubmission(None, Failed(UploadFailedMessage))
    else
      var record := NewsData(f, if imageSelected then uploadedUrl.value else f.imageUrl);
      if !Truthy(newsId) && user.None? then NewsSubmission(None, Failed(NotSignedInMessage))
      else
        var write := if Truthy(newsId) then Update(newsId.value, record) else Insert(record, user);
        NewsSubmission(Some(write), if writeError.None? then Saved else Failed(ErrorMessage(writeError.value)))
  }

  /** A stored item whose fields the form shows as they are. */
  predicate Editable(n: StoredNews) {
    Truthy(n.id) && (n.title.Some? ==> Truthy(n.title)) && (n.summary.Some? ==> Truthy(n.summary)) &&
    (n.content.Some? ==> Truthy(n.content)) && (n.imageUrl.Some? ==> Truthy(n.imageUrl)) &&
    Truthy(n.publishDate) &&
    (n.authors.Some? ==> AllEntries(n.authors.value)) && (n.tags.Some? ==> AllEntries(n.tags.value))
  }

  /** Opening a stored news item and saving it without changes and without
      a new image updates the same item with the same text, lists, date and
      image, and with missing text fields as empty ones. */
  lemma SaveUnchangedKeepsNews(n: StoredNews, today: string, user: Option<string>)
    requires Editable(n)
    ensures var s := Submit(Prefill(n, today), false, None, n.id, user, None);
            s.outcome == Saved && s.write == Some(Update(n.id.value, s.write.value.record)) &&
            var r := s.write.value.record;
            r.title == OrElse(n.title, "") && r.summary == OrElse(n.summary, "") &&
            r.content == OrElse(n.content, "") && r.imageUrl == OrElse(n.imageUrl, "") &&
            r.publishDate == n.publishDate.value &&
            r.authors == (if n.authors.Some? then n.authors.value else []) &&
            r.tags == (if n.tags.Some? then n.tags.value else [])
  {
  }
}
