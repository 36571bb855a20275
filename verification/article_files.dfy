/** The article page and the article viewer dialog: finding the article,
    the address of its file, what the download button does, when a preview
    is loaded, and how the author line is shown. Storage and the browser
    are reduced to parameters: the public address of a stored file and
    whether a storage download failed. */
module ArticleFiles {
  import opened Js
  import opened Articles
  import opened Forms

  /** `articles.find(a => a.id === id)`: the first article with that id. */
  function Find(articles: seq<Article>, id: string): (found: Option<Article>)
    ensures found.None? <==> forall i :: 0 <= i < |articles| ==> articles[i].id != id
    ensures found.Some? ==> exists i :: 0 <= i < |articles| && articles[i] == found.value &&
                              found.value.id == id &&
                              forall j :: 0 <= j < i ==> articles[j].id != id
    decreases |articles|
  {
    if |articles| == 0 then None
    else if articles[0].id == id then Some(articles[0])
    else
      var rest := Find(articles[1..], id);
      if rest.Some? then
        FindShifted(articles, id, rest.value);
        rest
      else rest
  }

  /** An article found in the tail, after a head with another id, is the first of the whole list. */
  lemma FindShifted(articles: seq<Article>, id: string, a: Article)
    requires |articles| > 0 && articles[0].id != id
    requires exists i :: 0 <= i < |articles[1..]| && articles[1..][i] == a && a.id == id &&
                         forall j :: 0 <= j < i ==> articles[1..][j].id != id
    ensures exists i :: 0 <= i < |articles| && articles[i] == a && a.id == id &&
                        forall j :: 0 <= j < i ==> articles[j].id != id
  {
    var i :| 0 <= i < |articles[1..]| && articles[1..][i] == a && a.id == id &&
             forall j :: 0 <= j < i ==> articles[1..][j].id != id;
    assert articles[i + 1] == a;
    forall j | 0 <= j < i + 1
      ensures articles[j].id != id
    {
      if j > 0 {
        assert articles[j] == articles[1..][j - 1];
      }
    }
  }

  /** What the article page shows. */
  datatype DetailPage = Loading | NotFound | Found(article: Article)

  /** The article page: a spinner while the list loads, then the article
      with the id of the address, or "not found". */
  function Detail(loading: bool, articles: seq<Article>, id: string): (page: DetailPage)
    ensures loading <==> page.Loading?
    ensures page.Found? ==> page.article.id == id && page.article in articles
    ensures !loading ==> (page.NotFound? <==> forall i :: 0 <= i < |articles| ==> articles[i].id != id)
  {
    if loading then Loading
    else
      var found := Find(articles, id);
      if found.Some? then Found(found.value) else NotFound
  }

  /** There is something to open or download: an uploaded file or an external link. */
  predicate HasFile(a: Article) {
    Truthy(a.filePath) || Truthy(a.pdfUrl)
  }

  /** `getFileUrl`: the public address of the uploaded file when there is
      one, otherwise the external link as stored. */
  function FileUrl(a: Article, publicUrl: string -> string): (url: Option<string>)
    ensures Truthy(a.filePath) ==> url == Some(publicUrl(a.filePath.value))
    ensures !Truthy(a.filePath) ==> url == a.pdfUrl
  {
    if Truthy(a.filePath) then Some(publicUrl(a.filePath.value)) else a.pdfUrl
  }

  /** `handleOpenExternal`: the address opened in a new tab, if it is truthy. */
  function OpenExternal(a: Article, publicUrl: string -> string): (target: Option<string>)
    ensures target.Some? <==> Truthy(FileUrl(a, publicUrl))
    ensures target.Some? ==> target == FileUrl(a, publicUrl)
  {
    var url := FileUrl(a, publicUrl);
    if Truthy(url) then url else None
  }

  /** When storage gives every stored file a non-empty address, the open
      button opens something exactly when the article has a file. */
  lemma OpenExternalIffHasFile(a: Article, publicUrl: string -> string)
    requires forall p :: p != "" ==> publicUrl(p) != ""
    ensures OpenExternal(a, publicUrl).Some? <==> HasFile(a)
  {
  }

  // ---------------------------------------------------------------------
  // Download

  /** `file_type?.split('/')[1] || 'pdf'`: the part of the MIME type after
      the first slash and up to the next one, or "pdf" when there is none. */
  function Extension(fileType: Option<string>): (ext: string)
    ensures ext != "" && '/' !in ext
    ensures fileType.None? ==> ext == "pdf"
  {
    if fileType.None? then "pdf"
    else
      var pieces := Split(fileType.value, '/');
      if |pieces| > 1 && pieces[1] != "" then pieces[1] else "pdf"
  }

  /** A type without a slash gives "pdf"; `a/b` gives `b`. */
  lemma ExtensionOfType(a: string, b: string)
    requires '/' !in a && '/' !in b
    ensures Extension(Some(a)) == "pdf"
    ensures b != "" ==> Extension(Some(a + "/" + b)) == b
  {
    SplitWithoutSeparator(a, '/');
    SplitAtSeparator(a, '/', b);
    SplitWithoutSeparator(b, '/');
  }

  /** The name the downloaded file is saved under. */
  function DownloadName(a: Article): (name: string)
    ensures name == a.title + "." + Extension(a.fileType)
    ensures a.title <= name
  {
    a.title + "." + Extension(a.fileType)
  }

  /** What the download button does. */
  datatype Download = SaveFile(path: string, name: string, newCount: int) | OpenUrl(url: string) | NoAction

  /** `handleDownload`: an uploaded file is fetched from storage and saved,
      and only then is its download count raised by one; a failed fetch is
      only logged. Without an uploaded file the external link opens in a
      new tab. */
  function DownloadAction(a: Article, fetchFailed: bool): (d: Download)
    ensures d.SaveFile? <==> Truthy(a.filePath) && !fetchFailed
    ensures d.SaveFile? ==> d.path == a.filePath.value && d.name == DownloadName(a) &&
                            d.newCount == a.downloadCount + 1
    ensures d.OpenUrl? <==> !Truthy(a.filePath) && Truthy(a.pdfUrl)
    ensures d.OpenUrl? ==> d.url == a.pdfUrl.value
  {
    if Truthy(a.filePath) then
      if fetchFailed then NoAction else SaveFile(a.filePath.value, DownloadName(a), a.downloadCount + 1)
    else if Truthy(a.pdfUrl) then OpenUrl(a.pdfUrl.value)
    else NoAction
  }

  /** The download button does something exactly when the article has a
      file, and an external link it opens is the address `getFileUrl` gives. */
  lemma DownloadIffHasFile(a: Article, publicUrl: string -> string)
    ensures DownloadAction(a, false) != NoAction <==> HasFile(a)
    ensures DownloadAction(a, false).OpenUrl? ==> Some(DownloadAction(a, false).url) == FileUrl(a, publicUrl)
  {
  }

  /** A Word document is saved under its MIME subtype rather than a file
      extension: a DOC file gets "msword" (and a DOCX file, by
      `ExtensionOfType`, the long Office subtype). */
  lemma WordDownloadNames()
    ensures Extension(Some(DocumentTypes[0])) == "pdf"
    ensures Extension(Some(DocumentTypes[1])) == "msword"
  {
    assert DocumentTypes[0] == "application" + "/" + "pdf";
    assert DocumentTypes[1] == "application" + "/" + "msword";
    ExtensionOfType("application", "pdf");
    ExtensionOfType("application", "msword");
  }

  /** The extension with the accepted document types mapped to their usual
      file extensions; any other type is handled as before. */
  function ConventionalExtension(fileType: Option<string>): (ext: string)
    ensures fileType == Some(DocumentTypes[0]) ==> ext == "pdf"
    ensures fileType == Some(DocumentTypes[1]) ==> ext == "doc"
    ensures fileType == Some(DocumentTypes[2]) ==> ext == "docx"
    ensures fileType.None? || fileType.value !in DocumentTypes ==> ext == Extension(fileType)
    ensures fileType != Some(DocumentTypes[1]) && fileType != Some(DocumentTypes[2]) ==> ext == Extension(fileType)
    ensures ext != "" && '/' !in ext
  {
    WordDownloadNames();
    if fileType == Some(DocumentTypes[0]) then "pdf"
    else if fileType == Some(DocumentTypes[1]) then "doc"
    else if fileType == Some(DocumentTypes[2]) then "docx"
    else Extension(fileType)
  }

  // ---------------------------------------------------------------------
  // Preview and badges

  /** The article page loads a preview only for an uploaded file. */
  predicate DetailLoadsPreview(fileUrl: Option<string>, article: Option<Article>) {
    !Truthy(fileUrl) && article.Some? && Truthy(article.value.filePath)
  }

  /** The viewer dialog loads a preview for an uploaded file or an external link. */
  predicate ViewerLoadsPreview(fileUrl: Option<string>, a: Article) {
    !Truthy(fileUrl) && HasFile(a)
  }

  /** The two preview rules differ exactly on articles with only an
      external link: the viewer previews them, the article page does not. */
  lemma PreviewRules(fileUrl: Option<string>, a: Article)
    ensures DetailLoadsPreview(fileUrl, Some(a)) ==> ViewerLoadsPreview(fileUrl, a)
    ensures ViewerLoadsPreview(fileUrl, a) && !DetailLoadsPreview(fileUrl, Some(a)) <==>
              !Truthy(fileUrl) && !Truthy(a.filePath) && Truthy(a.pdfUrl)
  {
  }

  /** The PDF badge: the file type mentions "pdf" or the link mentions ".pdf". */
  predicate IsPdf(a: Article) {
    (a.fileType.Some? && Includes(a.fileType.value, "pdf")) ||
    (a.pdfUrl.Some? && Includes(a.pdfUrl.value, ".pdf"))
  }

  /** An uploaded PDF carries the badge. */
  lemma UploadedPdfIsPdf(a: Article)
    requires a.fileType == Some(DocumentTypes[0])
    ensures IsPdf(a)
  {
    var t := DocumentTypes[0];
    assert OccursAt(t, "pdf", 12);
    IncludesIffOccurs(t, "pdf");
  }

  // ---------------------------------------------------------------------
  // The author line

  /** How the author line is drawn: the group's name alone, members of the
      group (with the member mark removed), or other authors. */
  datatype AuthorLine = Collective(name: string) | Members(text: string) | External(text: string)

  /** The mark that flags a group member among the authors. */
  const MemberMark: string := " (GEPEFE)"

  /** `authors.map(a => a.replace(" (GEPEFE)", ""))`: the first mark of each
      name is removed, names without one are kept. */
  function StripMarks(authors: seq<string>): (names: seq<string>)
    ensures |names| == |authors|
    ensures forall i :: 0 <= i < |authors| && !Includes(authors[i], MemberMark) ==> names[i] == authors[i]
    ensures forall i, k :: 0 <= i < |authors| && FirstOccurrence(authors[i], MemberMark, k) ==>
              names[i] == authors[i][..k] + authors[i][k + |MemberMark|..]
    ensures forall i :: 0 <= i < |authors| && Includes(authors[i], MemberMark) ==>
              |names[i]| == |authors[i]| - |MemberMark|
  {
    seq(|authors|, i requires 0 <= i < |authors| => ReplaceFirst(authors[i], MemberMark, ""))
  }

  /** A marked name loses exactly its first mark: what is left is the text
      before the mark followed by the text after it. */
  lemma MarkedNameLosesFirstMark(name: string)
    requires Includes(name, MemberMark)
    ensures exists k :: FirstOccurrence(name, MemberMark, k) &&
              StripMarks([name])[0] == name[..k] + name[k + |MemberMark|..]
  {
    FirstOccurrenceExists(name, MemberMark);
  }

  /** The author line of the article page. */
  function AuthorDisplay(authors: seq<string>): (line: AuthorLine)
    ensures line.Collective? <==> IsCollective(authors)
    ensures line.Collective? ==> line.name == Gepefe
    ensures line.Members? <==> !IsCollective(authors) &&
                               exists i :: 0 <= i < |authors| && Includes(authors[i], MemberMark)
    ensures line.Members? ==> line.text == Join(StripMarks(authors), ", ")
    ensures line.External? ==> line.text == Join(authors, ", ")
  {
    if IsCollective(authors) then Collective(authors[0])
    else if exists i :: 0 <= i < |authors| && Includes(authors[i], MemberMark) then
      Members(Join(StripMarks(authors), ", "))
    else External(Join(authors, ", "))
  }

  /** Without any member mark the member line and the plain line are the
      same text. */
  lemma UnmarkedNamesUnchanged(authors: seq<string>)
    requires forall i :: 0 <= i < |authors| ==> !Includes(authors[i], MemberMark)
    ensures StripMarks(authors) == authors
  {
  }
}
