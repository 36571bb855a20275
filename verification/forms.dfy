/** What the article and news forms share: the chosen file's metadata, the
    upload validators run when a file is picked, and the shape of a save
    (the row written and how the submission ends). */
module Forms {
  import opened Js

  /** The browser's `File`: name, MIME type and size in bytes. */
  datatype FileInfo = FileInfo(name: string, mimeType: string, size: int)

  /** The verdict of a validator; the type is checked before the size. */
  datatype Check = Accepted | WrongType | TooLarge

  const MiB: int := 1024 * 1024

  /** Articles accept documents up to 10 MiB. */
  const DocumentLimit: int := 10 * MiB

  /** News accepts images up to 5 MiB. */
  const ImageLimit: int := 5 * MiB

  /** PDF, DOC and DOCX. */
  const DocumentTypes: seq<string> := [
    "application/pdf",
    "application/msword",
    "application/vnd.openxmlformats-officedocument.wordprocessingml.document"
  ]

  /** The article form's validator: one of the three document types exactly,
      and at most 10 MiB. */
  function CheckDocument(f: FileInfo): (c: Check)
    ensures c == Accepted <==> f.mimeType in DocumentTypes && f.size <= 10 * 1024 * 1024
    ensures c == WrongType <==> f.mimeType !in DocumentTypes
    ensures c == TooLarge <==> f.mimeType in DocumentTypes && f.size > 10 * 1024 * 1024
  {
    if f.mimeType !in DocumentTypes then WrongType
    else if f.size > DocumentLimit then TooLarge
    else Accepted
  }

  /** The news form's validator: any `image/` type, at most 5 MiB. */
  function CheckImage(f: FileInfo): (c: Check)
    ensures c == Accepted <==> StartsWith(f.mimeType, "image/") && f.size <= 5 * 1024 * 1024
    ensures c == WrongType <==> !StartsWith(f.mimeType, "image/")
    ensures c == TooLarge <==> StartsWith(f.mimeType, "image/") && f.size > 5 * 1024 * 1024
  {
    if !StartsWith(f.mimeType, "image/") then WrongType
    else if f.size > ImageLimit then TooLarge
    else Accepted
  }

  /** The file held by a form after a pick, and the rejection shown, if any. */
  datatype Selection = Selection(file: Option<FileInfo>, rejected: Option<Check>)

  /** `handleFileSelect` of the article form: an accepted file replaces the
      selection; no file, or a rejected one, leaves it as it was. */
  function SelectDocument(current: Option<FileInfo>, picked: Option<FileInfo>): (s: Selection)
    ensures picked.None? ==> s == Selection(current, None)
    ensures picked.Some? ==>
              (s.file == picked <==> CheckDocument(picked.value) == Accepted || current == picked)
    ensures s.file != picked ==> s.file == current
    ensures s.rejected.Some? <==> picked.Some? && CheckDocument(picked.value) != Accepted
  {
    match picked
    case None => Selection(current, None)
    case Some(f) =>
      var c := CheckDocument(f);
      if c == Accepted then Selection(picked, None) else Selection(current, Some(c))
  }

  /** `handleFileSelect` of the news form, with the image validator. */
  function SelectImage(current: Option<FileInfo>, picked: Option<FileInfo>): (s: Selection)
    ensures picked.None? ==> s == Selection(current, None)
    ensures picked.Some? ==>
              (s.file == picked <==> CheckImage(picked.value) == Accepted || current == picked)
    ensures s.file != picked ==> s.file == current
    ensures s.rejected.Some? <==> picked.Some? && CheckImage(picked.value) != Accepted
  {
    match picked
    case None => Selection(current, None)
    case Some(f) =>
      var c := CheckImage(f);
      if c == Accepted then Selection(picked, None) else Selection(current, Some(c))
  }

  /** The row a save sends to the `articles` table. */
  datatype Write<R> = Insert(record: R, createdBy: Option<string>) | Update(id: string, record: R)

  /** How a submission ends: saved (the success callback runs), failed with
      the message the error toast shows, or abandoned after a failed upload. */
  datatype Outcome = Saved | Failed(message: string) | Aborted
}
