/**
 * The template catalogue component (`documentos.ts`): the guard on an
 * upload, the name a downloaded template is saved under, and whether the
 * preview modal shows a template inline or only a notice.
 *
 * The downloaded Blob is reduced to its MIME type and the object URL the
 * browser made for it; the HTTP calls are arguments holding their outcome.
 */
module Documents {
  import opened Common
  import opened Strings

  /** An uploaded template (`Documento`). */
  datatype Document = Document(fileId: string, name: string, description: string)

  // ---------------------------------------------------------------------
  // Download name
  // ---------------------------------------------------------------------

  const DefaultBaseName := "documento"

  /** `documentoSeleccionado?.nombre || 'documento'`: the selected name unless absent or empty. */
  function BaseName(selected: Option<Document>): (r: string)
    ensures r != ""
    ensures selected.Some? && selected.value.name != "" ==> r == selected.value.name
    ensures selected.None? || selected.value.name == "" ==> r == DefaultBaseName
  {
    if selected.Some? && selected.value.name != "" then selected.value.name else DefaultBaseName
  }

  /**
   * The extension picked from the Blob's MIME type: PDF first, then Word
   * (keeping `.doc` for a name that already ends so), `.docx` otherwise.
   */
  function Extension(mime: string, baseName: string): (r: string)
    ensures r == ".pdf" <==> Contains(mime, "pdf")
    ensures r == ".doc" <==> !Contains(mime, "pdf") && Contains(mime, "word") && EndsWith(baseName, ".doc")
    ensures r == ".pdf" || r == ".doc" || r == ".docx"
  {
    if Contains(mime, "pdf") then ".pdf"
    else if Contains(mime, "word") then (if EndsWith(baseName, ".doc") then ".doc" else ".docx")
    else ".docx"
  }

  /**
   * The name the file is saved under: the base name as it is when it holds
   * a dot, else the base name with the extension. It always holds a dot.
   */
  function DownloadName(selected: Option<Document>, mime: string): (r: string)
    ensures '.' in r
    ensures '.' in BaseName(selected) ==> r == BaseName(selected)
    ensures '.' !in BaseName(selected) ==> r == BaseName(selected) + Extension(mime, BaseName(selected))
  {
    var base := BaseName(selected);
    ContainsChar(base, '.');
    var ext := Extension(mime, base);
    assert ext[0] == '.';
    if Contains(base, ".") then base
    else
      assert (base + ext)[|base|] == '.';
      base + ext
  }

  /**
   * The `.doc` choice never reaches the saved name: a name ending in `.doc`
   * already holds a dot, so only `.pdf` or `.docx` is ever appended.
   */
  lemma {:induction false} DocExtensionNeverAppended(selected: Option<Document>, mime: string)
    ensures var base := BaseName(selected);
      DownloadName(selected, mime)
        == if '.' in base then base else base + (if Contains(mime, "pdf") then ".pdf" else ".docx")
  {
    var base := BaseName(selected);
    if EndsWith(base, ".doc") {
      assert base[|base| - 4] == ".doc"[0] == '.';
    }
  }

  /**
   * `descargar(fileId)`: the name the template is saved under, or nothing
   * when the id is absent or empty or the download fails (the failure has
   * no handler, so nothing is saved).
   */
  function Download(fileId: Option<string>, selected: Option<Document>, outcome: Remote<string>): (r: Option<string>)
    ensures r.Some? <==> fileId.Some? && fileId.value != "" && outcome.Ok?
    ensures r.Some? ==> r.value == DownloadName(selected, outcome.value) && '.' in r.value
  {
    if fileId.None? || fileId.value == "" then None
    else match outcome
      case Ok(mime) => Some(DownloadName(selected, mime))
      case Err(_, _) => None
  }

  // ---------------------------------------------------------------------
  // Preview
  // ---------------------------------------------------------------------

  /** What the preview modal does with a loaded template. */
  datatype Preview = Inline | WordNotice

  /** The type or the lower-cased name says PDF. */
  predicate LooksPdf(mime: string, lowerName: string) {
    Contains(mime, "pdf") || EndsWith(lowerName, ".pdf")
  }

  /** The lower-cased name or the type says Word document. */
  predicate LooksWord(mime: string, lowerName: string) {
    || EndsWith(lowerName, ".doc") || EndsWith(lowerName, ".docx")
    || Contains(mime, "word") || Contains(mime, "document")
  }

  /**
   * The decision in `abrirModal`: PDF is shown; else anything Word-like
   * gets the notice; anything else is shown.
   */
  function Classify(mime: string, name: string): (r: Preview)
    ensures r == WordNotice <==> !LooksPdf(mime, ToLower(name)) && LooksWord(mime, ToLower(name))
  {
    var lower := ToLower(name);
    if LooksPdf(mime, lower) then Inline
    else if LooksWord(mime, lower) then WordNotice
    else Inline
  }

  lemma LowerCharIdempotent(c: char)
    ensures LowerChar(LowerChar(c)) == LowerChar(c)
  {
  }

  /** Lower-casing twice is lower-casing once. */
  lemma ToLowerIdempotent(s: string)
    ensures ToLower(ToLower(s)) == ToLower(s)
  {
    forall i | 0 <= i < |s|
      ensures ToLower(ToLower(s))[i] == ToLower(s)[i]
    {
      LowerCharIdempotent(s[i]);
    }
  }

  /** The decision does not depend on the letter case of the name. */
  lemma ClassifyIgnoresCase(mime: string, name: string)
    ensures Classify(mime, name) == Classify(mime, ToLower(name))
  {
    ToLowerIdempotent(name);
  }

  /** A name ending in `.pdf`, in any letter case, is always shown, whatever the type says. */
  lemma PdfNameShown(mime: string, name: string)
    requires EndsWith(ToLower(name), ".pdf")
    ensures Classify(mime, name) == Inline
  {
  }

  /** A name ending in `.docx`, in any letter case, gets the notice unless the type says PDF. */
  lemma {:induction false} DocxNameSuppressed(mime: string, name: string)
    requires EndsWith(ToLower(name), ".docx")
    requires !Contains(mime, "pdf")
    ensures Classify(mime, name) == WordNotice
  {
    var lower := ToLower(name);
    assert lower[|lower| - 1] == lower[|lower| - 5..][4] == 'x';
    assert lower[|lower| - 4..][3] == lower[|lower| - 1];
    assert !EndsWith(lower, ".pdf");
  }

  // ---------------------------------------------------------------------
  // The preview modal
  // ---------------------------------------------------------------------

  /**
   * The modal's fields: open or not, the selected template, the trusted
   * URL shown inline (null when none), the object URL and the error line.
   */
  datatype Viewer = Viewer(open: bool, selected: Option<Document>, previewUrl: Option<string>, blobUrl: string, error: string)

  /** The fields after `cerrarModal`. */
  const ClosedViewer := Viewer(false, None, None, "", "")

  const WordPreviewMessage := "La vista previa de archivos Word no est\U{00E1} disponible en el navegador. Por favor, descarga el archivo para verlo."
  const LoadErrorMessage := "Error al cargar el documento"

  /** A downloaded template: its MIME type and the object URL made for it. */
  datatype Blob = Blob(mime: string, url: string)

  /**
   * `abrirModal(documento)` with the outcome of the download: the modal
   * opens on the template; a loaded template is shown inline or replaced
   * by the Word notice; a failed download only sets the error line.
   */
  function OpenViewer(v: Viewer, doc: Document, outcome: Remote<Blob>): (r: Viewer)
    ensures r.open && r.selected == Some(doc)
    ensures outcome.Err? ==> r == v.(open := true, selected := Some(doc), error := LoadErrorMessage)
    ensures outcome.Ok? ==> r.blobUrl == outcome.value.url
    ensures outcome.Ok? && Classify(outcome.value.mime, doc.name) == Inline ==>
      r.previewUrl == Some(outcome.value.url) && r.error == ""
    ensures outcome.Ok? && Classify(outcome.value.mime, doc.name) == WordNotice ==>
      r.previewUrl == None && r.error == WordPreviewMessage
  {
    var base := v.(open := true, selected := Some(doc), error := "");
    match outcome
    case Err(_, _) => base.(error := LoadErrorMessage)
    case Ok(blob) =>
      match Classify(blob.mime, doc.name)
      case Inline => base.(blobUrl := blob.url, previewUrl := Some(blob.url))
      case WordNotice => base.(blobUrl := blob.url, previewUrl := None, error := WordPreviewMessage)
  }

  /** Closing the modal: the fields to reset and the object URL released, if any. */
  datatype Closing = Closing(viewer: Viewer, revoked: Option<string>)

  /** `cerrarModal`: resets every field and releases the object URL when there is one. */
  function CloseViewer(v: Viewer): (r: Closing)
    ensures !r.viewer.open && r.viewer.selected.None? && r.viewer.previewUrl.None?
    ensures r.viewer.blobUrl == "" && r.viewer.error == ""
    ensures r.revoked.Some? <==> v.blobUrl != ""
    ensures r.revoked.Some? ==> r.revoked.value == v.blobUrl
  {
    Closing(ClosedViewer, if v.blobUrl != "" then Some(v.blobUrl) else None)
  }

  /** The object URL a successful preview makes is the one closing releases. */
  lemma CloseReleasesPreviewUrl(v: Viewer, doc: Document, blob: Blob)
    requires blob.url != ""
    ensures CloseViewer(OpenViewer(v, doc, Ok(blob))).revoked == Some(blob.url)
  {
  }

  // ---------------------------------------------------------------------
  // Upload
  // ---------------------------------------------------------------------

  /** A file chosen in the browser; only its presence matters here. */
  datatype LocalFile = LocalFile(fileName: string)

  /** The upload form: chosen file, name and description. */
  datatype UploadForm = UploadForm(file: Option<LocalFile>, name: string, description: string)

  /** What `subirDocumento` is called with. */
  datatype UploadRequest = UploadRequest(file: LocalFile, name: string, description: string)

  /**
   * The guard in `onUpload`: a file, a name and a description, the last two
   * merely non-empty (they are not trimmed).
   */
  function UploadRequestOf(f: UploadForm): (r: Option<UploadRequest>)
    ensures r.Some? <==> f.file.Some? && f.name != "" && f.description != ""
    ensures r.Some? ==> r.value == UploadRequest(f.file.value, f.name, f.description)
  {
    if f.file.Some? && f.name != "" && f.description != "" then
      Some(UploadRequest(f.file.value, f.name, f.description))
    else
      None
  }

  /**
   * `onUpload` with the outcome of the upload: a successful upload clears
   * the form; a refused or failed one leaves it as it was.
   */
  function Upload(f: UploadForm, outcome: Remote<string>): (r: UploadForm)
    ensures UploadRequestOf(f).None? || outcome.Err? ==> r == f
    ensures UploadRequestOf(f).Some? && outcome.Ok? ==> r == UploadForm(None, "", "")
    ensures r.file.Some? ==> r == f
  {
    if UploadRequestOf(f).Some? && outcome.Ok? then UploadForm(None, "", "") else f
  }

  /** Unlike the other forms, the upload accepts a name made only of spaces. */
  lemma UploadDoesNotTrim(file: LocalFile)
    ensures UploadRequestOf(UploadForm(Some(file), " ", " ")).Some?
    ensures IsBlank(" ")
  {
    assert AllSpace(" ");
  }
}
