/** components/FileUploadView.tsx: choosing a file, dispatching it to the
    DOCX or PDF text extractor by MIME type, and building the initial
    `DocumentData`. */
module FileUploadView {
  import opened Types

  const DocxMimeType: string := "application/vnd.openxmlformats-officedocument.wordprocessingml.document"
  const PdfMimeType: string := "application/pdf"
  const UnsupportedFormatMessage: string :=
    "Formato de archivo no soportado. Por favor, sube un archivo Word (.docx) o PDF."
  const GenericErrorMessage: string := "Ocurrió un error al procesar el archivo."
  /** The text the editor shows until a first suggestion is approved (one
      literal in the component, written here in the same three pieces as
      `EditorView.Placeholder`, which joins to the same string). */
  const ImprovedTextPlaceholder: string :=
    "Tu documento reescrito aparecerá aquí. "
    + "Responde a las preguntas del asistente " + "para empezar."

  /** A chosen file as the browser describes it. Its bytes reach the text only
      through the two extractors, which the model takes as parameters. */
  datatype FileInfo = FileInfo(name: string, mimeType: string, bytes: seq<bv8>)

  /** The two text extractors of services/fileService.ts. */
  datatype Parser = DocxParser | PdfParser

  /** The extractor the if/else-if chain picks; `None` is the branch that
      throws the unsupported-format error. */
  function ParserFor(mimeType: string): Option<Parser>
  {
    if mimeType == DocxMimeType then Some(DocxParser)
    else if mimeType == PdfMimeType then Some(PdfParser)
    else None
  }

  /** Each MIME type goes to exactly one place: the DOCX type to the DOCX
      extractor, the PDF type to the PDF extractor, anything else to the error. */
  lemma DispatchIsExact(mimeType: string)
    ensures ParserFor(mimeType) == Some(DocxParser) <==> mimeType == DocxMimeType
    ensures ParserFor(mimeType) == Some(PdfParser) <==> mimeType == PdfMimeType
    ensures ParserFor(mimeType) == None <==> mimeType != DocxMimeType && mimeType != PdfMimeType
  {
  }

  /** The text of the `try` block: what the chosen extractor returns or throws,
      or the unsupported-format error. */
  function ExtractText(file: FileInfo, parseDocx: FileInfo -> Result<string>,
                       parsePdf: FileInfo -> Result<string>): Result<string>
  {
    match ParserFor(file.mimeType)
    case Some(DocxParser) => parseDocx(file)
    case Some(PdfParser) => parsePdf(file)
    case None => Err(UnsupportedFormatMessage)
  }

  /** `(e as Error).message || GenericErrorMessage`: the message reported for a
      caught error is never empty, and is the error's own whenever it has one. */
  function ReportedMessage(message: string): (r: string)
    ensures r != ""
    ensures message != "" ==> r == message
    ensures message == "" ==> r == GenericErrorMessage
  {
    if message != "" then message else GenericErrorMessage
  }

  /** The `DocumentData` handed to `onFileProcessed`. */
  function NewDocument(fileName: string, text: string): DocumentData
  {
    DocumentData(fileName, text, None, ImprovedTextPlaceholder)
  }

  /** A call the component makes to its parent. */
  datatype Event = ProcessingError(message: string) | FileProcessed(data: DocumentData)

  class UploadForm {
    var isProcessing: bool
    var fileName: Option<string>

    constructor ()
      ensures !isProcessing && fileName == None
    {
      isProcessing := false;
      fileName := None;
    }

    /** `handleFileChange`: `files` is the input's file list (empty when
        nothing was chosen); the calls made to the parent are returned in
        order. Only the first file is read. The old error is first cleared by
        reporting `''`; then either the new document or the error follows. */
    method HandleFileChange(files: seq<FileInfo>, parseDocx: FileInfo -> Result<string>,
                            parsePdf: FileInfo -> Result<string>) returns (events: seq<Event>)
      modifies this
      ensures files == [] ==> events == [] && isProcessing == old(isProcessing) && fileName == old(fileName)
      ensures files != [] ==> |events| == 2 && events[0] == ProcessingError("")
      ensures files != [] && ExtractText(files[0], parseDocx, parsePdf).Ok? ==>
        events[1] == FileProcessed(NewDocument(files[0].name, ExtractText(files[0], parseDocx, parsePdf).value))
        && isProcessing && fileName == Some(files[0].name)
      ensures files != [] && ExtractText(files[0], parseDocx, parsePdf).Err? ==>
        events[1] == ProcessingError(ReportedMessage(ExtractText(files[0], parseDocx, parsePdf).message))
        && !isProcessing && fileName == None
    {
      if files == [] {
        return [];
      }
      var file := files[0];
      isProcessing := true;
      fileName := Some(file.name);
      events := [ProcessingError("")];
      var text: Result<string>;
      if file.mimeType == DocxMimeType {
        text := parseDocx(file);
      } else if file.mimeType == PdfMimeType {
        text := parsePdf(file);
      } else {
        text := Err(UnsupportedFormatMessage);
      }
      match text {
        case Ok(t) =>
          events := events + [FileProcessed(NewDocument(file.name, t))];
        case Err(m) =>
          events := events + [ProcessingError(ReportedMessage(m))];
          isProcessing := false;
          fileName := None;
      }
    }
  }

  /** A file of any other type always ends in the unsupported-format error,
      whatever the extractors would have returned, and yields no document. */
  lemma UnsupportedTypeFails(file: FileInfo, parseDocx: FileInfo -> Result<string>,
                             parsePdf: FileInfo -> Result<string>)
    requires file.mimeType != DocxMimeType && file.mimeType != PdfMimeType
    ensures ExtractText(file, parseDocx, parsePdf) == Err(UnsupportedFormatMessage)
    ensures ReportedMessage(ExtractText(file, parseDocx, parsePdf).message) == UnsupportedFormatMessage
  {
  }
}
