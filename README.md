# chatbot-escritor, modelled in Dafny

This project models the logic of *chatbot-escritor*, a browser app that helps
someone turn an uploaded document into an academic article. It covers these
parts of the app:

- The phase machine of the app: uploading, then structuring (an outline is proposed), then editing. A reset is possible from any phase.
- The upload form. It picks a text extractor by MIME type and builds the initial document.
- The outline view. It classifies each trimmed line into a heading, a list item, a paragraph or nothing. Its approve button forwards the outline.
- The chat:
  - an append-only message log and the opening question;
  - the submit gate;
  - approving a suggestion, which clears its button and asks the pending question;
  - the editor's updater, which folds approved suggestions into the rewritten text.
- The catalog of the eleven article sections and the empty article.
- The HTML the editor panel assembles for export.
- The file helpers:
  - output names;
  - the DOCX paragraph split;
  - the page loop of the PDF text extractor.
- The fallback policy of the four language-model helpers.

JavaScript semantics are written out where they matter:

- Truthiness: `''` is falsy, like a missing value (`Types.Truthy`).
- `String.prototype.trim`, over the ECMAScript white-space and line-terminator set (`Strings.Trim`).
- `split` on a one-character separator (`Strings.Split`) and `join` (`Strings.Join`).
- The regular expression `/\.[^/.]+$/` (`FileService.IsExtensionAt`).

Every model call, extractor call and asynchronous result is a parameter:

- a `Result<string>` value;
- or a total function: `FileInfo -> Result<string>` for the extractors, `string -> Improvement` for `improveUserResponse`.

React state cells become fields of a class. Each handler is a method that
`modifies` the class, and each asynchronous effect is a method called once
its awaited value is known.

An unsupported file type does not yield the empty text that `text`
starts as (components/FileUploadView.tsx:25). The code throws the "Formato
de archivo no soportado…" error instead (components/FileUploadView.tsx:30-31).
The model follows the code, and `UnsupportedTypeFails` states that behaviour.

Files:

- `types.dfy`: the records of types.ts.
- `strings.dfy`: JavaScript string operations.
- `catalog.dfy`: constants.ts.
- `app.dfy`, `file_upload_view.dfy`, `structure_view.dfy`, `chatbot.dfy`, `editor_view.dfy` and `editor_panel.dfy`: the components.
- `file_service.dfy` and `gemini_service.dfy`: the services.

## Model

| member | source | states |
|---|---|---|
| App.App.constructor | App.tsx:10-12 | The app starts in the uploading phase, with no document and no error. |
| App.App.HandleFileProcessed | App.tsx:14-18 | Stores exactly the given document, moves to structuring and clears the error. |
| App.App.HandleStructureApproved | App.tsx:20-23 | Sets only `proposedStructure`; the other fields and the error are kept, and a missing document stays missing. The phase becomes editing. |
| App.App.HandleProcessingError | App.tsx:25-27 | Sets the error, and only the error may change. |
| App.App.HandleReset | App.tsx:29-33 | From any state it yields uploading, no document and no error. |
| App.App.RenderContent | App.tsx:35-62 | A consistent state is left unchanged and gets the screen of its phase. An inconsistent one is reset and renders nothing: structuring without a document, or editing without a document or with a falsy outline. Afterwards the state is always consistent. |
| App.App.ApplyEditorUpdate | App.tsx:49 | The editor's `setDocument`, applied with the approval updater: the document becomes exactly the updater's result, nothing else changes, and a consistent phase stays consistent. |
| App.EditorGuardNeverFires | App.tsx:47-49 | A document the app hands to the editor always passes the editor's own outline guard. |
| App.UploadThenApprove | App.tsx:14-53 | After upload the outline screen shows the document. After approval the editor shows it with the outline, or nothing if the outline is `''`. |
| EditorView.ApproveSuggestion | components/EditorView.tsx:18-28 | The updater itself: no document stays none, the placeholder is replaced, other text gets a blank line and the suggestion. Its properties are the lemmas below. |
| EditorView.ApproveChangesOnlyText | components/EditorView.tsx:18-28 | Approval creates and deletes no document. It keeps the file name, the original text and the outline. |
| EditorView.ApproveReplacesPlaceholder | components/EditorView.tsx:22-24 | On the placeholder, the rewritten text becomes exactly the suggestion. |
| EditorView.ApproveAppends | components/EditorView.tsx:23-25 | On other text, the old text is a prefix followed by `"\n\n"` and the suggestion, and the length grows by the suggestion's length plus 2. |
| EditorView.PlaceholderHasNoNewline | components/EditorView.tsx:22 | The placeholder holds no line break. |
| EditorView.ApproveTwiceAppendsTwice | components/EditorView.tsx:23-25 | There is no deduplication: approving the same suggestion twice appends it twice. |
| EditorView.ApproveAllAppends | components/EditorView.tsx:18-28 | Starting from non-placeholder text, any run of approvals gives the old text and the suggestions joined by blank lines. |
| EditorView.ApproveAllFromPlaceholder | components/EditorView.tsx:18-28 | Starting from the placeholder, approvals give the suggestions joined by blank lines, provided the first one is not the placeholder text itself. |
| EditorView.UploadPlaceholderMatches | components/FileUploadView.tsx:37 | The placeholder set at upload is, character for character, the one the updater tests. A first approval on a fresh document therefore replaces it. |
| EditorView.Render | components/EditorView.tsx:31-35 | A reset is requested exactly when the outline is absent or `''`; otherwise the editor shows the document unchanged. |
| Chatbot.Chatbot.constructor | components/Chatbot.tsx:16-19 | The log is empty, the input is empty, loading is set, and no question is pending. |
| Chatbot.Chatbot.AddMessage | components/Chatbot.tsx:28-30 | Appends exactly one message at the end of the log. |
| Chatbot.Chatbot.FetchInitialQuestion | components/Chatbot.tsx:33-39 | Appends the start notice. If the request resolves, the opening question follows and loading ends. If it rejects, only the notice is added and loading stays as it was, so submit stays blocked. |
| Chatbot.Chatbot.SetUserInput | components/Chatbot.tsx:102 | The input becomes exactly the typed text, and nothing else changes. |
| Chatbot.Chatbot.HandleSubmit | components/Chatbot.tsx:45-58 | Nothing happens exactly when the input is blank after trimming or loading is set. Otherwise it appends the user's message and the bot's reply carrying the suggestion, clears the input, ends loading and keeps the follow-up question. |
| Chatbot.Chatbot.HandleApprove | components/Chatbot.tsx:60-70 | Forwards the text once and appends the approval notice. It then clears that suggestion from every message, keeping every other field. If the pending question is truthy, it is asked and forgotten. The log only grows, and the text is no longer offered. |
| Chatbot.ClearIfApproved | components/Chatbot.tsx:64 | One message of the `map`: its suggestion is dropped exactly when it is the approved text. Its properties are stated by `Chatbot.ClearSuggestionSpec`. |
| Chatbot.ClearSuggestion | components/Chatbot.tsx:64 | The `map` over the whole log. Its properties are the lemmas below. |
| Chatbot.ClearSuggestionSpec | components/Chatbot.tsx:64 | Clearing keeps the length, senders and texts. It removes the approved suggestion from every message and leaves every other message as it was. |
| Chatbot.ApprovalWithdrawsOffer | components/Chatbot.tsx:64 | After clearing, the offered suggestions are exactly those offered before, minus the approved one. |
| Chatbot.ClearSuggestionIdempotent | components/Chatbot.tsx:64 | Clearing twice is the same as clearing once. |
| Chatbot.ClearSuggestionAppend | components/Chatbot.tsx:62-64 | Clearing distributes over appending. The notice appended before the clear is therefore unaffected by it. |
| Chatbot.LogExtendsTransitive | components/Chatbot.tsx:28-30 | The only-grows relation between logs is transitive. |
| Chatbot.SubmitBeforeFirstQuestion | components/Chatbot.tsx:18-47 | While the opening question is pending, or after its request rejected, the log holds only the start notice and submit is blocked whatever was typed. |
| Chatbot.FirstExchange | components/Chatbot.tsx:33-70 | Covers the opening question, one answer and its approval: the whole log in order, and the approved suggestion no longer offered. Approving again only adds a notice. |
| FileUploadView.ParserFor | components/FileUploadView.tsx:26-32 | The MIME-type test that picks the extractor. Its exactness is `FileUploadView.DispatchIsExact`. |
| FileUploadView.ExtractText | components/FileUploadView.tsx:24-32 | The `try` block's text: the chosen extractor's outcome, or the unsupported-format error. See `FileUploadView.UnsupportedTypeFails`. |
| FileUploadView.NewDocument | components/FileUploadView.tsx:34-38 | The document handed to the parent: file name, extracted text, no outline, the placeholder. `FileUploadView.UploadForm.HandleFileChange` states what is emitted. |
| FileUploadView.DispatchIsExact | components/FileUploadView.tsx:26-32 | The DOCX MIME type goes exactly to the DOCX extractor, the PDF type exactly to the PDF extractor, and every other type to the error. |
| FileUploadView.ReportedMessage | components/FileUploadView.tsx:42 | The reported message is never empty. It is the error's own whenever it has one, and the fixed generic message when it does not. |
| FileUploadView.UnsupportedTypeFails | components/FileUploadView.tsx:30-31 | Any other type fails with the unsupported-format message, whatever the extractors would return. |
| FileUploadView.UploadForm.constructor | components/FileUploadView.tsx:13-14 | The form starts not processing and with no file name. |
| FileUploadView.UploadForm.HandleFileChange | components/FileUploadView.tsx:16-45 | With no file, nothing happens, and only the first file is read. The old error is cleared with `''`. Success emits the new document: the file's name, the extracted text, no outline and the placeholder. Failure reports the message, clears `isProcessing` and resets the file name. |
| StructureView.ClassifyLine | components/StructureView.tsx:41-54 | One line of the `map`. Its meaning is stated by `StructureView.ClassifyLineSpec`. |
| StructureView.RenderStructure | components/StructureView.tsx:39-55 | The whole outline rendering. Its meaning is stated by `StructureView.RenderStructureLines`. |
| StructureView.HeadingMarkersDisjoint | components/StructureView.tsx:42-47 | No line starts with both `# ` and `## `. |
| StructureView.ClassifyLineSpec | components/StructureView.tsx:41-54 | The element is fixed by the trimmed line's marker, and its text is the trimmed line without the marker. A paragraph is the whole non-empty line with no marker; an empty line gives nothing. |
| StructureView.ClassifyIgnoresPadding | components/StructureView.tsx:41 | Surrounding whitespace never changes a line's element. |
| StructureView.ClassifyLines | components/StructureView.tsx:40 | Gives one entry per line, in order. |
| StructureView.RenderStructureLines | components/StructureView.tsx:39-55 | There is one entry per `'\n'`-separated line, one more than there are line breaks, and entry i is the element of line i. |
| StructureView.RenderJoinedLines | components/StructureView.tsx:39-55 | Lines joined with `'\n'` render as their elements in the same order. |
| StructureView.Outline.constructor | components/StructureView.tsx:14-15 | No outline yet, and loading is set. |
| StructureView.Outline.GetStructure | components/StructureView.tsx:17-31 | A result is stored. A failure reports the fixed message and keeps the old outline. Loading ends either way. |
| StructureView.Outline.HandleApprove | components/StructureView.tsx:33-37 | Forwards exactly the stored outline, and does so exactly when it is truthy. |
| Catalog.CatalogShape | constants.ts:4-60 | There are eleven entries; the last is the references section and no earlier one is. |
| Catalog.CatalogKeysDistinct | constants.ts:4-60 | The keys are pairwise distinct and every key occurs. |
| Catalog.TitlesNumbered | constants.ts:8-58 | Entry i, counting from 1, has a title starting with `"i. "`. |
| Catalog.Decimal | constants.ts:8-58 | The numeral is non-empty and made of digits. |
| Catalog.DecimalDenotes | constants.ts:8-58 | The numeral has no leading zero, and its digits, read in base ten, denote the number. So `TitlesNumbered` speaks of the right numbers. |
| Catalog.InitialArticleEmpty | constants.ts:62-74 | The empty article has exactly the catalog's keys, each mapped to `''`. |
| EditorPanel.ExportHtml | components/EditorPanel.tsx:33-54 | The reference page: head, section blocks in catalog order, tail. `EditorPanel.BuildExportHtml` proves the loops build it. |
| EditorPanel.SectionHtml | components/EditorPanel.tsx:44-51 | One section's block: nothing for `''`, otherwise the heading and one paragraph per non-blank line. Its cases are the lemmas below. |
| EditorPanel.NonBlankLines | components/EditorPanel.tsx:47 | The `filter`. Its meaning is stated by the `NonBlankLines…` lemmas. |
| EditorPanel.BuildExportHtml | components/EditorPanel.tsx:33-54 | The growing string is exactly the export page: head, section blocks in catalog order, tail. |
| EditorPanel.BuildPage | components/EditorPanel.tsx:33-54 | The head, the outer loop, the tail: the result is exactly the head, the blocks of the given entries in order, and the tail. |
| EditorPanel.AppendSection | components/EditorPanel.tsx:44-51 | One section appends exactly its block to what was built so far. |
| EditorPanel.SectionsHtmlAppend | components/EditorPanel.tsx:43 | Blocks appear in catalog order: the blocks of two lists back to back are the blocks of each, in turn. |
| EditorPanel.SectionsHtmlFirst | components/EditorPanel.tsx:43 | The blocks of a list of entries are the first entry's block followed by the blocks of the rest. |
| EditorPanel.ExportStartsWithFirstSection | components/EditorPanel.tsx:33-54 | The page is the head, the first section's block, the rest, then `</body></html>`. |
| EditorPanel.EmptySectionOmitted | components/EditorPanel.tsx:44 | A section with text `''` contributes nothing. |
| EditorPanel.EmptySectionsOmitted | components/EditorPanel.tsx:43-44 | A list of empty sections contributes nothing. |
| EditorPanel.BlankSectionOnlyHeading | components/EditorPanel.tsx:44-47 | A whitespace-only section still emits its `<h1>` heading, but no paragraph. |
| EditorPanel.SingleLineSection | components/EditorPanel.tsx:45-49 | A one-line section is its `<h1>` heading and one `<p>` holding the line verbatim, with no escaping. |
| EditorPanel.OneLineParagraph | components/EditorPanel.tsx:47 | A non-blank text without line breaks is one paragraph. |
| EditorPanel.NonBlankLinesSound | components/EditorPanel.tsx:47 | Every paragraph is one of the lines and is not blank. |
| EditorPanel.NonBlankLinesComplete | components/EditorPanel.tsx:47 | Every non-blank line is a paragraph. |
| EditorPanel.NonBlankLinesAllKept | components/EditorPanel.tsx:47 | With no blank lines, every line is a paragraph, in order. |
| EditorPanel.NonBlankLinesNoneKept | components/EditorPanel.tsx:47 | With only blank lines, there is no paragraph. |
| EditorPanel.ExportInitialArticle | components/EditorPanel.tsx:33-54 | Exporting the empty article gives just the head and the tail. |
| FileService.FindExtension | services/fileService.ts:42 | The backward scan finds a match of `/\.[^/.]+$/` exactly when there is one. |
| FileService.StripExtension | services/fileService.ts:42-52 | A name with a match loses the match; a name without one is unchanged. |
| FileService.ExtensionUnique | services/fileService.ts:42 | The pattern matches in at most one place. |
| FileService.StripExtensionRemovesSuffix | services/fileService.ts:42 | The stem is a prefix of the name. What is removed is nothing, or a dot and a non-empty tail with neither `/` nor `.`. |
| FileService.StripsOnlyLastExtension | services/fileService.ts:42 | `a.tar.gz` gives the stem `a.tar`. |
| FileService.NoExtensionKept | services/fileService.ts:42 | `a.` and `x.y/z` are kept whole. |
| FileService.DotFileStemEmpty | services/fileService.ts:42 | `.bashrc` gives the empty stem. |
| FileService.DocxFileName | services/fileService.ts:42 | The DOCX output name. See `FileService.OutputNames`. |
| FileService.PdfFileName | services/fileService.ts:52 | The PDF output name. See `FileService.OutputNames`. |
| FileService.OutputNames | services/fileService.ts:42-52 | Both output names are the stem followed by `_mejorado.docx` or `_mejorado.pdf`. A name without an extension is kept whole in front of the suffix. |
| FileService.ExportNameExample | services/fileService.ts:42 | `report.pdf` is saved as `report_mejorado.docx`. |
| FileService.DocxParagraphs | services/fileService.ts:33 | There is one paragraph per `'\n'`-separated line, one more than there are line breaks, with no line break inside any paragraph. Joining the paragraphs with `'\n'` gives back the text. |
| FileService.EmptyLinesKept | services/fileService.ts:33 | An empty line becomes a paragraph of its own. |
| FileService.ParagraphsOfJoinedLines | services/fileService.ts:33 | Lines joined with `'\n'` come back as the same paragraphs. |
| FileService.PdfText | services/fileService.ts:21-27 | The reference text of a list of pages. `FileService.ParsePdf` proves the loop builds it. |
| FileService.PdfTextSnoc | services/fileService.ts:25 | Adding a page appends its text. |
| FileService.ParsePdf | services/fileService.ts:17-28 | The accumulated text is the concatenation, over pages 1..n in order, of each page's items joined by spaces plus `'\n'`. |
| FileService.PdfTextLines | services/fileService.ts:21-27 | When no item holds a line break, splitting the text on `'\n'` gives each page's line in page order, plus the empty piece after the last break. |
| FileService.PdfTextBreaks | services/fileService.ts:21-27 | In that case the text holds exactly one line break per page. |
| GeminiService.ExtractSection | services/geminiService.ts:30-33 | Success returns the reply text unchanged; failure returns the fixed message naming the section. |
| GeminiService.PolishSection | services/geminiService.ts:69-74 | Success returns the reply text unchanged; failure returns the error line, a blank line and the user's text. |
| GeminiService.ImprovementSuggestions | services/geminiService.ts:78-120 | A blank original gives the fixed no-original message. Otherwise, success returns the reply text and failure the fixed suggestions message. |
| GeminiService.ReferencesSection | services/geminiService.ts:149-152 | Success returns the reply text unchanged; failure returns the fixed references message. |
| GeminiService.ExtractionFallbackNamesSection | services/geminiService.ts:33 | The extraction fallback starts with the fixed prefix and ends with `".`; the section title can be read back from between them. |
| GeminiService.ExtractionFallbackInjective | services/geminiService.ts:33 | Different sections give different fallback texts. |
| GeminiService.PolishFallbackKeepsUserText | services/geminiService.ts:70-74 | The polish fallback starts with the error line and a blank line, ends with the user's text verbatim, and has exactly that length. |
| GeminiService.BlankOriginalSkipsOracle | services/geminiService.ts:79-81 | For a blank original the answer does not depend on the reply or on the polished text, so no call is needed. |
| GeminiService.SuggestionsGuardExact | services/geminiService.ts:79 | The guard is exactly all-whitespace: such an original is skipped, and any other goes to the model. |
| GeminiService.FailuresAreAnswered | services/geminiService.ts:31-152 | No helper lets a failure through: every failure gives a non-empty text. |
| Strings.Trim | components/Chatbot.tsx:47 | `trim`. Its meaning is stated by `Strings.TrimSpec`. |
| Strings.TrimSpec | services/geminiService.ts:79 | The trimmed string is a contiguous part of the input, bounded by whitespace on both sides, and is empty or non-whitespace at both ends. |
| Strings.BlankIffAllWhitespace | components/Chatbot.tsx:47 | A string trims to `''` exactly when all of it is whitespace. |
| Strings.TrimIdempotent | components/StructureView.tsx:41 | Trimming twice is the same as trimming once. |
| Strings.Split | components/StructureView.tsx:40 | `split` on one character. Its meaning is stated by `Strings.SplitSpec`. |
| Strings.Join | services/fileService.ts:25 | `join`. `Strings.SplitSpec` and `Strings.SplitJoin` relate it to `Split`. |
| Strings.SplitSpec | components/StructureView.tsx:40 | Gives one more piece than there are separators. No piece holds the separator, and joining the pieces back gives the input. |
| Strings.SplitJoin | services/fileService.ts:33 | Separator-free parts joined with the separator split back into the same parts. |
| Strings.SplitAfter | components/EditorPanel.tsx:47 | Splitting `a + sep + b`, with `a` separator-free, gives `a` followed by the pieces of `b`. |
| Strings.SplitPiecesFromSource | components/EditorPanel.tsx:47 | Every character of a piece occurs in the input. |

## Left out

- Third-party extractors and exporters are left out: mammoth, pdf.js, docx, jsPDF, `saveAs` and `window.htmlDocx`. So is the Blob, URL and DOM download plumbing. Their results enter the model as parameters. For PDF, the parameter is the text items of each page.
- `parseDocx`: it consists of calls into mammoth and is left out. The upload model receives its result as a parameter.
- `exportToPdf`'s line wrapping (`splitTextToSize` at width 180) happens inside jsPDF and is left out. Only the output name is modelled.
- The Gemini client, the prompt texts, the model name and the `API_KEY` check at module load are left out. Each call is only its outcome, `Ok(text)` or `Err(_)`. The SDK's `response.text` is taken to be a string.
- `generateInitialQuestions`, `improveUserResponse` and `generateDocumentStructure` are imported by the components but are not defined in the service file. They are parameters: the resolved question, a function from the typed message to an `Improvement`, and a `Result<string>`.
- Asynchronous interleaving is left out: React's batching of state updates, effects re-running, and two submits racing. Each handler runs to completion with its awaited values given.
- Logging (`console.error`) is left out.
- Message ids (`Date.now().toString() + Math.random()`) are left out. They are never compared in the modelled code.
- Chatbot.Chatbot.HandleSubmit: the reply must come from a total function. So the case where `improveUserResponse` rejects is not modelled. In the source, that rejection leaves `isLoading` set.
- Presentation is left out: the JSX markup, styles, scrolling, the export modal, the message bubbles and the reset button's wiring.
- The section-by-section rewrite flow that `ChatPanel.tsx` and the rest of `EditorPanel.tsx` describe is left out. It depends on an `AppState` enum and section-cursor types that do not exist in types.ts. Only `handleExport`'s HTML assembly is modelled from EditorPanel.
- Text encoding: Dafny strings are sequences of Unicode scalar values, while JavaScript strings are UTF-16 code units. Lengths stated in the model (for example in `EditorView.ApproveAppends`) count scalar values. Every whitespace character `trim` removes lies in the Basic Multilingual Plane, so trimming agrees. Unicode normalisation is not modelled.
